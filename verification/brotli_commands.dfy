/** The commands of a meta-block (sections 4, 5, 7, 9 and 10 of RFC 7932): literals by context,
    distances, copies and words of the static dictionary. */
module BrotliCommands {
  import opened Wrappers
  import opened BrotliBits
  import opened BrotliCode
  import opened BrotliParse
  import opened BrotliBlocks
  import opened BrotliDistance
  import opened BrotliCopy

  /** What is fixed for all streams: the static dictionary, the transforms of its words by number,
      and the context of the last two bytes in the modes that look it up. */
  datatype Fixed = Fixed(dictionary: Dictionary, transform: (seq<Byte>, nat) -> seq<Byte>,
                         utf8: (Byte, Byte) -> Context, signed: Byte -> Class)

  type Dictionary = d: seq<Byte> | |d| == DICTIONARY witness seq(DICTIONARY, _ => 0)
  type Context = x: nat | x < 64
  type Class = x: nat | x < 8

  /** The number of bits of a word's number, by length. */
  const NDBITS: seq<nat> := [0, 0, 0, 0, 10, 10, 11, 11, 10, 10, 10, 10, 10, 9, 9, 8, 7, 7, 8, 7, 7, 6, 6, 5, 5]

  /** Where the words of each length start in the dictionary. */
  const DICT_OFFSETS: seq<nat> := [0, 0, 0, 0, 0, 4096, 9216, 21504, 35840, 44032, 53248, 63488, 74752, 87040, 93696,
                                   100864, 104704, 106752, 108928, 113536, 115968, 118528, 119872, 121280, 122016]

  const DICTIONARY: nat := 122784
  const TRANSFORMS: nat := 121

  /** Which of the last four distances a short code means, and what is added to it. */
  const SHORT: seq<(nat, int)> := [(0, 0), (1, 0), (2, 0), (3, 0), (0, -1), (0, 1), (0, -2), (0, 2), (0, -3), (0, 3),
                                   (1, -1), (1, 1), (1, -2), (1, 2), (1, -3), (1, 3)]

  /** The head of a meta-block: how distances are coded, the context mode of each literal block
      type, the code of each context, and the codes. */
  datatype Head<C> = Head(npostfix: nat, ndirect: nat, modes: seq<nat>, cmapl: seq<Byte>, cmapd: seq<Byte>,
                          lcodes: seq<C>, icodes: seq<C>, dcodes: seq<C>)

  /** The decoder inside a meta-block: the three categories, all distances so far (after the
      four a stream starts with), and the output. */
  datatype State = State(l: Blocks, i: Blocks, d: Blocks, past: seq<nat>, out: seq<Byte>)

  ghost predicate Fits(h: Head<Table>, l: nat, i: nat, d: nat) {
    && |h.modes| == l && (forall k :: 0 <= k < l ==> h.modes[k] < 4)
    && |h.cmapl| == 64 * l && (forall k :: 0 <= k < |h.cmapl| ==> h.cmapl[k] < |h.lcodes|)
    && |h.cmapd| == 4 * d && (forall k :: 0 <= k < |h.cmapd| ==> h.cmapd[k] < |h.dcodes|)
    && |h.icodes| == i
    && AllComplete(h.lcodes, 256) && AllComplete(h.icodes, COMMANDS)
    && AllComplete(h.dcodes, AlphabetSize(h.npostfix, h.ndirect))
  }

  ghost predicate Recorded(past: seq<nat>) { |past| >= 4 && forall k :: 0 <= k < |past| ==> past[k] >= 1 }

  ghost predicate Good(h: Head<Table>, s: State) {
    Fits(h, s.l.n, s.i.n, s.d.n) && Sound(s.l) && Sound(s.i) && Sound(s.d) && Recorded(s.past)
  }

  // ------------------------------------------------------------------- literals

  /** The k-th byte from the end, 0 before the start. */
  function Last(out: seq<Byte>, k: nat): Byte
    requires k >= 1
  {
    if |out| >= k then out[|out| - k] else 0
  }

  ghost function ContextOf(f: Fixed, mode: nat, p1: Byte, p2: Byte): (c: nat)
    ensures c < 64
  {
    if mode == 0 then p1 % 64 else if mode == 1 then p1 / 4
    else if mode == 2 then f.utf8(p1, p2) else 8 * f.signed(p1) + f.signed(p2)
  }

  /** c is the context that a mode makes of the last byte p1 and the one before: the low six bits
      of the last, its high six bits, what the table of UTF-8 contexts has for the two, or the
      classes of both, the last one's higher. */
  ghost predicate IsContext(f: Fixed, mode: nat, p1: Byte, p2: Byte, c: nat) {
    && c < 64
    && (mode == 0 ==> exists k: nat :: p1 == 64 * k + c)
    && (mode == 1 ==> 4 * c <= p1 < 4 * c + 4)
    && (mode == 2 ==> c == f.utf8(p1, p2))
    && (mode == 3 ==> c / 8 == f.signed(p1) && c % 8 == f.signed(p2))
  }

  lemma ContextFixed(f: Fixed, mode: nat, p1: Byte, p2: Byte, c: nat)
    requires mode < 4
    ensures c == ContextOf(f, mode, p1, p2) <==> IsContext(f, mode, p1, p2, c)
  {
    var p: int := p1;
    assert p == 64 * (p / 64) + p % 64;
    var hi: int, lo: int := f.signed(p1), f.signed(p2);
    assert (8 * hi + lo) / 8 == hi && (8 * hi + lo) % 8 == lo;
  }

  /** The code for the next literal, in a block of type kind. */
  ghost function LiteralCode<C>(f: Fixed, h: Head<C>, kind: nat, out: seq<Byte>): C
    requires kind < |h.modes| && |h.cmapl| == 64 * |h.modes|
    requires forall k :: 0 <= k < |h.cmapl| ==> h.cmapl[k] < |h.lcodes|
  {
    h.lcodes[h.cmapl[64 * kind + ContextOf(f, h.modes[kind], Last(out, 1), Last(out, 2))]]
  }

  ghost function Literal(f: Fixed, h: Head<Table>, s: State, data: seq<Byte>, p: nat): Parsed<State>
    requires Good(h, s) && p <= 8 * |data|
  {
    NextSound(s.l, data, p);
    match Next(s.l, data, p)
    case Damaged => Damaged
    case Done(l, q) =>
      var t := LiteralCode(f, h, l.kind, s.out);
      SymbolForth(t, 256, data, q);
      match Symbol(t, data, q)
      case Damaged => Damaged
      case Done(x, q') => Done(s.(l := l, out := s.out + [x]), q')
  }

  /** A literal is read with the code that the map has for the type of its block and its context,
      after a block switch when the block is out, and is the one byte that is added. */
  lemma LiteralByContext(f: Fixed, h: Head<Table>, s: State, data: seq<Byte>, p: nat, p1: Byte, p2: Byte, c: nat)
    requires Good(h, s) && p <= 8 * |data| && Next(s.l, data, p).Done?
    requires p1 == if |s.out| >= 1 then s.out[|s.out| - 1] else 0
    requires p2 == if |s.out| >= 2 then s.out[|s.out| - 2] else 0
    requires var kind := Next(s.l, data, p).value.kind;
      kind < |h.modes| ==> IsContext(f, h.modes[kind], p1, p2, c)
    ensures var b := Next(s.l, data, p);
      && b.value.kind < |h.modes| && 64 * b.value.kind + c < |h.cmapl|
      && h.cmapl[64 * b.value.kind + c] < |h.lcodes|
      && Literal(f, h, s, data, p) ==
         match Symbol(h.lcodes[h.cmapl[64 * b.value.kind + c]], data, b.at)
         case Damaged => Damaged
         case Done(x, q) => if x < 256 then Done(s.(l := b.value, out := s.out + [x]), q) else Damaged
  {
    hide Next, Symbol, ContextOf, IsContext, Complete, Sound;
    NextSound(s.l, data, p);
    var b := Next(s.l, data, p);
    SoundKind(b.value);
    assert Last(s.out, 1) == p1 && Last(s.out, 2) == p2;
    ContextFixed(f, h.modes[b.value.kind], p1, p2, c);
    SymbolForth(LiteralCode(f, h, b.value.kind, s.out), 256, data, b.at);
  }

  lemma SoundKind(c: Blocks)
    requires Sound(c)
    ensures c.kind < c.n
  {
  }

  lemma FitsOpen(h: Head<Table>, l: nat, i: nat, d: nat)
    requires Fits(h, l, i, d)
    ensures |h.icodes| == i && AllComplete(h.icodes, COMMANDS)
  {
  }

  lemma LiteralGood(f: Fixed, h: Head<Table>, s: State, data: seq<Byte>, p: nat)
    requires Good(h, s) && p <= 8 * |data|
    ensures var x := Literal(f, h, s, data, p);
      && Forth(data, p, x)
      && (x.Done? ==> Good(h, x.value) && x.value == s.(l := x.value.l, out := x.value.out) && x.value.l.n == s.l.n
                      && s.out < x.value.out && |x.value.out| == |s.out| + 1)
  {
    hide Next, Symbol, ContextOf, Complete, Sound;
    NextSound(s.l, data, p);
    var x := Next(s.l, data, p);
    if x.Done? {
      SoundKind(x.value);
      SymbolForth(LiteralCode(f, h, x.value.kind, s.out), 256, data, x.at);
    }
  }

  /** Up to n literals; no more once the meta-block is full. */
  ghost function Literals(f: Fixed, h: Head<Table>, s: State, n: nat, end: nat, data: seq<Byte>, p: nat): Parsed<State>
    requires Good(h, s) && p <= 8 * |data|
    decreases n
  {
    if n == 0 then Done(s, p)
    else
      LiteralGood(f, h, s, data, p);
      match Literal(f, h, s, data, p)
      case Damaged => Damaged
      case Done(s', q) => if |s'.out| == end then Done(s', q) else Literals(f, h, s', n - 1, end, data, q)
  }

  lemma {:induction false} LiteralsGood(f: Fixed, h: Head<Table>, s: State, n: nat, end: nat, data: seq<Byte>, p: nat)
    requires Good(h, s) && p <= 8 * |data| && |s.out| < end
    ensures var x := Literals(f, h, s, n, end, data, p);
      && Forth(data, p, x)
      && (x.Done? ==> Good(h, x.value) && x.value == s.(l := x.value.l, out := x.value.out) && x.value.l.n == s.l.n
                      && s.out <= x.value.out && |x.value.out| == (if |s.out| + n < end then |s.out| + n else end))
    decreases n
  {
    hide Literal, Good;
    if n > 0 {
      LiteralGood(f, h, s, data, p);
      var x := Literal(f, h, s, data, p);
      if x.Done? && |x.value.out| < end {
        LiteralsGood(f, h, x.value, n - 1, end, data, x.at);
      }
    }
  }

  // ------------------------------------------------------------------- commands

  /** The start of a command: its number, how many literals it has and how much it copies. */
  datatype Opening = Opening(cmd: nat, inserted: nat, copied: nat)

  ghost function Open(h: Head<Table>, i: Blocks, data: seq<Byte>, p: nat): (r: Parsed<Opening>)
    requires Sound(i) && |h.icodes| == i.n && AllComplete(h.icodes, COMMANDS) && p <= 8 * |data|
  {
    SymbolForth(h.icodes[i.kind], COMMANDS, data, p);
    match Symbol(h.icodes[i.kind], data, p)
    case Damaged => Damaged
    case Done(cmd, p1) =>
      match Number(data, p1, INS_BITS[InsertCode(cmd)])
      case Damaged => Damaged
      case Done(x, p2) =>
        match Number(data, p2, COPY_BITS[CopyCode(cmd)])
        case Damaged => Damaged
        case Done(y, p3) => Done(Opening(cmd, INS_OFF[InsertCode(cmd)] + x, COPY_OFF[CopyCode(cmd)] + y), p3)
  }

  lemma OpenForth(h: Head<Table>, i: Blocks, data: seq<Byte>, p: nat)
    requires Sound(i) && |h.icodes| == i.n && AllComplete(h.icodes, COMMANDS) && p <= 8 * |data|
    ensures var x := Open(h, i, data, p);
      Forth(data, p, x) && (x.Done? ==> x.value.copied >= 2 && x.value.cmd < COMMANDS)
  {
    hide Symbol, Complete, Value, InsertCode, CopyCode;
    SymbolForth(h.icodes[i.kind], COMMANDS, data, p);
  }

  /** The command of a pair of codes, with the extra bits of the insert code and then those of the
      copy code after it, opens with the lengths that codes and bits stand for. */
  lemma OpensWith(h: Head<Table>, i: Blocks, data: seq<Byte>, p: nat, cmd: nat, ins: nat, cop: nat, q: nat)
    requires Sound(i) && |h.icodes| == i.n && AllComplete(h.icodes, COMMANDS) && p <= 8 * |data|
    requires Symbol(h.icodes[i.kind], data, p) == Done(cmd, q) && cmd < COMMANDS
    requires InsertCode(cmd) == ins < 24 && CopyCode(cmd) == cop < 24
    ensures Open(h, i, data, p) == Lengths(data, q, cmd, ins, cop)
  {
    hide Symbol, Number, InsertCode, CopyCode, Complete, Sound, AllComplete;
    LengthsAre(data, q, cmd, ins, cop);
  }

  ghost function Lengths(data: seq<Byte>, q: nat, cmd: nat, ins: nat, cop: nat): Parsed<Opening>
    requires ins < 24 && cop < 24
  {
    var m, n := INS_BITS[ins], COPY_BITS[cop];
    if q + m + n > 8 * |data| then Damaged
    else Done(Opening(cmd, INS_OFF[ins] + Value(data, q, m), COPY_OFF[cop] + Value(data, q + m, n)), q + m + n)
  }

  lemma LengthsAre(data: seq<Byte>, q: nat, cmd: nat, ins: nat, cop: nat)
    requires ins < 24 && cop < 24
    ensures Lengths(data, q, cmd, ins, cop) ==
      match Number(data, q, INS_BITS[ins])
      case Damaged => Damaged
      case Done(x, p2) =>
        match Number(data, p2, COPY_BITS[cop])
        case Damaged => Damaged
        case Done(y, p3) => Done(Opening(cmd, INS_OFF[ins] + x, COPY_OFF[cop] + y), p3)
  {
    hide Value;
  }

  /** One of the last distances, changed a little. */
  function ShortDistance(past: seq<nat>, code: nat): int
    requires |past| >= 4 && code < 16
  {
    past[|past| - 1 - SHORT[code].0] + SHORT[code].1
  }

  /** The first four short codes are the last four distances, the last one first; the next six are
      the last one, less or more 1, 2 and 3, the last six the last but one in the same way. */
  lemma ShortNames(past: seq<nat>, code: nat)
    requires |past| >= 4 && code < 16
    ensures var d, n := ShortDistance(past, code), |past|;
      && (code < 4 ==> d == past[n - 1 - code])
      && (4 <= code < 10 ==> d == past[n - 1] + if code % 2 == 0 then -(code / 2 - 1) else code / 2 - 1)
      && (code >= 10 ==> d == past[n - 2] + if code % 2 == 0 then -(code / 2 - 4) else code / 2 - 4)
  {
    assert SHORT[code] == if code < 4 then (code, 0)
      else if code < 10 then (0, if code % 2 == 0 then -(code / 2 - 1) else code / 2 - 1)
      else (1, if code % 2 == 0 then -(code / 2 - 4) else code / 2 - 4);
  }

  /** A distance: its code, and how far back it is. */
  datatype Reach = Reach(code: nat, d: nat)

  /** The context of a distance is how much is to be copied. */
  ghost function DistanceCode<C>(h: Head<C>, kind: nat, copied: nat): C
    requires copied >= 2 && 4 * kind + 3 < |h.cmapd|
    requires forall k :: 0 <= k < |h.cmapd| ==> h.cmapd[k] < |h.dcodes|
  {
    h.dcodes[h.cmapd[4 * kind + if copied > 4 then 3 else copied - 2]]
  }

  /** The contexts are for copies of 2, 3, 4 and more bytes. */
  lemma DistanceByContext<C>(h: Head<C>, kind: nat, copied: nat, c: nat)
    requires copied >= 2 && 4 * kind + 3 < |h.cmapd|
    requires forall k :: 0 <= k < |h.cmapd| ==> h.cmapd[k] < |h.dcodes|
    requires c < 4 && (if copied < 5 then copied == c + 2 else c == 3)
    ensures DistanceCode(h, kind, copied) == h.dcodes[h.cmapd[4 * kind + c]]
  {
  }

  /** What a distance code with the bits after it means. */
  ghost function Meant(h: Head<Table>, past: seq<nat>, code: nat, data: seq<Byte>, p: nat): Parsed<Reach>
    requires |past| >= 4
  {
    if code < 16 then
      var d := ShortDistance(past, code);
      if d <= 0 then Damaged else Done(Reach(code, d), p)
    else
      match Number(data, p, ExtraBits(h.npostfix, h.ndirect, code))
      case Damaged => Damaged
      case Done(e, q) => Done(Reach(code, Distance(h.npostfix, h.ndirect, code, e)), q)
  }

  /** The distance of a command: the last one for the first commands, and one that is coded for
      all others. */
  ghost function ReachOf(h: Head<Table>, s: State, o: Opening, data: seq<Byte>, p: nat): Parsed<(Blocks, Reach)>
    requires Good(h, s) && o.copied >= 2 && p <= 8 * |data|
  {
    if o.cmd < IMPLICIT then
      match Meant(h, s.past, 0, data, p)
      case Damaged => Damaged
      case Done(r, q) => Done((s.d, r), q)
    else
      NextSound(s.d, data, p);
      match Next(s.d, data, p)
      case Damaged => Damaged
      case Done(d, p1) =>
        match Symbol(DistanceCode(h, d.kind, o.copied), data, p1)
        case Damaged => Damaged
        case Done(code, p2) =>
          match Meant(h, s.past, code, data, p2)
          case Damaged => Damaged
          case Done(r, q) => Done((d, r), q)
  }

  lemma ReachGood(h: Head<Table>, s: State, o: Opening, data: seq<Byte>, p: nat)
    requires Good(h, s) && o.copied >= 2 && p <= 8 * |data|
    ensures var x := ReachOf(h, s, o, data, p);
      Forth(data, p, x) && (x.Done? ==> Sound(x.value.0) && x.value.0.n == s.d.n && x.value.1.d >= 1)
  {
    hide Symbol, Next, Complete, Value, Sound, Distance, ExtraBits;
    if o.cmd >= IMPLICIT {
      NextSound(s.d, data, p);
      var x := Next(s.d, data, p);
      if x.Done? {
        SoundKind(x.value);
        SymbolForth(DistanceCode(h, x.value.kind, o.copied), AlphabetSize(h.npostfix, h.ndirect), data, x.at);
      }
    }
  }

  /** The first 128 commands use the last distance again, without a code for it. */
  lemma LastAgain(h: Head<Table>, s: State, o: Opening, data: seq<Byte>, p: nat)
    requires Good(h, s) && o.cmd < 128 && o.copied >= 2 && p <= 8 * |data|
    ensures |s.past| > 0 && ReachOf(h, s, o, data, p) == Done((s.d, Reach(0, s.past[|s.past| - 1])), p)
  {
    hide Next, Symbol, Sound, Fits;
  }

  /** How far back the output reaches. */
  function Window(out: seq<Byte>, maxback: nat): nat { if |out| < maxback then |out| else maxback }

  /** The word of this length and number. */
  function Word(f: Fixed, copied: nat, number: nat): (r: seq<Byte>)
    requires 4 <= copied <= 24 && number < Pow2(NDBITS[copied])
    ensures |r| == copied
  {
    WordFits(copied, number);
    f.dictionary[DICT_OFFSETS[copied] + number * copied..][..copied]
  }

  /** The words of one length follow on those that are shorter, and those of all lengths fill the
      dictionary. */
  lemma WordsFill(n: nat)
    requires 4 <= n <= 24
    ensures DICT_OFFSETS[4] == 0
    ensures DICT_OFFSETS[n] + n * Pow2(NDBITS[n]) == if n < 24 then DICT_OFFSETS[n + 1] else DICTIONARY
  {
    WordPowers();
    hide Pow2;
  }

  lemma WordPowers()
    ensures Pow2(5) == 32 && Pow2(6) == 64 && Pow2(7) == 128 && Pow2(8) == 256
    ensures Pow2(9) == 512 && Pow2(10) == 1024 && Pow2(11) == 2048
  {
  }

  /** The words do not overlap: each ends where the next one of its length starts, at the latest
      where those of the next length do. */
  lemma WordFits(copied: nat, number: nat)
    requires 4 <= copied <= 24 && number < Pow2(NDBITS[copied])
    ensures DICT_OFFSETS[copied] + number * copied + copied <= DICT_OFFSETS[copied] + copied * Pow2(NDBITS[copied])
      <= DICTIONARY
  {
    hide Pow2;
    WordsFill(copied);
    More(copied, number + 1, Pow2(NDBITS[copied]));
  }

  lemma More(n: nat, a: nat, b: nat)
    requires a <= b
    ensures a * n <= n * b && a * n == (a - 1) * n + n
  {
    assert n * b == a * n + (b - a) * n;
  }

  /** The word that a distance beyond the window means; none for a length or a transform that
      there is not. */
  function WordOf(f: Fixed, beyond: nat, copied: nat): Option<seq<Byte>> {
    if !(4 <= copied <= 24) then None
    else
      var number, transform := beyond % Pow2(NDBITS[copied]), beyond / Pow2(NDBITS[copied]);
      if transform >= TRANSFORMS then None else Some(f.transform(Word(f, copied, number), transform))
  }

  lemma NoWord(f: Fixed, beyond: nat, copied: nat)
    requires copied < 4 || copied > 24
    ensures WordOf(f, beyond, copied) == None
  {
  }

  lemma WordIs(f: Fixed, beyond: nat, copied: nat)
    requires 4 <= copied <= 24
    ensures var number, transform := beyond % Pow2(NDBITS[copied]), beyond / Pow2(NDBITS[copied]);
      var at := DICT_OFFSETS[copied] + number * copied;
      && at + copied <= DICTIONARY
      && WordOf(f, beyond, copied) ==
         if transform >= TRANSFORMS then None else Some(f.transform(f.dictionary[at..][..copied], transform))
  {
    hide Pow2;
    WordFits(copied, beyond % Pow2(NDBITS[copied]));
  }

  /** Each word under each transform is meant by one number beyond the window, and no other. */
  lemma WordMeant(f: Fixed, copied: nat, number: nat, transform: nat, beyond: nat)
    requires 4 <= copied <= 24 && number < Pow2(NDBITS[copied]) && transform < TRANSFORMS
    requires beyond == transform * Pow2(NDBITS[copied]) + number
    ensures WordOf(f, beyond, copied) == Some(f.transform(Word(f, copied, number), transform))
  {
    hide Pow2, Word;
    var k := Pow2(NDBITS[copied]);
    Unique(k, beyond / k, beyond % k, transform, number);
  }

  /** All other lengths and numbers mean none. */
  lemma NoWordMeant(f: Fixed, beyond: nat, copied: nat)
    ensures WordOf(f, beyond, copied).None? <==>
      copied < 4 || copied > 24 || beyond >= 121 * Pow2(NDBITS[copied])
  {
    hide Pow2, Word;
    if 4 <= copied <= 24 {
      var k := Pow2(NDBITS[copied]);
      var q := beyond / k;
      assert beyond == q * k + beyond % k;
      if q >= TRANSFORMS {
        More(k, TRANSFORMS, q);
      } else {
        More(k, q + 1, TRANSFORMS);
      }
    }
  }

  /** The copy at the end of a command. Distances in the window are remembered, unless they are
      the last one again. */
  ghost function Copying(f: Fixed, s: State, r: Reach, copied: nat, maxback: nat, end: nat): Option<State>
    requires r.d >= 1
  {
    if r.d > Window(s.out, maxback) then
      match WordOf(f, r.d - Window(s.out, maxback) - 1, copied)
      case None => None
      case Some(piece) => if |s.out| + |piece| > end then None else Some(s.(out := s.out + piece))
    else if |s.out| + copied > end then None
    else Some(s.(past := if r.code > 0 then s.past + [r.d] else s.past, out := Copied(s.out, r.d, copied)))
  }

  lemma CopiedExtends(out: seq<Byte>, d: nat, n: nat)
    requires 1 <= d <= |out|
    ensures out <= Copied(out, d, n)
  {
    forall k: nat | k < |out| ensures Copied(out, d, n)[k] == out[k] {
      CopiedAt(out, d, n, k);
    }
  }

  lemma CopyingGood(f: Fixed, s: State, r: Reach, copied: nat, maxback: nat, end: nat)
    requires r.d >= 1 && Recorded(s.past)
    ensures var x := Copying(f, s, r, copied, maxback, end);
      x.Some? ==>
        && Recorded(x.value.past) && x.value == s.(past := x.value.past, out := x.value.out)
        && s.out <= x.value.out && |x.value.out| <= end
  {
    hide WordOf;
    if r.d <= Window(s.out, maxback) {
      CopiedExtends(s.out, r.d, copied);
    }
  }

  /** A distance within the output and the window is a copy, which succeeds just when it ends
      within the meta-block. It reads bytes that were there already, over again when it is longer
      than its distance; and the distance is remembered unless it was the last one again. */
  lemma CopyReadsWindow(f: Fixed, s: State, r: Reach, copied: nat, maxback: nat, end: nat)
    requires 1 <= r.d <= |s.out| && r.d <= maxback
    ensures var x := Copying(f, s, r, copied, maxback, end);
      && (x.Some? <==> |s.out| + copied <= end)
      && (x.Some? ==>
        && x.value == s.(past := x.value.past, out := x.value.out)
        && x.value.past == (if r.code == 0 then s.past else s.past + [r.d])
        && |x.value.out| == |s.out| + copied
        && (forall k: nat :: k < copied ==> x.value.out[|s.out| + k] == s.out[|s.out| - r.d + k % r.d]))
  {
    hide Copied;
    forall k: nat | k < copied ensures Copied(s.out, r.d, copied)[|s.out| + k] == s.out[|s.out| - r.d + k % r.d] {
      CopiedByte(s.out, r.d, copied, k);
    }
  }

  /** Any other distance is a word, numbered from the first distance that is out of reach; it is
      not remembered. */
  lemma WordBeyond(f: Fixed, s: State, r: Reach, copied: nat, maxback: nat, end: nat, reach: nat, n: nat)
    requires (reach == |s.out| <= maxback || reach == maxback <= |s.out|) && r.d == reach + 1 + n
    ensures Copying(f, s, r, copied, maxback, end) ==
      match WordOf(f, n, copied)
      case None => None
      case Some(piece) => if |s.out + piece| <= end then Some(s.(out := s.out + piece)) else None
  {
    hide WordOf;
  }

  /** A command. It ends with its literals when they fill the meta-block. */
  ghost function Command(f: Fixed, h: Head<Table>, s: State, maxback: nat, end: nat, data: seq<Byte>,
                         p: nat): Parsed<State>
    requires Good(h, s) && p <= 8 * |data| && |s.out| < end
  {
    NextSound(s.i, data, p);
    match Next(s.i, data, p)
    case Damaged => Damaged
    case Done(i, p1) =>
      var s1 := s.(i := i);
      OpenForth(h, i, data, p1);
      match Open(h, i, data, p1)
      case Damaged => Damaged
      case Done(o, p2) =>
        LiteralsGood(f, h, s1, o.inserted, end, data, p2);
        match Literals(f, h, s1, o.inserted, end, data, p2)
        case Damaged => Damaged
        case Done(s2, p3) =>
          if |s2.out| >= end then Done(s2, p3)
          else
            ReachGood(h, s2, o, data, p3);
            match ReachOf(h, s2, o, data, p3)
            case Damaged => Damaged
            case Done((d, r), p4) =>
              match Copying(f, s2.(d := d), r, o.copied, maxback, end)
              case None => Damaged
              case Some(s3) => Done(s3, p4)
  }

  /** A command keeps the state good and within the meta-block, and uses up bits or the command
      block: it may add nothing to the output. */
  lemma CommandGood(f: Fixed, h: Head<Table>, s: State, maxback: nat, end: nat, data: seq<Byte>, p: nat)
    requires Good(h, s) && p <= 8 * |data| && |s.out| < end
    ensures var x := Command(f, h, s, maxback, end, data, p);
      && Forth(data, p, x)
      && (x.Done? ==>
        && Good(h, x.value) && s.out <= x.value.out && |x.value.out| <= end
        && x.value.l.n == s.l.n && x.value.i.n == s.i.n && x.value.d.n == s.d.n
        && (p < x.at || (p == x.at && x.value.i.count < s.i.count)))
  {
    hide Next, Open, Literals, ReachOf, Copying, Sound, Fits, Recorded;
    NextSound(s.i, data, p);
    var x := Next(s.i, data, p);
    if x.Done? {
      var s1 := s.(i := x.value);
      FitsOpen(h, s.l.n, s.i.n, s.d.n);
      OpenForth(h, x.value, data, x.at);
      var o := Open(h, x.value, data, x.at);
      if o.Done? {
        LiteralsGood(f, h, s1, o.value.inserted, end, data, o.at);
        var y := Literals(f, h, s1, o.value.inserted, end, data, o.at);
        if y.Done? && |y.value.out| < end {
          ReachGood(h, y.value, o.value, data, y.at);
          var z := ReachOf(h, y.value, o.value, data, y.at);
          if z.Done? {
            CopyingGood(f, y.value.(d := z.value.0), z.value.1, o.value.copied, maxback, end);
          }
        }
      }
    }
  }

  /** Commands until the meta-block is full. */
  ghost function Commands(f: Fixed, h: Head<Table>, s: State, maxback: nat, end: nat, data: seq<Byte>,
                          p: nat): Parsed<State>
    requires Good(h, s) && p <= 8 * |data|
    decreases 8 * |data| - p, s.i.count
  {
    if |s.out| >= end then Done(s, p)
    else
      CommandGood(f, h, s, maxback, end, data, p);
      match Command(f, h, s, maxback, end, data, p)
      case Damaged => Damaged
      case Done(s', q) => Commands(f, h, s', maxback, end, data, q)
  }

  /** The commands of a meta-block fill it exactly, and leave what was there. */
  lemma {:induction false} CommandsFill(f: Fixed, h: Head<Table>, s: State, maxback: nat, end: nat, data: seq<Byte>,
                                        p: nat)
    requires Good(h, s) && p <= 8 * |data| && |s.out| <= end
    ensures var x := Commands(f, h, s, maxback, end, data, p);
      Forth(data, p, x) && (x.Done? ==> Good(h, x.value) && |x.value.out| == end && s.out <= x.value.out)
    decreases 8 * |data| - p, s.i.count
  {
    hide Command, Good;
    if |s.out| < end {
      CommandGood(f, h, s, maxback, end, data, p);
      var x := Command(f, h, s, maxback, end, data, p);
      if x.Done? {
        CommandsFill(f, h, x.value, maxback, end, data, x.at);
      }
    }
  }

  // ---------------------------------------------------------------- reading commands

  ghost predicate HeadRepresents(h: Head<Code>, t: Head<Table>) {
    && h.npostfix == t.npostfix && h.ndirect == t.ndirect && h.modes == t.modes
    && h.cmapl == t.cmapl && h.cmapd == t.cmapd
    && AllRepresent(h.lcodes, t.lcodes) && AllRepresent(h.icodes, t.icodes) && AllRepresent(h.dcodes, t.dcodes)
  }

  /** The ring of the decoder holds the last four distances. */
  ghost predicate Ring(dist: seq<nat>, past: seq<nat>) { |dist| == 4 && |past| >= 4 && dist == past[|past| - 4..] }

  method RunLiteral(b: Bits, f: Fixed, h: Head<Code>, l: Category, out: seq<Byte>, ghost t: Head<Table>, ghost s: State)
      returns (r: Option<Byte>)
    requires b.Valid() && l.Valid() && Good(t, s) && HeadRepresents(h, t) && s.l == l.State() && s.out == out
    modifies b, l
    ensures b.Valid() && old(b.At()) <= b.At()
    ensures Agrees(if r.Some? then Some(s.(l := l.State(), out := out + [r.value])) else None, b.At(),
                   Literal(f, t, s, b.data, old(b.At())))
    ensures r.Some? ==> l.Valid()
  {
    hide Next, Symbol, Complete, Represents;
    ghost var data, p := b.data, b.At();
    NextSound(s.l, data, p);
    var ok := l.Take(b);
    if !ok {
      return None;
    }
    SymbolForth(LiteralCode(f, t, l.kind, out), 256, data, b.At());
    var p1 := if out != [] then out[|out| - 1] else 0;
    var p2 := if |out| > 1 then out[|out| - 2] else 0;
    var mode := h.modes[l.kind];
    var ctx: nat := if mode == 0 then p1 % 64 else if mode == 1 then p1 / 4
      else if mode == 2 then f.utf8(p1, p2) else 8 * f.signed(p1) + f.signed(p2);
    var x := ReadBySymbol(h.lcodes[h.cmapl[64 * l.kind + ctx]], b, LiteralCode(f, t, l.kind, out));
    r := if x.Some? then Some(x.value) else None;
  }

  method RunLiterals(b: Bits, f: Fixed, h: Head<Code>, l: Category, start: seq<Byte>, n: nat, end: nat,
                     ghost t: Head<Table>, ghost s: State)
      returns (ok: bool, out: seq<Byte>)
    requires b.Valid() && l.Valid() && Good(t, s) && HeadRepresents(h, t) && s.l == l.State() && s.out == start
    requires |start| < end
    modifies b, l
    ensures b.Valid() && old(b.At()) <= b.At()
    ensures Agrees(if ok then Some(s.(l := l.State(), out := out)) else None, b.At(),
                   Literals(f, t, s, n, end, b.data, old(b.At())))
    ensures ok ==> l.Valid()
  {
    hide Literal, Good, HeadRepresents;
    ok, out := true, start;
    ghost var data, p, now := b.data, b.At(), s;
    var k := 0;
    while k < n
      invariant b.Valid() && p <= b.At() && l.Valid() && k <= n && |out| < end
      invariant now == s.(l := l.State(), out := out) && Good(t, now)
      invariant Literals(f, t, s, n, end, data, p) == Literals(f, t, now, n - k, end, data, b.At())
    {
      LiteralGood(f, t, now, data, b.At());
      var x := RunLiteral(b, f, h, l, out, t, now);
      if x.None? {
        return false, out;
      }
      out := out + [x.value];
      now := s.(l := l.State(), out := out);
      if |out| == end {
        return;
      }
      k := k + 1;
    }
  }

  method RunOpen(b: Bits, h: Head<Code>, i: Category, ghost t: Head<Table>) returns (r: Option<Opening>)
    requires b.Valid() && i.Valid() && HeadRepresents(h, t) && |t.icodes| == i.n && AllComplete(t.icodes, COMMANDS)
    modifies b
    ensures b.Valid() && old(b.At()) <= b.At()
    ensures Agrees(r, b.At(), Open(t, i.State(), b.data, old(b.At())))
  {
    hide Symbol, Complete, Represents, Number, InsertCode, CopyCode;
    ghost var data, p := b.data, b.At();
    SymbolForth(t.icodes[i.kind], COMMANDS, data, p);
    var cmd := ReadBySymbol(h.icodes[i.kind], b, t.icodes[i.kind]);
    if cmd.None? {
      return None;
    }
    var ic, cc := InsertCode(cmd.value), CopyCode(cmd.value);
    var x := ReadNumber(b, INS_BITS[ic]);
    if x.None? {
      return None;
    }
    var y := ReadNumber(b, COPY_BITS[cc]);
    if y.None? {
      return None;
    }
    r := Some(Opening(cmd.value, INS_OFF[ic] + x.value, COPY_OFF[cc] + y.value));
  }

  method RunMeant(b: Bits, h: Head<Code>, dist: seq<nat>, code: nat, ghost t: Head<Table>, ghost past: seq<nat>)
      returns (r: Option<Reach>)
    requires b.Valid() && HeadRepresents(h, t) && Ring(dist, past)
    modifies b
    ensures b.Valid() && old(b.At()) <= b.At()
    ensures Agrees(r, b.At(), Meant(t, past, code, b.data, old(b.At())))
  {
    hide Value, Distance, ExtraBits, AllRepresent;
    if code < 16 {
      var (which, delta) := SHORT[code];
      assert dist[3 - which] == past[|past| - 1 - which];
      var d := dist[3 - which] + delta;
      if d <= 0 {
        return None;
      }
      return Some(Reach(code, d));
    }
    var e := b.Read(ExtraBits(h.npostfix, h.ndirect, code));
    if e.None? {
      return None;
    }
    r := Some(Reach(code, Distance(h.npostfix, h.ndirect, code, e.value)));
  }

  method RunReach(b: Bits, h: Head<Code>, d: Category, dist: seq<nat>, o: Opening, ghost t: Head<Table>, ghost s: State)
      returns (r: Option<Reach>)
    requires b.Valid() && d.Valid() && Good(t, s) && HeadRepresents(h, t) && s.d == d.State() && Ring(dist, s.past)
      && o.copied >= 2
    modifies b, d
    ensures b.Valid() && old(b.At()) <= b.At()
    ensures Agrees(if r.Some? then Some((d.State(), r.value)) else None, b.At(), ReachOf(t, s, o, b.data, old(b.At())))
    ensures r.Some? ==> d.Valid()
  {
    hide Symbol, Next, Complete, Represents, Meant;
    ghost var data := b.data;
    if o.cmd < IMPLICIT {
      r := RunMeant(b, h, dist, 0, t, s.past);
      return;
    }
    NextSound(s.d, data, b.At());
    var ok := d.Take(b);
    if !ok {
      return None;
    }
    SymbolForth(DistanceCode(t, d.kind, o.copied), AlphabetSize(t.npostfix, t.ndirect), data, b.At());
    var ctx := if o.copied > 4 then 3 else o.copied - 2;
    var code := ReadBySymbol(h.dcodes[h.cmapd[4 * d.kind + ctx]], b, DistanceCode(t, d.kind, o.copied));
    if code.None? {
      return None;
    }
    r := RunMeant(b, h, dist, code.value, t, s.past);
  }

  method RunWord(f: Fixed, off: nat, copied: nat) returns (r: Option<seq<Byte>>)
    ensures r == WordOf(f, off, copied)
  {
    hide Pow2, WordOf;
    if copied < 4 || copied > 24 {
      NoWord(f, off, copied);
      return None;
    }
    WordIs(f, off, copied);
    var word := off % Pow2(NDBITS[copied]);
    var transform := off / Pow2(NDBITS[copied]);
    if transform >= TRANSFORMS {
      return None;
    }
    var at := DICT_OFFSETS[copied] + word * copied;
    r := Some(f.transform(f.dictionary[at..][..copied], transform));
  }

  method RunCopy(f: Fixed, start: seq<Byte>, ring: seq<nat>, r: Reach, copied: nat, maxback: nat, end: nat,
                 ghost s: State)
      returns (ok: bool, out: seq<Byte>, dist: seq<nat>, ghost past: seq<nat>)
    requires r.d >= 1 && s.out == start && Ring(ring, s.past)
    ensures (if ok then Some(s.(past := past, out := out)) else None) == Copying(f, s, r, copied, maxback, end)
    ensures ok ==> Ring(dist, past)
  {
    hide Pow2, Copied, WordOf;
    ok, out, dist, past := false, start, ring, s.past;
    var mx := if |out| < maxback then |out| else maxback;
    if r.d > mx {
      var found := RunWord(f, r.d - mx - 1, copied);
      if found.None? {
        return;
      }
      var piece := found.value;
      if |out| + |piece| > end {
        return;
      }
      out := out + piece;
    } else {
      if r.code > 0 {
        dist, past := dist[1..] + [r.d], past + [r.d];
      }
      if |out| + copied > end {
        return;
      }
      out := Copy(out, r.d, copied);
    }
    ok := true;
  }

  /** One command. */
  method RunCommand(b: Bits, f: Fixed, h: Head<Code>, l: Category, i: Category, d: Category, start: seq<Byte>,
                    ring: seq<nat>, maxback: nat, end: nat, ghost t: Head<Table>, ghost s: State)
      returns (ok: bool, out: seq<Byte>, dist: seq<nat>, ghost past: seq<nat>)
    requires b.Valid() && l.Valid() && i.Valid() && d.Valid() && l != i && l != d && i != d
    requires Good(t, s) && HeadRepresents(h, t) && |start| < end && Ring(ring, s.past)
    requires s == State(l.State(), i.State(), d.State(), s.past, start)
    modifies b, l, i, d
    ensures b.Valid() && old(b.At()) <= b.At()
    ensures Agrees(if ok then Some(State(l.State(), i.State(), d.State(), past, out)) else None, b.At(),
                   Command(f, t, s, maxback, end, b.data, old(b.At())))
    ensures ok ==> l.Valid() && i.Valid() && d.Valid() && Ring(dist, past)
  {
    hide Next, Open, Literals, ReachOf, Copying, Sound, HeadRepresents, Recorded, Complete, Represents;
    ghost var data := b.data;
    ok, out, dist, past := false, start, ring, s.past;
    NextSound(s.i, data, b.At());
    var taken := i.Take(b);
    if !taken {
      return;
    }
    ghost var s1 := s.(i := i.State());
    OpenForth(t, i.State(), data, b.At());
    var o := RunOpen(b, h, i, t);
    if o.None? {
      return;
    }
    LiteralsGood(f, t, s1, o.value.inserted, end, data, b.At());
    taken, out := RunLiterals(b, f, h, l, out, o.value.inserted, end, t, s1);
    if !taken {
      return;
    }
    ghost var s2 := s1.(l := l.State(), out := out);
    if |out| >= end {
      ok := true;
      return;
    }
    ReachGood(t, s2, o.value, data, b.At());
    var r := RunReach(b, h, d, dist, o.value, t, s2);
    if r.None? {
      return;
    }
    ok, out, dist, past := RunCopy(f, out, dist, r.value, o.value.copied, maxback, end, s2.(d := d.State()));
  }

  /** The commands of a meta-block. */
  method RunCommands(b: Bits, f: Fixed, h: Head<Code>, l: Category, i: Category, d: Category, start: seq<Byte>,
                     ring: seq<nat>, maxback: nat, end: nat, ghost t: Head<Table>, ghost s: State)
      returns (ok: bool, out: seq<Byte>, dist: seq<nat>, ghost past: seq<nat>)
    requires b.Valid() && l.Valid() && i.Valid() && d.Valid() && l != i && l != d && i != d
    requires Good(t, s) && HeadRepresents(h, t) && |start| <= end && Ring(ring, s.past)
    requires s == State(l.State(), i.State(), d.State(), s.past, start)
    modifies b, l, i, d
    ensures b.Valid() && old(b.At()) <= b.At()
    ensures Agrees(if ok then Some(State(l.State(), i.State(), d.State(), past, out)) else None, b.At(),
                   Commands(f, t, s, maxback, end, b.data, old(b.At())))
    ensures ok ==> Ring(dist, past)
  {
    hide Command, Good, HeadRepresents, Ring;
    ok, out, dist, past := true, start, ring, s.past;
    ghost var data, p, now := b.data, b.At(), s;
    while |out| < end
      invariant b.Valid() && p <= b.At() && l.Valid() && i.Valid() && d.Valid() && |out| <= end
      invariant now == State(l.State(), i.State(), d.State(), past, out) && Good(t, now) && Ring(dist, past)
      invariant Commands(f, t, s, maxback, end, data, p) == Commands(f, t, now, maxback, end, data, b.At())
      decreases 8 * |data| - b.At(), i.count
    {
      CommandGood(f, t, now, maxback, end, data, b.At());
      ok, out, dist, past := RunCommand(b, f, h, l, i, d, out, dist, maxback, end, t, now);
      if !ok {
        return;
      }
      now := State(l.State(), i.State(), d.State(), past, out);
    }
  }
}
