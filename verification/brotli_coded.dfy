/** Text in a compressed meta-block: a stream of one command with any literals and any copy of them,
    which decodes to just that (sections 3 to 5 and 9 of RFC 7932). */
module BrotliCoded {
  import opened Wrappers
  import opened BrotliBits
  import opened BrotliWriter
  import opened BrotliCode
  import opened BrotliLengths
  import opened BrotliHeader
  import opened BrotliContext
  import opened BrotliParse
  import opened BrotliBlocks
  import opened BrotliDistance
  import opened BrotliCopy
  import opened BrotliCommands
  import opened BrotliStream
  import BrotliStored

  // ------------------------------------------------------------ codes of eight bits each

  ghost function Flat(): Lengths { Copies(8, 256) }

  lemma {:induction false} FlatCount(n: nat, k: nat)
    requires k <= 256
    ensures CountOf(Flat(), n, k) == if n == 8 then k else 0
  {
    if k > 0 {
      FlatCount(n, k - 1);
    }
  }

  lemma {:induction false} NoShorter(count: seq<nat>, n: nat)
    requires 1 <= n <= 8 && |count| == MAX_LENGTH + 1 && forall i :: 0 <= i < 8 ==> count[i] == 0
    ensures FirstCode(count, n) == 0
  {
    if n > 1 {
      NoShorter(count, n - 1);
    }
  }

  /** The code of a byte is the byte. */
  lemma FlatSymbol(data: seq<Byte>, p: nat, s: Byte)
    requires BitsAt(data, p, HighByte(s))
    ensures Symbol(Canonical(Flat()), data, p) == Done(s, p + 8) && p + 8 <= 8 * |data|
  {
    hide CodeAt, Symbol;
    EightPower();
    HighBack(data, p, s, 8);
    var count := Counts(Flat(), 256);
    forall i | 0 <= i < 8 ensures count[i] == 0 {
      FlatCount(i, 256);
    }
    NoShorter(count, 8);
    FlatCount(8, s);
    SymbolIs(Canonical(Flat()), data, p, s, p + 8);
  }

  lemma EightPower()
    ensures Pow2(8) == 256
  {
  }

  ghost function HighByte(s: Byte): (b: BitString)
    ensures |b| == 8
  {
    EightPower();
    High(s, 8)
  }

  // ---------------------------------------------------- how these lengths are written

  /** Of the 18 code lengths only that for 8 is used. */
  ghost function OnlyEight(n: nat): (vs: seq<nat>)
    ensures |vs| == n
  {
    seq(n, k => if k == 10 then 3 else 0)
  }

  ghost function OnlyEightBits(n: nat): (b: BitString)
    ensures |b| == 2 * n
  {
    if n == 0 then [] else OnlyEightBits(n - 1) + [0, if n == 11 then 1 else 0]
  }

  lemma SmallSymbol(data: seq<Byte>, p: nat, three: bool)
    requires BitsAt(data, p, [0, if three then 1 else 0])
    ensures SymbolAt(Canonical(SMALL), data, p, if three then 3 else 0, p + 2)
  {
    hide Canon;
    SmallCodes();
    var b: BitString := [0, if three then 1 else 0];
    assert b[0] == Bit(data, p + 0) && b[1] == Bit(data, p + 1);
    assert CodeAt(data, p, 2) == 2 * CodeAt(data, p, 1) + Bit(data, p + 1);
    assert CodeAt(data, p, 1) == 2 * CodeAt(data, p, 0) + Bit(data, p);
  }

  lemma OnlyEightMore(n: nat)
    ensures var last: BitString := [0, if n == 10 then 1 else 0];
      OnlyEightBits(n + 1) == OnlyEightBits(n) + last && OnlyEight(n + 1) == OnlyEight(n) + [if n == 10 then 3 else 0]
  {
  }

  lemma NoneSpelled(data: seq<Byte>, p: nat)
    ensures Spelled(Canonical(SMALL), data, p, OnlyEight(0), p)
  {
  }

  lemma {:induction false} OnlyEightSpelled(data: seq<Byte>, p: nat, n: nat)
    requires BitsAt(data, p, OnlyEightBits(n))
    ensures Spelled(Canonical(SMALL), data, p, OnlyEight(n), p + 2 * n)
  {
    hide SymbolAt, BitsAt, OnlyEightBits, OnlyEight, Spelled;
    if n == 0 {
      NoneSpelled(data, p);
    } else {
      var m, three := n - 1, n == 11;
      OnlyEightMore(m);
      BitsParts(data, p, OnlyEightBits(m), [0, if three then 1 else 0]);
      OnlyEightSpelled(data, p, m);
      SmallSymbol(data, p + 2 * m, three);
      SpelledMore(Canonical(SMALL), data, p, OnlyEight(m), p + 2 * m, if three then 3 else 0, p + 2 * n);
    }
  }

  lemma {:induction false} OnlyEightRoom(n: nat, k: nat)
    requires k <= n
    ensures Room(OnlyEight(n), k) == if k > 10 then 28 else 32
    ensures NonZero(OnlyEight(n), k) == if k > 10 then 1 else 0
  {
    assert Pow2(3) == 8;
    if k > 0 {
      OnlyEightRoom(n, k - 1);
    }
  }

  lemma {:induction false} OnlyEightPlaced(n: nat, k: nat, s: nat)
    requires k <= n <= 18 && s < 18
    ensures Placed(OnlyEight(n), 0, k)[s] == if s == 8 && k > 10 then 3 else 0
  {
    if k > 0 {
      OnlyEightPlaced(n, k - 1, s);
      OrderIs(k - 1);
      OrderIsOneToOne(k - 1, k - 1);
    }
  }

  ghost function Eights(n: nat): (ts: seq<Token>)
    ensures |ts| == n
  {
    seq(n, _ => Length(8))
  }

  lemma {:induction false} EightsAt(data: seq<Byte>, p: nat, n: nat)
    ensures TokensAt(Lone(8), data, p, Eights(n), p)
  {
    if n > 0 {
      EightsAt(data, p, n - 1);
      assert Eights(n)[..n - 1] == Eights(n - 1);
      assert TokenAt(Lone(8), data, p, Eights(n)[n - 1], p);
    }
  }

  lemma {:induction false} EightsMean(n: nat, k: nat)
    requires k <= n
    ensures Meaning(Eights(n), k) == Copies(8, k)
  {
    if k > 0 {
      EightsMean(n, k - 1);
    }
  }

  lemma {:induction false} EightsKraft(n: nat, k: nat)
    requires k <= n
    ensures Kraft(Copies(8, n), k) == 128 * k
  {
    assert Pow2(7) == 128;
    if k > 0 {
      EightsKraft(n, k - 1);
    }
  }

  lemma EightsFill()
    ensures OpenBefore(Eights(256), 256) && Fills(Eights(256), 256) && Meaning(Eights(256), 256) == Flat()
  {
    hide Meaning, Kraft;
    forall k | 0 <= k < 256 ensures BrotliLengths.Open(Eights(256), k, 256) {
      EightsMean(256, k);
      EightsKraft(k, k);
    }
    EightsMean(256, 256);
    EightsKraft(256, 256);
  }

  /** Bits for the code with all lengths 8. */
  ghost function FlatBits(): (b: BitString)
    ensures |b| == 38
  {
    Low(0, 2) + OnlyEightBits(18)
  }

  lemma FlatDescribed(data: seq<Byte>, p: nat)
    requires BitsAt(data, p, FlatBits())
    ensures Described(data, p, 256) == Done(Canonical(Flat()), p + 38)
  {
    hide Described, ComplexCode, BitsAt, OnlyEightBits, Low, Value, Eights, OnlyEight;
    assert Pow2(2) == 4;
    BitsParts(data, p, Low(0, 2), OnlyEightBits(18));
    LowBack(data, p, 0, 2);
    FlatComplex(data, p + 2);
    DescribedIs(data, p, 256, Some(Canonical(Flat())), p + 38);
  }

  lemma FlatComplex(data: seq<Byte>, p: nat)
    requires BitsAt(data, p, OnlyEightBits(18))
    ensures ComplexCode(data, p, 0, 256, Some(Canonical(Flat())), p + 36, OnlyEight(18), p + 36, Some(Lone(8)),
                        Eights(256))
  {
    hide Spelled, Room, NonZero, Placed, TokensAt, OpenBefore, Fills, Meaning, OnlyEight, Eights;
    OnlyEightSpelled(data, p, 18);
    OnlyEightSmall();
    forall k | 0 <= k <= 18 ensures Room(OnlyEight(18), k) > 0 {
      OnlyEightRoom(18, k);
    }
    OnlyEightRoom(18, 18);
    forall s | 0 <= s <= 8 ensures Placed(OnlyEight(18), 0, 18)[s] == if s == 8 then 3 else 0 {
      OnlyEightPlaced(18, 18, s);
    }
    EightsAt(data, p + 36, 256);
    EightsFill();
    assert Flat() + Copies(0, 0) == Flat();
  }

  lemma OnlyEightSmall()
    ensures Small(OnlyEight(18))
  {
  }

  /** Bits for a code of one symbol. */
  ghost function LoneBits(s: nat, w: nat): (b: BitString)
    requires s < Pow2(w)
    ensures |b| == 4 + w
  {
    Low(1, 2) + (Low(0, 2) + Low(s, w))
  }

  lemma LoneParts(data: seq<Byte>, p: nat, s: nat, w: nat)
    requires s < Pow2(w) && BitsAt(data, p, LoneBits(s, w))
    ensures p + 4 + w <= 8 * |data|
    ensures Value(data, p, 2) == 1 && Value(data, p + 2, 2) == 0 && Value(data, p + 4, w) == s
  {
    hide Value, Low, BitsAt;
    assert Pow2(2) == 4;
    BitsParts(data, p, Low(1, 2), Low(0, 2) + Low(s, w));
    BitsParts(data, p + 2, Low(0, 2), Low(s, w));
    LowBack(data, p, 1, 2);
    LowBack(data, p + 2, 0, 2);
    LowBack(data, p + 4, s, w);
  }

  lemma LoneDescribed(data: seq<Byte>, p: nat, size: nat, s: nat)
    requires s < size && s < Pow2(SymbolBits(size)) && BitsAt(data, p, LoneBits(s, SymbolBits(size)))
    ensures Described(data, p, size) == Done(Lone(s), p + 4 + SymbolBits(size))
  {
    hide Described, Value, SymbolBits, BitsAt, Pow2;
    var w := SymbolBits(size);
    LoneParts(data, p, s, w);
    LoneCode(data, p + 2, size, s);
    DescribedIs(data, p, size, Some(Lone(s)), p + 4 + w);
  }

  lemma LoneCode(data: seq<Byte>, p: nat, size: nat, s: nat)
    requires s < size && p + 2 + SymbolBits(size) <= 8 * |data|
    requires Value(data, p, 2) == 0 && Value(data, p + 2, SymbolBits(size)) == s
    ensures SimpleCode(data, p, size, Some(Lone(s)), p + 2 + SymbolBits(size))
  {
    hide Value, SymbolBits;
    OneSymbol(data, p + 2, size);
  }

  lemma OneSymbol(data: seq<Byte>, p: nat, size: nat)
    requires size >= 1 && p + SymbolBits(size) <= 8 * |data|
    ensures p + 1 * SymbolBits(size) <= 8 * |data|
    ensures SimpleSymbols(data, p, size, 1) == [Value(data, p, SymbolBits(size))]
  {
    hide SymbolBits, Value;
    assert SimpleSymbols(data, p, size, 0) == [];
  }

  // -------------------------------------------------------------------- the lengths

  /** A length has an insert code and extra bits. */
  lemma {:induction false} InsertFor(n: nat, k: nat) returns (i: nat, x: nat)
    requires k < 24 && n < INS_OFF[k] + Pow2(INS_BITS[k])
    ensures i < 24 && x < Pow2(INS_BITS[i]) && INS_OFF[i] + x == n
    decreases k
  {
    if n >= INS_OFF[k] {
      i, x := k, n - INS_OFF[k];
    } else {
      LengthsAreContiguous(k - 1);
      i, x := InsertFor(n, k - 1);
    }
  }

  lemma {:induction false} CopyFor(n: nat, k: nat) returns (i: nat, x: nat)
    requires k < 24 && 2 <= n < COPY_OFF[k] + Pow2(COPY_BITS[k])
    ensures i < 24 && x < Pow2(COPY_BITS[i]) && COPY_OFF[i] + x == n
    decreases k
  {
    if n >= COPY_OFF[k] {
      i, x := k, n - COPY_OFF[k];
    } else {
      LengthsAreContiguous(k - 1);
      i, x := CopyFor(n, k - 1);
    }
  }

  /** How a command is written: its codes with their extra bits, and its distance's. */
  datatype Spelling = Spelling(i: nat, x: nat, j: nat, y: nat, code: nat, e: nat)

  ghost predicate Spells(s: Spelling, inserted: nat, copied: nat, d: nat) {
    && s.i < 24 && s.x < Pow2(INS_BITS[s.i]) && INS_OFF[s.i] + s.x == inserted
    && s.j < 24 && s.y < Pow2(COPY_BITS[s.j]) && COPY_OFF[s.j] + s.y == copied
    && 16 <= s.code < 64 && s.e < Pow2(ExtraBits(0, 0, s.code)) && Distance(0, 0, s.code, s.e) == d
  }

  lemma SpellingFor(inserted: nat, copied: nat, d: nat) returns (s: Spelling)
    requires inserted <= 65536 && 2 <= copied <= 65536 && 1 <= d <= 65536
    ensures Spells(s, inserted, copied, d)
  {
    hide Encode, Distance, ExtraBits;
    FarEnough();
    var i, x := InsertFor(inserted, 23);
    var j, y := CopyFor(copied, 23);
    EncodeDistance(0, 0, d);
    InAlphabet(0, 0, d);
    var c := Encode(0, 0, d);
    s := Spelling(i, x, j, y, c.code, c.extra);
  }

  lemma FarEnough()
    ensures Pow2(24) == 16777216 && Farthest(0, 0) == 67108860 && AlphabetSize(0, 0) == 64
  {
    LastCounts();
    assert Pow2(0) == 1;
  }

  // ------------------------------------------------------------- numbers of codes

  /** The largest number with 2^n at most c. */
  ghost function Log(c: nat): (n: nat)
    requires c >= 1
    ensures Pow2(n) <= c < Pow2(n + 1)
  {
    if c == 1 then 0 else 1 + Log(c / 2)
  }

  ghost function CountBits(c: nat): BitString
    requires 1 <= c <= 256
  {
    if c == 1 then [0] else [1] + (Low(Log(c - 1), 3) + Low(c - 1 - Pow2(Log(c - 1)), Log(c - 1)))
  }

  lemma LogBelow(c: nat)
    requires 1 <= c < 256
    ensures Log(c) < 8
  {
    assert Pow2(8) == 256;
    if Log(c) >= 8 {
      Pow2Mono(8, Log(c));
    }
  }

  /** Every number from 1 to 256 of block types or codes can be written. */
  lemma CountBack(data: seq<Byte>, p: nat, c: nat)
    requires 1 <= c <= 256 && BitsAt(data, p, CountBits(c))
    ensures Count(data, p) == Done(c, p + |CountBits(c)|)
  {
    hide Value, Bit, BitsAt, Pow2, Low, Log;
    if c == 1 {
      FirstOfBits(data, p, [0]);
    } else {
      var n := Log(c - 1);
      LogBelow(c - 1);
      Pow2Next(n);
      assert Pow2(3) == 8 by { StreamPowers(); }
      BitsParts(data, p, [1], Low(n, 3) + Low(c - 1 - Pow2(n), n));
      FirstOfBits(data, p, [1]);
      BitsParts(data, p + 1, Low(n, 3), Low(c - 1 - Pow2(n), n));
      LowBack(data, p + 1, n, 3);
      LowBack(data, p + 4, c - 1 - Pow2(n), n);
    }
  }

  lemma FirstOfBits(data: seq<Byte>, p: nat, b: BitString)
    requires b != [] && BitsAt(data, p, b)
    ensures p + |b| <= 8 * |data| && Bit(data, p) == b[0]
  {
    assert b[0] == Bit(data, p + 0);
  }

  // ------------------------------------------------------------------ the head

  ghost function OneType(): Blocks { Blocks(1, Lone(0), Lone(0), 0, 1, NO_BLOCKS) }

  lemma ZerosSplit(data: seq<Byte>, p: nat, m: nat, n: nat)
    requires p + m + n <= 8 * |data| && Value(data, p, m + n) == 0
    ensures Value(data, p, m) == 0 && Value(data, p + m, n) == 0
  {
    hide Value, Pow2;
    BrotliStored.Field(data, p, m, n);
  }

  /** Three categories of one block type each. */
  lemma ZeroStarts(data: seq<Byte>, p: nat)
    requires p + 3 <= 8 * |data| && Value(data, p, 1) == Value(data, p + 1, 1) == Value(data, p + 2, 1) == 0
    ensures Starts(data, p) == Done(Three(OneType(), OneType(), OneType()), p + 3)
  {
    hide Described, Value, Bit;
    FirstBit(data, p);
    FirstBit(data, p + 1);
    FirstBit(data, p + 2);
  }

  ghost function OneHead(cmd: nat, code: nat): Head<Table> {
    Head(0, 0, [0], seq(64, _ => 0), seq(4, _ => 0), [Canonical(Flat())], [Lone(cmd)], [Lone(code)])
  }

  lemma ZeroMap(data: seq<Byte>, p: nat, size: nat)
    requires p + 1 <= 8 * |data| && Value(data, p, 1) == 0
    ensures Mapped(data, p, size) == Done((1, seq(size, _ => 0)), p + 1)
  {
    hide Value, Bit;
    FirstBit(data, p);
    var zeros: seq<Byte> := seq(size, _ => 0);
    var tr := Trace(0, 0, None, 0, [], 0);
    assert MapWritten(data, p + 1, size, 1, zeros, p + 1, tr);
    var m, q: nat, tr' :| MapWritten(data, p + 1, size, 1, m, q, tr') && ContextMap(data, p + 1, size, 1) == Done(m, q);
    MapOnce(data, p + 1, size, 1, m, q, tr', zeros, p + 1, tr);
  }

  lemma OneTable(data: seq<Byte>, p: nat, size: nat, t: Table, q: nat)
    requires size >= 1 && Described(data, p, size) == Done(t, q)
    ensures Tables(data, p, size, 1) == Done([t], q)
  {
    hide Described;
    assert Tables(data, p, size, 0) == Done([], p);
    assert [] + [t] == [t];
  }

  ghost function CodesBits(cmd: nat, code: nat): (b: BitString)
    requires cmd < 704 && code < 64
    ensures |b| == 62
  {
    CodePowers();
    FlatBits() + (LoneBits(cmd, 10) + LoneBits(code, 6))
  }

  lemma CodePowers()
    ensures Pow2(10) == 1024 && Pow2(6) == 64 && SymbolBits(704) == 10 && SymbolBits(64) == 6
  {
    assert BitLength(703) == 10 by {
      assert BitLength(703) == 4 + BitLength(43) && BitLength(43) == 4 + BitLength(2);
    }
    assert BitLength(63) == 3 + BitLength(7);
  }

  lemma CodesAre(data: seq<Byte>, p: nat, cmd: nat, code: nat)
    requires cmd < 704 && code < 64 && BitsAt(data, p, CodesBits(cmd, code))
    ensures BrotliStream.Codes(data, p, 1, 1, 1, 64) == Done(([Canonical(Flat())], [Lone(cmd)], [Lone(code)]), p + 62)
  {
    hide Described, FlatBits, LoneBits, Tables, BitsAt, SymbolBits, Pow2;
    CodePowers();
    BitsParts(data, p, FlatBits(), LoneBits(cmd, 10) + LoneBits(code, 6));
    BitsParts(data, p + 38, LoneBits(cmd, 10), LoneBits(code, 6));
    FlatDescribed(data, p);
    LoneDescribed(data, p + 38, 704, cmd);
    LoneDescribed(data, p + 52, 64, code);
    OneTable(data, p, 256, Canonical(Flat()), p + 38);
    OneTable(data, p + 38, 704, Lone(cmd), p + 52);
    OneTable(data, p + 52, 64, Lone(code), p + 62);
  }

  lemma OneMode(data: seq<Byte>, p: nat)
    requires p + 2 <= 8 * |data| && Value(data, p, 2) == 0
    ensures Modes(data, p, 1) == Done([0], p + 2)
  {
    hide Value;
    assert Modes(data, p, 0) == Done([], p);
    assert [] + [0] == [0];
  }

  lemma HeadIs(data: seq<Byte>, p: nat, cmd: nat, code: nat)
    requires cmd < 704 && code < 64 && p + 72 <= 8 * |data| && Value(data, p, 10) == 0
    requires BitsAt(data, p + 10, CodesBits(cmd, code))
    ensures HeadAt(data, p, 1, 1, 1) == Done(OneHead(cmd, code), p + 72)
  {
    hide Value, Modes, Mapped, BrotliStream.Codes, CodesBits, BitsAt;
    FarEnough();
    ZerosSplit(data, p, 2, 8);
    ZerosSplit(data, p + 2, 4, 4);
    ZerosSplit(data, p + 6, 2, 2);
    ZerosSplit(data, p + 8, 1, 1);
    OneMode(data, p + 6);
    ZeroMap(data, p + 8, 64);
    ZeroMap(data, p + 9, 4);
    CodesAre(data, p + 10, cmd, code);
    assert Times(0, Pow2(0)) == 0;
  }

  // ------------------------------------------------------------------ the command

  ghost function LiteralBits(lits: seq<Byte>): (b: BitString)
    ensures |b| == 8 * |lits|
  {
    if lits == [] then [] else HighByte(lits[0]) + LiteralBits(lits[1..])
  }

  /** A category of one block type goes on with its block. */
  lemma Going(c: Blocks, data: seq<Byte>, p: nat)
    requires Sound(c) && c.n == 1 && c.count > 0 && p <= 8 * |data|
    ensures Next(c, data, p) == Done(c.(count := c.count - 1), p)
  {
  }

  lemma OneLiteral(f: Fixed, h: Head<Table>, cmd: nat, code: nat, s: State, x: Byte, data: seq<Byte>, p: nat)
    requires Good(h, s) && h == OneHead(cmd, code) && s.l.n == 1 && s.l.count > 0
    requires BitsAt(data, p, HighByte(x))
    ensures p + 8 <= 8 * |data|
    ensures Literal(f, h, s, data, p) == Done(s.(l := s.l.(count := s.l.count - 1), out := s.out + [x]), p + 8)
  {
    hide Next, Symbol, ContextOf, Complete, HighByte, Flat;
    FlatSymbol(data, p, x);
    Going(s.l, data, p);
    NextSound(s.l, data, p);
    assert LiteralCode(f, h, 0, s.out) == Canonical(Flat());
  }

  lemma {:induction false} LiteralsAre(f: Fixed, h: Head<Table>, cmd: nat, code: nat, s: State, lits: seq<Byte>,
                                       end: nat, data: seq<Byte>, p: nat)
    requires Good(h, s) && h == OneHead(cmd, code) && s.l.n == 1 && s.l.count >= |lits|
    requires p <= 8 * |data| && BitsAt(data, p, LiteralBits(lits)) && |s.out| + |lits| < end
    ensures Literals(f, h, s, |lits|, end, data, p) ==
      Done(s.(l := s.l.(count := s.l.count - |lits|), out := s.out + lits), p + 8 * |lits|)
    decreases |lits|
  {
    hide Literal, Good, HighByte, BitsAt;
    if lits == [] {
      assert s.out + lits == s.out && s.l.(count := s.l.count - 0) == s.l;
    } else {
      var x, rest := lits[0], lits[1..];
      BitsParts(data, p, HighByte(x), LiteralBits(rest));
      OneLiteral(f, h, cmd, code, s, x, data, p);
      LiteralGood(f, h, s, data, p);
      var t := s.(l := s.l.(count := s.l.count - 1), out := s.out + [x]);
      LiteralsAre(f, h, cmd, code, t, rest, end, data, p + 8);
      assert t.out + rest == s.out + lits;
    }
  }

  ghost predicate FieldsFit(sp: Spelling) {
    && sp.i < 24 && sp.x < Pow2(INS_BITS[sp.i]) && sp.j < 24 && sp.y < Pow2(COPY_BITS[sp.j])
    && sp.code >= 16 && sp.e < Pow2(ExtraBits(0, 0, sp.code))
  }

  ghost function CommandBits(sp: Spelling, lits: seq<Byte>): (b: BitString)
    requires FieldsFit(sp)
    ensures |b| == INS_BITS[sp.i] + COPY_BITS[sp.j] + 8 * |lits| + ExtraBits(0, 0, sp.code)
  {
    Low(sp.x, INS_BITS[sp.i])
    + (Low(sp.y, COPY_BITS[sp.j]) + (LiteralBits(lits) + Low(sp.e, ExtraBits(0, 0, sp.code))))
  }

  lemma FourParts(data: seq<Byte>, p: nat, a: BitString, b: BitString, c: BitString, d: BitString)
    requires BitsAt(data, p, a + (b + (c + d)))
    ensures BitsAt(data, p, a) && BitsAt(data, p + |a|, b) && BitsAt(data, p + |a| + |b|, c)
    ensures BitsAt(data, p + |a| + |b| + |c|, d)
  {
    hide BitsAt;
    BitsParts(data, p, a, b + (c + d));
    BitsParts(data, p + |a|, b, c + d);
    BitsParts(data, p + |a| + |b|, c, d);
  }

  lemma ThreeNumbers(data: seq<Byte>, p: nat, x: nat, m: nat, y: nat, n: nat, b: BitString, e: nat, k: nat)
    requires x < Pow2(m) && y < Pow2(n) && e < Pow2(k)
    requires BitsAt(data, p, Low(x, m) + (Low(y, n) + (b + Low(e, k))))
    ensures p + m + n + |b| + k <= 8 * |data|
    ensures Value(data, p, m) == x && Value(data, p + m, n) == y && BitsAt(data, p + m + n, b)
    ensures Value(data, p + m + n + |b|, k) == e
  {
    hide Value, Low, BitsAt, Pow2;
    FourParts(data, p, Low(x, m), Low(y, n), b, Low(e, k));
    LowBack(data, p, x, m);
    LowBack(data, p + m, y, n);
    LowBack(data, p + m + n + |b|, e, k);
  }

  lemma CommandParts(sp: Spelling, lits: seq<Byte>, data: seq<Byte>, p: nat, m: nat, n: nat, k: nat)
    requires FieldsFit(sp) && m == INS_BITS[sp.i] && n == COPY_BITS[sp.j] && k == ExtraBits(0, 0, sp.code)
    requires BitsAt(data, p, CommandBits(sp, lits))
    ensures p + m + n + 8 * |lits| + k <= 8 * |data|
    ensures Value(data, p, m) == sp.x && Value(data, p + m, n) == sp.y
    ensures BitsAt(data, p + m + n, LiteralBits(lits)) && Value(data, p + m + n + 8 * |lits|, k) == sp.e
  {
    hide Value, Low, BitsAt, LiteralBits, ExtraBits, Pow2, CommandBits;
    CommandBitsAre(sp, lits, m, n, k);
    ThreeNumbers(data, p, sp.x, m, sp.y, n, LiteralBits(lits), sp.e, k);
  }

  lemma CommandBitsAre(sp: Spelling, lits: seq<Byte>, m: nat, n: nat, k: nat)
    requires FieldsFit(sp) && m == INS_BITS[sp.i] && n == COPY_BITS[sp.j] && k == ExtraBits(0, 0, sp.code)
    ensures sp.x < Pow2(m) && sp.y < Pow2(n) && sp.e < Pow2(k)
    ensures CommandBits(sp, lits) == Low(sp.x, m) + (Low(sp.y, n) + (LiteralBits(lits) + Low(sp.e, k)))
  {
    hide Low, LiteralBits, ExtraBits, Pow2;
  }

  /** A category after k of its symbols. */
  ghost function Used(k: nat): Blocks
    requires k <= NO_BLOCKS
  {
    OneType().(count := NO_BLOCKS - k)
  }

  lemma LoneSymbol(s: nat, data: seq<Byte>, p: nat)
    ensures Symbol(Lone(s), data, p) == Done(s, p)
  {
    SymbolIs(Lone(s), data, p, s, p);
  }

  lemma OpenIs(h: Head<Table>, cmd: nat, code: nat, sp: Spelling, i: Blocks, data: seq<Byte>, p: nat)
    requires FieldsFit(sp) && cmd == CommandOf(sp.i, sp.j) && h == OneHead(cmd, code) && i == Used(1) && code < 64
    requires var m, n := INS_BITS[sp.i], COPY_BITS[sp.j];
      p + m + n <= 8 * |data| && Value(data, p, m) == sp.x && Value(data, p + m, n) == sp.y
    ensures Sound(i) && AllComplete(h.icodes, COMMANDS)
    ensures BrotliCommands.Open(h, i, data, p) ==
      Done(Opening(cmd, INS_OFF[sp.i] + sp.x, COPY_OFF[sp.j] + sp.y), p + INS_BITS[sp.i] + COPY_BITS[sp.j])
  {
    hide Value, Symbol, InsertCode, CopyCode, CommandOf;
    PairHasCommand(sp.i, sp.j);
    LoneSymbol(cmd, data, p);
    OpensWith(h, i, data, p, cmd, sp.i, sp.j, p);
  }

  lemma ReachIs(h: Head<Table>, cmd: nat, sp: Spelling, s: State, o: Opening, data: seq<Byte>, p: nat)
    requires FieldsFit(sp) && sp.code < 64 && h == OneHead(cmd, sp.code) && Good(h, s) && s.d == Used(0)
    requires o.cmd >= IMPLICIT && o.copied >= 2
    requires p + ExtraBits(0, 0, sp.code) <= 8 * |data| && Value(data, p, ExtraBits(0, 0, sp.code)) == sp.e
    ensures ReachOf(h, s, o, data, p) ==
      Done((Used(1), Reach(sp.code, Distance(0, 0, sp.code, sp.e))), p + ExtraBits(0, 0, sp.code))
  {
    hide Value, Symbol, Next, Complete, ExtraBits, Distance;
    Going(s.d, data, p);
    NextSound(s.d, data, p);
    assert DistanceCode(h, 0, o.copied) == Lone(sp.code);
    LoneSymbol(sp.code, data, p);
  }

  /** What is needed of the command and of the text it makes. */
  ghost predicate Fitting(sp: Spelling, lits: seq<Byte>, copied: nat, d: nat) {
    Spells(sp, |lits|, copied, d) && copied >= 2 && 1 <= d <= |lits| && d <= 65520 && |lits| + copied <= 65536
  }

  /** A command is what its parts are. */
  lemma CommandOfParts(f: Fixed, h: Head<Table>, s: State, maxback: nat, end: nat, data: seq<Byte>, p: nat,
                       i: Blocks, p1: nat, o: Opening, p2: nat, s2: State, p3: nat, d: Blocks, r: Reach, p4: nat,
                       t: State)
    requires Good(h, s) && p <= 8 * |data| && |s.out| < end && Next(s.i, data, p) == Done(i, p1)
    requires Sound(i) && i.n == s.i.n && Good(h, s.(i := i)) && p1 <= 8 * |data|
    requires AllComplete(h.icodes, COMMANDS) && |h.icodes| == i.n
    requires BrotliCommands.Open(h, i, data, p1) == Done(o, p2) && p2 <= 8 * |data| && o.copied >= 2
    requires Literals(f, h, s.(i := i), o.inserted, end, data, p2) == Done(s2, p3) && p3 <= 8 * |data| && Good(h, s2)
    requires |s2.out| < end && ReachOf(h, s2, o, data, p3) == Done((d, r), p4) && r.d >= 1
    requires Copying(f, s2.(d := d), r, o.copied, maxback, end) == Some(t)
    ensures Command(f, h, s, maxback, end, data, p) == Done(t, p4)
  {
    hide Next, BrotliCommands.Open, Literals, ReachOf, Copying, Good, Sound, AllComplete;
  }

  lemma CopyIs(f: Fixed, s: State, r: Reach, copied: nat, end: nat)
    requires 1 <= r.d <= |s.out| && r.d <= 65520 && |s.out| + copied <= end && r.code > 0
    ensures Copying(f, s, r, copied, 65520, end) ==
      Some(s.(past := s.past + [r.d], out := Copied(s.out, r.d, copied)))
  {
    hide Copied;
  }

  lemma GoodUsed(h: Head<Table>, s: State, i: Blocks, l: Blocks, out: seq<Byte>)
    requires Good(h, s) && i.n == s.i.n && l.n == s.l.n && Sound(i) && Sound(l)
    ensures Good(h, s.(i := i, l := l, out := out)) && AllComplete(h.icodes, COMMANDS) && |h.icodes| == s.i.n
  {
    hide Sound;
  }

  lemma CommandIs(f: Fixed, h: Head<Table>, sp: Spelling, lits: seq<Byte>, copied: nat, d: nat, s: State,
                  data: seq<Byte>, p: nat)
    requires Fitting(sp, lits, copied, d) && h == OneHead(CommandOf(sp.i, sp.j), sp.code) && Good(h, s)
    requires s == State(Used(0), Used(0), Used(0), s.past, []) && p <= 8 * |data|
    requires BitsAt(data, p, CommandBits(sp, lits))
    ensures Command(f, h, s, 65520, |lits| + copied, data, p) ==
      Done(State(Used(|lits|), Used(1), Used(1), s.past + [d], Copied(lits, d, copied)),
           p + |CommandBits(sp, lits)|)
  {
    hide Value, Next, BrotliCommands.Open, Literals, ReachOf, BitsAt, LiteralBits, ExtraBits, Distance, Copied,
      CommandOf, Sound, Good, Used, Copying, Command, OneHead, AllComplete, CommandBits;
    var cmd := CommandOf(sp.i, sp.j);
    var o := Opening(cmd, |lits|, copied);
    var k, p2 := ExtraBits(0, 0, sp.code), p + INS_BITS[sp.i] + COPY_BITS[sp.j];
    var p3 := p2 + 8 * |lits|;
    CommandParts(sp, lits, data, p, INS_BITS[sp.i], COPY_BITS[sp.j], k);
    FirstUse(data, p);
    UsedFacts(|lits|);
    GoodUsed(h, s, Used(1), Used(0), []);
    var s1 := s.(i := Used(1));
    OpenIs(h, cmd, sp.code, sp, Used(1), data, p);
    GoodUsed(h, s, Used(1), Used(|lits|), lits);
    LiteralsAre(f, h, cmd, sp.code, s1, lits, |lits| + copied, data, p2);
    assert [] + lits == lits;
    var s2 := s1.(l := Used(|lits|), out := lits);
    ReachIs(h, cmd, sp, s2, o, data, p3);
    CopyIs(f, s2.(d := Used(1)), Reach(sp.code, d), copied, |lits| + copied);
    CommandOfParts(f, h, s, 65520, |lits| + copied, data, p, Used(1), p, o, p2, s2, p3, Used(1),
                   Reach(sp.code, d), p3 + k,
                   State(Used(|lits|), Used(1), Used(1), s.past + [d], Copied(lits, d, copied)));
  }

  lemma FirstUse(data: seq<Byte>, p: nat)
    requires p <= 8 * |data|
    ensures Sound(Used(0)) && Sound(Used(1)) && Next(Used(0), data, p) == Done(Used(1), p)
  {
  }

  lemma UsedFacts(k: nat)
    requires k <= NO_BLOCKS
    ensures Used(0).n == Used(1).n == Used(k).n == 1 && Sound(Used(k))
    ensures Used(0).count >= k && Used(0).(count := Used(0).count - k) == Used(k)
  {
  }

  // ------------------------------------------------------------------- the stream

  /** A window of 2^16 bytes, the last meta-block, its size in four digits, and zeros: one block type
      each, no direct distances, context mode 0 and one code for each map. */
  ghost function StartBits(n: nat): (b: BitString)
    requires n >= 1
    ensures |b| == 34
  {
    Low(2, 5) + (Low(n - 1, 16) + Low(0, 13))
  }

  ghost function StreamBits(sp: Spelling, lits: seq<Byte>, n: nat): (b: BitString)
    requires FieldsFit(sp) && sp.code < 64 && 1 <= n
    ensures |b| == 96 + |CommandBits(sp, lits)|
  {
    StartBits(n) + (CodesBits(CommandOf(sp.i, sp.j), sp.code) + CommandBits(sp, lits))
  }

  lemma StreamPowers()
    ensures Pow2(1) == 2 && Pow2(2) == 4 && Pow2(3) == 8 && Pow2(5) == 32 && Pow2(13) == 8192 && Pow2(16) == 65536
  {
    assert Pow2(8) == 256 && Pow2(12) == 4096;
  }

  lemma StartParts(n: nat, data: seq<Byte>)
    requires 1 <= n <= 65536 && BitsAt(data, 0, StartBits(n))
    ensures 34 <= 8 * |data| && Value(data, 0, 5) == 2 && Value(data, 5, 16) == n - 1 && Value(data, 21, 13) == 0
  {
    hide Value, Low, BitsAt, Pow2;
    StreamPowers();
    BitsParts(data, 0, Low(2, 5), Low(n - 1, 16) + Low(0, 13));
    BitsParts(data, 5, Low(n - 1, 16), Low(0, 13));
    LowBack(data, 0, 2, 5);
    LowBack(data, 5, n - 1, 16);
    LowBack(data, 21, 0, 13);
  }

  lemma StreamParts(sp: Spelling, lits: seq<Byte>, n: nat, data: seq<Byte>)
    requires FieldsFit(sp) && sp.code < 64 && 1 <= n <= 65536 && BitsAt(data, 0, StreamBits(sp, lits, n))
    ensures 96 <= 8 * |data| && Value(data, 0, 5) == 2 && Value(data, 5, 16) == n - 1 && Value(data, 21, 13) == 0
    ensures BitsAt(data, 34, CodesBits(CommandOf(sp.i, sp.j), sp.code)) && BitsAt(data, 96, CommandBits(sp, lits))
  {
    hide Value, BitsAt, CodesBits, CommandBits, CommandOf, StartBits;
    var codes, command := CodesBits(CommandOf(sp.i, sp.j), sp.code), CommandBits(sp, lits);
    BitsParts(data, 0, StartBits(n), codes + command);
    BitsParts(data, 34, codes, command);
    StartParts(n, data);
    InInput(data, 34, codes);
  }

  lemma InInput(data: seq<Byte>, p: nat, b: BitString)
    requires BitsAt(data, p, b)
    ensures p + |b| <= 8 * |data|
  {
  }

  /** What the first bits say. */
  lemma StartIs(data: seq<Byte>, n: nat)
    requires 21 <= 8 * |data| && 1 <= n <= 65536 && Value(data, 0, 5) == 2 && Value(data, 5, 16) == n - 1
    ensures WindowBits(data, 0) == Done(16, 1) && Kind(data, 1) == Done((true, false), 3)
    ensures Value(data, 3, 2) == 0 && Digits(data, 5, 4, 4, 4) == Done(n - 1, 21)
  {
    hide Value, Pow2;
    StreamPowers();
    BrotliStored.Field(data, 0, 1, 4);
    BrotliStored.Field(data, 1, 1, 3);
    BrotliStored.Field(data, 2, 1, 2);
    BrotliStored.Field(data, 3, 2, 0);
  }

  lemma StartGood(data: seq<Byte>, p: nat, cmd: nat, code: nat, past: seq<nat>)
    requires p <= 8 * |data| && HeadAt(data, p, 1, 1, 1) == Done(OneHead(cmd, code), p + 72) && Recorded(past)
    ensures OneType() == Used(0) && Good(OneHead(cmd, code), State(OneType(), OneType(), OneType(), past, []))
  {
    hide HeadAt;
    HeadFits(data, p, 1, 1, 1);
  }

  /** The meta-block has what the command makes. */
  lemma CodedBlock(f: Fixed, limit: nat, sp: Spelling, lits: seq<Byte>, copied: nat, d: nat, data: seq<Byte>)
    requires Fitting(sp, lits, copied, d) && |lits| + copied <= limit && FieldsFit(sp) && sp.code < 64
    requires BitsAt(data, 0, StreamBits(sp, lits, |lits| + copied))
    ensures Recorded(START.past)
    ensures WindowBits(data, 0) == Done(16, 1)
    ensures MetaBlock(f, 65520, limit, START, data, 1) ==
      Done(Text(true, START.past + [d], Copied(lits, d, copied)), 96 + |CommandBits(sp, lits)|)
  {
    hide Value, BitsAt, Command, Commands, HeadAt, Starts, Digits, Kind, CommandBits, CodesBits, StreamBits, Copied,
      CommandOf, OneHead, Good, WindowBits, Spells;
    FieldsOf(sp, |lits|, copied, d);
    var n, h := |lits| + copied, OneHead(CommandOf(sp.i, sp.j), sp.code);
    StreamParts(sp, lits, n, data);
    StartIs(data, n);
    ZerosSplit(data, 21, 1, 12);
    ZerosSplit(data, 22, 1, 11);
    ZerosSplit(data, 23, 1, 10);
    ZeroStarts(data, 21);
    HeadIs(data, 24, CommandOf(sp.i, sp.j), sp.code);
    StartGood(data, 24, CommandOf(sp.i, sp.j), sp.code, START.past);
    var s := State(Used(0), Used(0), Used(0), START.past, []);
    var q := 96 + |CommandBits(sp, lits)|;
    var t := State(Used(|lits|), Used(1), Used(1), START.past + [d], Copied(lits, d, copied));
    CommandIs(f, h, sp, lits, copied, d, s, data, 96);
    OneCommand(f, h, s, n, data, 96, t, q);
    CompressedIs(f, n, data, 21, h, t, q);
    BlockIs(f, limit, n, data, t, q);
  }

  lemma FieldsOf(sp: Spelling, inserted: nat, copied: nat, d: nat)
    requires Spells(sp, inserted, copied, d)
    ensures FieldsFit(sp) && sp.code < 64 && CommandOf(sp.i, sp.j) < 704
  {
    hide Distance, ExtraBits;
  }

  lemma OneCommand(f: Fixed, h: Head<Table>, s: State, n: nat, data: seq<Byte>, p: nat, t: State, q: nat)
    requires Good(h, s) && p <= 8 * |data| && |s.out| < n && Command(f, h, s, 65520, n, data, p) == Done(t, q)
    requires |t.out| == n
    ensures Commands(f, h, s, 65520, n, data, p) == Done(t, q)
  {
    hide Command, Good;
    CommandGood(f, h, s, 65520, n, data, p);
  }

  lemma CompressedIs(f: Fixed, n: nat, data: seq<Byte>, p: nat, h: Head<Table>, t: State, q: nat)
    requires Recorded(START.past) && p <= 8 * |data| && p + 3 <= 8 * |data| && n >= 1
    requires Starts(data, p) == Done(Three(OneType(), OneType(), OneType()), p + 3)
    requires HeadAt(data, p + 3, 1, 1, 1) == Done(h, p + 75) && p + 75 <= 8 * |data|
    requires Good(h, State(OneType(), OneType(), OneType(), START.past, []))
    requires Commands(f, h, State(OneType(), OneType(), OneType(), START.past, []), 65520, n, data, p + 75)
      == Done(t, q)
    ensures Compressed(f, 65520, START.(last := true), n, data, p) ==
      Done(START.(last := true, past := t.past, out := t.out), q)
  {
    hide Starts, HeadAt, Commands, Good;
    HeadFits(data, p + 3, 1, 1, 1);
  }

  lemma BlockIs(f: Fixed, limit: nat, n: nat, data: seq<Byte>, t: State, q: nat)
    requires Recorded(START.past) && 21 <= 8 * |data| && 1 <= n <= limit
    requires Kind(data, 1) == Done((true, false), 3) && Value(data, 3, 2) == 0
    requires Digits(data, 5, 4, 4, 4) == Done(n - 1, 21)
    requires Compressed(f, 65520, START.(last := true), n, data, 21) ==
      Done(START.(last := true, past := t.past, out := t.out), q)
    ensures MetaBlock(f, 65520, limit, START, data, 1) == Done(Text(true, t.past, t.out), q)
  {
    hide Value, Kind, Digits, Compressed;
  }

  // --------------------------------------------------------------- whole bytes

  ghost function Padding(n: nat): (b: BitString)
    ensures |b| < 8 && (n + |b|) % 8 == 0 && forall i :: 0 <= i < |b| ==> b[i] == 0
  {
    seq((8 - n % 8) % 8, _ => 0)
  }

  ghost function Padded(b: BitString): (r: seq<Byte>)
    ensures 8 * |r| == |b| + |Padding(|b|)|
  {
    PutBits(b + Padding(|b|))
  }

  lemma {:induction false} ZerosAre(data: seq<Byte>, p: nat, pad: BitString, k: nat)
    requires BitsAt(data, p, pad) && k <= |pad| && forall i :: 0 <= i < |pad| ==> pad[i] == 0
    ensures p + |pad| <= 8 * |data| && Value(data, p, k) == 0
  {
    hide Bit, Value;
    if k > 0 {
      ZerosAre(data, p, pad, k - 1);
      assert pad[k - 1] == Bit(data, p + (k - 1));
      NextBit(data, p, k - 1);
    } else {
      NoBits(data, p);
    }
  }

  /** The bits are there, and after them only the zeros that fill up the last byte. */
  lemma PaddedEnds(b: BitString)
    ensures BitsAt(Padded(b), 0, b) && Aligned(Padded(b), |b|) == Some(8 * |Padded(b)|)
  {
    hide Value, Bit, Pow2, PutBits, BitsAt, Padding;
    var data, pad, k, m := Padded(b), Padding(|b|), |b| / 8, |b| % 8;
    BytesBack(b + pad);
    BitsParts(data, 0, b, pad);
    if m != 0 {
      assert |pad| == 8 - m && k + 1 == |data|;
      ZerosAre(data, |b|, pad, |pad|);
      BrotliStored.ByteIs(data, k);
      BrotliStored.Field(data, 8 * k, m, 8 - m);
    } else {
      assert |pad| == 0;
    }
  }

  /** Any literals, and any copy from within them, have a compressed stream that decodes to the
      literals with the copy after them. */
  lemma CodedDecodes(f: Fixed, limit: nat, lits: seq<Byte>, copied: nat, d: nat) returns (data: seq<Byte>)
    requires 1 <= d <= |lits| && d <= 65520 && copied >= 2 && |lits| + copied <= 65536 && |lits| + copied <= limit
    ensures Output(f, limit, data) == Some(Copied(lits, d, copied))
  {
    hide MetaBlock, MetaBlocks, WindowBits, Aligned, BitsAt, StreamBits, CommandBits, Padded, Copied, Spells;
    var sp := SpellingFor(|lits|, copied, d);
    FieldsOf(sp, |lits|, copied, d);
    var b := StreamBits(sp, lits, |lits| + copied);
    data := Padded(b);
    PaddedEnds(b);
    InInput(data, 0, b);
    CodedBlock(f, limit, sp, lits, copied, d, data);
    StreamPowers();
    var y := Text(true, START.past + [d], Copied(lits, d, copied));
    BrotliStored.NextMetaBlock(f, 65520, limit, START, data, 1, y, |b|);
  }
}
