/** Whole streams (section 9 of RFC 7932): the window, meta-blocks of each kind, and the end. */
module BrotliStream {
  import opened Wrappers
  import opened BrotliBits
  import opened BrotliCode
  import opened BrotliParse
  import opened BrotliBlocks
  import opened BrotliDistance
  import opened BrotliCopy
  import opened BrotliCommands

  // --------------------------------------------------------- numbers of several parts

  /** k digits of w bits each, the first lowest; none when there is more than the least number
      of digits and the last digit is 0. */
  ghost function Digits(data: seq<Byte>, p: nat, w: nat, k: nat, least: nat): Parsed<nat> {
    if p + w * k > 8 * |data| then Damaged
    else if k > least && k >= 1 && LastDigit(data, p, w, k) == 0 then Damaged
    else Done(Value(data, p, w * k), p + w * k)
  }

  ghost function LastDigit(data: seq<Byte>, p: nat, w: nat, k: nat): nat
    requires p + w * k <= 8 * |data| && k >= 1
  {
    LessBits(w, k);
    Value(data, p + w * (k - 1), w)
  }

  lemma LessBits(w: nat, k: nat)
    requires k >= 1
    ensures w * (k - 1) + w == w * k && w * (k - 1) >= 0
  {
  }

  lemma Less(w: nat, j: nat, k: nat)
    requires j <= k
    ensures w * j <= w * k
  {
  }

  method ReadDigits(b: Bits, w: nat, k: nat, least: nat) returns (r: Option<nat>)
    requires b.Valid() && k <= 6 && w <= 8
    modifies b
    ensures b.Valid() && old(b.At()) <= b.At()
    ensures Agrees(r, b.At(), Digits(b.data, old(b.At()), w, k, least))
  {
    hide Value, Pow2;
    ghost var data, p := b.data, b.At();
    var v: nat := 0;
    NoBits(data, p);
    for i := 0 to k
      invariant b.Valid() && b.At() == p + w * i && v == Value(data, p, w * i)
      invariant i == k && k > least && k >= 1 ==> LastDigit(data, p, w, k) != 0
    {
      LessBits(w, i + 1);
      Less(w, i + 1, k);
      var x := b.Read(w);
      if x.None? {
        return None;
      }
      if i + 1 == k && k > least && x.value == 0 {
        return None;
      }
      ValueParts(data, p, w * i, w);
      v := v + x.value * Pow2(w * i);
    }
    r := Some(v);
  }

  // ------------------------------------------------------------------- the window

  ghost function WindowBits(data: seq<Byte>, p: nat): Parsed<nat> {
    match Number(data, p, 1)
    case Damaged => Damaged
    case Done(more, p1) =>
      if more == 0 then Done(16, p1)
      else
        match Number(data, p1, 3)
        case Damaged => Damaged
        case Done(n, p2) =>
          if n > 0 then Done(17 + n, p2)
          else
            match Number(data, p2, 3)
            case Damaged => Damaged
            case Done(m, p3) => if m == 1 then Damaged else Done(if m > 0 then 8 + m else 17, p3)
  }

  lemma WindowBitsRange(data: seq<Byte>, p: nat)
    ensures var w := WindowBits(data, p); w.Done? ==> 10 <= w.value <= 24 && p < w.at <= 8 * |data|
  {
    hide Value;
    assert Pow2(3) == 8;
  }

  method ReadWindow(b: Bits) returns (r: Option<nat>)
    requires b.Valid()
    modifies b
    ensures b.Valid() && old(b.At()) <= b.At()
    ensures Agrees(r, b.At(), WindowBits(b.data, old(b.At())))
  {
    hide Value;
    var more := b.Read(1);
    if more.None? {
      return None;
    }
    if more.value == 0 {
      return Some(16);
    }
    var n := b.Read(3);
    if n.None? {
      return None;
    }
    if n.value > 0 {
      return Some(17 + n.value);
    }
    var m := b.Read(3);
    if m.None? || m.value == 1 {
      return None;
    }
    r := Some(if m.value > 0 then 8 + m.value else 17);
  }

  // ------------------------------------------------------- the head of a meta-block

  ghost function Modes(data: seq<Byte>, p: nat, k: nat): Parsed<seq<nat>> {
    if k == 0 then Done([], p)
    else
      match Modes(data, p, k - 1)
      case Damaged => Damaged
      case Done(ms, q) =>
        match Number(data, q, 2)
        case Damaged => Damaged
        case Done(m, e) => Done(ms + [m], e)
  }

  lemma {:induction false} ModesGood(data: seq<Byte>, p: nat, k: nat)
    requires p <= 8 * |data|
    ensures var x := Modes(data, p, k);
      Forth(data, p, x) && (x.Done? ==> |x.value| == k && forall j :: 0 <= j < k ==> x.value[j] < 4)
  {
    hide Value;
    assert Pow2(2) == 4;
    if k > 0 {
      ModesGood(data, p, k - 1);
    }
  }

  lemma {:induction false} ModesStayDamaged(data: seq<Byte>, p: nat, j: nat, k: nat)
    requires j <= k && Modes(data, p, j).Damaged?
    ensures Modes(data, p, k).Damaged?
    decreases k
  {
    hide Number;
    if j < k {
      ModesStayDamaged(data, p, j, k - 1);
    }
  }

  method ReadModes(b: Bits, k: nat) returns (r: Option<seq<nat>>)
    requires b.Valid()
    modifies b
    ensures b.Valid() && old(b.At()) <= b.At()
    ensures Agrees(r, b.At(), Modes(b.data, old(b.At()), k))
  {
    hide Value;
    var ms: seq<nat> := [];
    ghost var data, p := b.data, b.At();
    for i := 0 to k
      invariant b.Valid() && p <= b.At() && Modes(data, p, i) == Done(ms, b.At())
    {
      var m := b.Read(2);
      if m.None? {
        ModesStayDamaged(data, p, i + 1, k);
        return None;
      }
      ms := ms + [m.value];
    }
    r := Some(ms);
  }

  /** The three categories. */
  datatype Three = Three(l: Blocks, i: Blocks, d: Blocks)

  ghost predicate AllSound(c: Three) { Sound(c.l) && Sound(c.i) && Sound(c.d) }

  ghost function Starts(data: seq<Byte>, p: nat): Parsed<Three>
    requires p <= 8 * |data|
  {
    StartSound(data, p);
    match Start(data, p)
    case Damaged => Damaged
    case Done(l, p1) =>
      StartSound(data, p1);
      match Start(data, p1)
      case Damaged => Damaged
      case Done(i, p2) =>
        match Start(data, p2)
        case Damaged => Damaged
        case Done(d, p3) => Done(Three(l, i, d), p3)
  }

  lemma StartsSound(data: seq<Byte>, p: nat)
    requires p <= 8 * |data|
    ensures Forth(data, p, Starts(data, p)) && (Starts(data, p).Done? ==> AllSound(Starts(data, p).value))
  {
    hide Start, Sound;
    StartSound(data, p);
    var x := Start(data, p);
    if x.Done? {
      StartSound(data, x.at);
      var y := Start(data, x.at);
      if y.Done? {
        StartSound(data, y.at);
      }
    }
  }

  /** A context map, with the number of its codes before it. */
  ghost function Mapped(data: seq<Byte>, p: nat, size: nat): Parsed<(nat, seq<Byte>)> {
    match Count(data, p)
    case Damaged => Damaged
    case Done(n, q) =>
      match ContextMap(data, q, size, n)
      case Damaged => Damaged
      case Done(m, e) => Done((n, m), e)
  }

  lemma MappedGood(data: seq<Byte>, p: nat, size: nat)
    ensures var x := Mapped(data, p, size);
      && Forth(data, p, x)
      && (x.Done? ==> 1 <= x.value.0 <= 256 && |x.value.1| == size
                      && forall k :: 0 <= k < size ==> x.value.1[k] < x.value.0)
  {
    hide Count, ContextMap;
    var x := Count(data, p);
    if x.Done? {
      ContextMapForth(data, x.at, size, x.value);
    }
  }

  method ReadMapped(b: Bits, size: nat) returns (r: Option<(nat, seq<Byte>)>)
    requires b.Valid()
    modifies b
    ensures b.Valid() && old(b.At()) <= b.At()
    ensures Agrees(r, b.At(), Mapped(b.data, old(b.At()), size))
  {
    hide Count, ContextMap;
    var n := ReadCount(b);
    if n.None? {
      return None;
    }
    var m := ReadMap(b, size, n.value);
    r := if m.Some? then Some((n.value, m.value)) else None;
  }

  /** The codes of the literals, the commands and the distances. */
  ghost function Codes(data: seq<Byte>, p: nat, l: nat, i: nat, d: nat, size: nat)
    : Parsed<(seq<Table>, seq<Table>, seq<Table>)>
    requires size >= 1
  {
    match Tables(data, p, 256, l)
    case Damaged => Damaged
    case Done(ls, p1) =>
      match Tables(data, p1, COMMANDS, i)
      case Damaged => Damaged
      case Done(cs, p2) =>
        match Tables(data, p2, size, d)
        case Damaged => Damaged
        case Done(ds, p3) => Done((ls, cs, ds), p3)
  }

  lemma CodesGood(data: seq<Byte>, p: nat, l: nat, i: nat, d: nat, size: nat)
    requires p <= 8 * |data| && size >= 1
    ensures var x := Codes(data, p, l, i, d, size);
      && Forth(data, p, x)
      && (x.Done? ==> |x.value.0| == l && |x.value.1| == i && |x.value.2| == d
                      && AllComplete(x.value.0, 256) && AllComplete(x.value.1, COMMANDS)
                      && AllComplete(x.value.2, size))
  {
    hide Tables, Complete, AllComplete;
    TablesForth(data, p, 256, l);
    var x := Tables(data, p, 256, l);
    if x.Done? {
      TablesForth(data, x.at, COMMANDS, i);
      var y := Tables(data, x.at, COMMANDS, i);
      if y.Done? {
        TablesForth(data, y.at, size, d);
      }
    }
  }

  /** The head of a meta-block after its categories. */
  ghost function HeadAt(data: seq<Byte>, p: nat, l: nat, i: nat, d: nat): Parsed<Head<Table>> {
    match Number(data, p, 2)
    case Damaged => Damaged
    case Done(npostfix, p1) =>
      match Number(data, p1, 4)
      case Damaged => Damaged
      case Done(n, p2) =>
        var ndirect := Times(n, Pow2(npostfix));
        match Modes(data, p2, l)
        case Damaged => Damaged
        case Done(modes, p3) =>
          match Mapped(data, p3, 64 * l)
          case Damaged => Damaged
          case Done(ml, p4) =>
            match Mapped(data, p4, 4 * d)
            case Damaged => Damaged
            case Done(md, p5) =>
              match Codes(data, p5, ml.0, i, md.0, AlphabetSize(npostfix, ndirect))
              case Damaged => Damaged
              case Done(c, p6) => Done(Head(npostfix, ndirect, modes, ml.1, md.1, c.0, c.1, c.2), p6)
  }

  lemma HeadFits(data: seq<Byte>, p: nat, l: nat, i: nat, d: nat)
    requires p <= 8 * |data|
    ensures var x := HeadAt(data, p, l, i, d); Forth(data, p, x) && (x.Done? ==> Fits(x.value, l, i, d))
  {
    hide Value, Modes, Mapped, Codes, Pow2, Times, AllComplete;
    var x := Number(data, p, 2);
    if x.Done? && Number(data, x.at, 4).Done? {
      var y := Number(data, x.at, 4);
      ModesGood(data, y.at, l);
      var m := Modes(data, y.at, l);
      if m.Done? {
        MappedGood(data, m.at, 64 * l);
        var ml := Mapped(data, m.at, 64 * l);
        if ml.Done? {
          MappedGood(data, ml.at, 4 * d);
          var md := Mapped(data, ml.at, 4 * d);
          if md.Done? {
            CodesGood(data, md.at, ml.value.0, i, md.value.0, AlphabetSize(x.value, Times(y.value, Pow2(x.value))));
          }
        }
      }
    }
  }

  method ReadHead(b: Bits, l: nat, i: nat, d: nat) returns (r: Option<Head<Code>>, ghost t: Option<Head<Table>>)
    requires b.Valid()
    modifies b
    ensures b.Valid() && old(b.At()) <= b.At() && r.Some? == t.Some?
    ensures Agrees(t, b.At(), HeadAt(b.data, old(b.At()), l, i, d))
    ensures r.Some? ==> HeadRepresents(r.value, t.value)
  {
    hide Value, Modes, Mapped, Tables, Pow2, Times, AllRepresent;
    r, t := None, None;
    var npostfix := ReadNumber(b, 2);
    if npostfix.None? {
      return;
    }
    var n := ReadNumber(b, 4);
    if n.None? {
      return;
    }
    var ndirect := Times(n.value, Pow2(npostfix.value));
    var modes := ReadModes(b, l);
    if modes.None? {
      return;
    }
    var ml := ReadMapped(b, 64 * l);
    if ml.None? {
      return;
    }
    var md := ReadMapped(b, 4 * d);
    if md.None? {
      return;
    }
    var size := AlphabetSize(npostfix.value, ndirect);
    ghost var ls, cs, ds;
    var lcodes, icodes, dcodes;
    lcodes, ls := ReadTables(b, 256, ml.value.0);
    if lcodes.None? {
      return;
    }
    icodes, cs := ReadTables(b, COMMANDS, i);
    if icodes.None? {
      return;
    }
    dcodes, ds := ReadTables(b, size, md.value.0);
    if dcodes.None? {
      return;
    }
    r := Some(Head(npostfix.value, ndirect, modes.value, ml.value.1, md.value.1, lcodes.value, icodes.value,
      dcodes.value));
    t := Some(Head(npostfix.value, ndirect, modes.value, ml.value.1, md.value.1, ls, cs, ds));
  }

  // ------------------------------------------------------------------- meta-blocks

  /** The next whole byte; none when the bits before it are not zero. */
  ghost function Aligned(data: seq<Byte>, p: nat): (r: Option<nat>)
    requires p <= 8 * |data|
    ensures r.Some? ==> p <= r.value <= 8 * |data| && r.value % 8 == 0
  {
    if p % 8 == 0 then Some(p)
    else if data[p / 8] / Pow2(p % 8) == 0 then Some(8 * (p / 8) + 8) else None
  }

  method ReadAlign(b: Bits) returns (ok: bool)
    requires b.Valid()
    modifies b
    ensures b.Valid() && b.bit == 0 && old(b.At()) <= b.At()
    ensures Aligned(b.data, old(b.At())) == if ok then Some(b.At()) else None
  {
    hide Pow2;
    AtParts(b.pos, b.bit);
    ok := b.Align();
  }

  lemma AtParts(pos: nat, bit: nat)
    requires bit < 8
    ensures (8 * pos + bit) / 8 == pos && (8 * pos + bit) % 8 == bit
  {
  }

  /** What is between meta-blocks: the distances so far and the output; and whether the last
      meta-block has been. */
  datatype Text = Text(last: bool, past: seq<nat>, out: seq<Byte>)

  /** Metadata is skipped. */
  ghost function Metadata(x: Text, data: seq<Byte>, p: nat): Parsed<Text> {
    match Number(data, p, 1)
    case Damaged => Damaged
    case Done(reserved, p1) =>
      if reserved != 0 then Damaged
      else
        match Number(data, p1, 2)
        case Damaged => Damaged
        case Done(k, p2) =>
          match Digits(data, p2, 8, k, 1)
          case Damaged => Damaged
          case Done(n, p3) =>
            var skip := if k > 0 then n + 1 else 0;
            match Aligned(data, p3)
            case None => Damaged
            case Some(q) => if q + 8 * skip > 8 * |data| then Damaged else Done(x, q + 8 * skip)
  }

  /** Bytes as they are. */
  ghost function Raw(x: Text, mlen: nat, data: seq<Byte>, p: nat): Parsed<Text>
    requires p <= 8 * |data|
  {
    match Aligned(data, p)
    case None => Damaged
    case Some(q) =>
      if q / 8 + mlen > |data| then Damaged
      else Done(x.(out := x.out + data[q / 8..q / 8 + mlen]), q + 8 * mlen)
  }

  /** Commands. */
  ghost function Compressed(f: Fixed, maxback: nat, x: Text, mlen: nat, data: seq<Byte>, p: nat): Parsed<Text>
    requires p <= 8 * |data| && Recorded(x.past)
  {
    StartsSound(data, p);
    match Starts(data, p)
    case Damaged => Damaged
    case Done(c, p1) =>
      HeadFits(data, p1, c.l.n, c.i.n, c.d.n);
      match HeadAt(data, p1, c.l.n, c.i.n, c.d.n)
      case Damaged => Damaged
      case Done(h, p2) =>
        match Commands(f, h, State(c.l, c.i, c.d, x.past, x.out), maxback, |x.out| + mlen, data, p2)
        case Damaged => Damaged
        case Done(s, q) => Done(x.(past := s.past, out := s.out), q)
  }

  /** A meta-block with mlen bytes of data. */
  ghost function Data(f: Fixed, maxback: nat, limit: nat, x: Text, mlen: nat, data: seq<Byte>, p: nat): Parsed<Text>
    requires p <= 8 * |data| && Recorded(x.past)
  {
    if |x.out| + mlen > limit then Damaged
    else if x.last then Compressed(f, maxback, x, mlen, data, p)
    else
      match Number(data, p, 1)
      case Damaged => Damaged
      case Done(raw, q) => if raw == 1 then Raw(x, mlen, data, q) else Compressed(f, maxback, x, mlen, data, q)
  }

  /** Where a meta-block goes on after the bits that say whether it is the last, and is empty. */
  ghost function Kind(data: seq<Byte>, p: nat): Parsed<(bool, bool)> {
    match Number(data, p, 1)
    case Damaged => Damaged
    case Done(last, p1) =>
      if last == 0 then Done((false, false), p1)
      else
        match Number(data, p1, 1)
        case Damaged => Damaged
        case Done(empty, p2) => Done((true, empty == 1), p2)
  }

  /** The number of bytes of data that the meta-block at p announces. */
  ghost function Announced(data: seq<Byte>, p: nat): nat {
    match Kind(data, p)
    case Damaged => 0
    case Done(k, p1) =>
      if k.1 then 0
      else
        match Number(data, p1, 2)
        case Damaged => 0
        case Done(n, p2) =>
          if n == 3 then 0
          else
            match Digits(data, p2, 4, n + 4, 4)
            case Damaged => 0
            case Done(m, _) => m + 1
  }

  ghost function MetaBlock(f: Fixed, maxback: nat, limit: nat, x: Text, data: seq<Byte>, p: nat): Parsed<Text>
    requires Recorded(x.past)
  {
    match Kind(data, p)
    case Damaged => Damaged
    case Done(k, p1) =>
      var y := x.(last := k.0);
      if k.1 then Done(y, p1)
      else
        match Number(data, p1, 2)
        case Damaged => Damaged
        case Done(n, p2) =>
          if n == 3 then Metadata(y, data, p2)
          else
            match Digits(data, p2, 4, n + 4, 4)
            case Damaged => Damaged
            case Done(m, p3) => Data(f, maxback, limit, y, m + 1, data, p3)
  }

  lemma MetadataGood(x: Text, data: seq<Byte>, p: nat)
    ensures var y := Metadata(x, data, p); Forth(data, p, y) && (y.Done? ==> y.value == x)
  {
    hide Value, Pow2, LastDigit;
  }

  lemma RawGood(x: Text, mlen: nat, data: seq<Byte>, p: nat)
    requires p <= 8 * |data|
    ensures var y := Raw(x, mlen, data, p);
      && Forth(data, p, y)
      && (y.Done? ==> y.value == x.(out := y.value.out)
                      && |y.value.out| == |x.out| + mlen && x.out <= y.value.out)
  {
    hide Pow2;
  }

  lemma CompressedGood(f: Fixed, maxback: nat, x: Text, mlen: nat, data: seq<Byte>, p: nat)
    requires p <= 8 * |data| && Recorded(x.past)
    ensures var y := Compressed(f, maxback, x, mlen, data, p);
      && Forth(data, p, y)
      && (y.Done? ==> y.value.last == x.last && Recorded(y.value.past)
                      && |y.value.out| == |x.out| + mlen && x.out <= y.value.out)
  {
    hide Starts, HeadAt, Commands, Sound, Fits, Recorded;
    StartsSound(data, p);
    var c := Starts(data, p);
    if c.Done? {
      HeadFits(data, c.at, c.value.l.n, c.value.i.n, c.value.d.n);
      var h := HeadAt(data, c.at, c.value.l.n, c.value.i.n, c.value.d.n);
      if h.Done? {
        CommandsFill(f, h.value, State(c.value.l, c.value.i, c.value.d, x.past, x.out), maxback,
                     |x.out| + mlen, data, h.at);
      }
    }
  }

  lemma DataGood(f: Fixed, maxback: nat, limit: nat, x: Text, mlen: nat, data: seq<Byte>, p: nat)
    requires p <= 8 * |data| && Recorded(x.past)
    ensures var y := Data(f, maxback, limit, x, mlen, data, p);
      && Forth(data, p, y)
      && (y.Done? ==>
        && y.value.last == x.last && Recorded(y.value.past) && |y.value.out| == |x.out| + mlen <= limit
           && x.out <= y.value.out)
  {
    hide Compressed, Raw, Recorded, Value;
    CompressedGood(f, maxback, x, mlen, data, p);
    if p + 1 <= 8 * |data| {
      CompressedGood(f, maxback, x, mlen, data, p + 1);
      RawGood(x, mlen, data, p + 1);
    }
  }

  /** A meta-block adds exactly the bytes it announces, leaves those that were there, and does
      not go over the limit; and it takes up input. */
  lemma MetaBlockAdds(f: Fixed, maxback: nat, limit: nat, x: Text, data: seq<Byte>, p: nat)
    requires Recorded(x.past) && p <= 8 * |data|
    ensures var y := MetaBlock(f, maxback, limit, x, data, p);
      && Forth(data, p + 1, y)
      && (y.Done? ==>
        && Recorded(y.value.past) && x.out <= y.value.out && |y.value.out| == |x.out| + Announced(data, p)
        && (|x.out| <= limit ==> |y.value.out| <= limit))
  {
    hide Metadata, Data, Recorded, Value, LastDigit;
    var k := Kind(data, p);
    if k.Done? && !k.value.1 {
      var y := x.(last := k.value.0);
      if k.at + 2 <= 8 * |data| {
        var n := Value(data, k.at, 2);
        MetadataGood(y, data, k.at + 2);
        var m := Digits(data, k.at + 2, 4, n + 4, 4);
        if m.Done? {
          DataGood(f, maxback, limit, y, m.value + 1, data, m.at);
        }
      }
    }
  }

  // --------------------------------------------------------------------- the stream

  /** Meta-blocks up to the last. */
  ghost function MetaBlocks(f: Fixed, maxback: nat, limit: nat, x: Text, data: seq<Byte>, p: nat): Parsed<Text>
    requires Recorded(x.past) && p <= 8 * |data|
    decreases 8 * |data| - p
  {
    MetaBlockAdds(f, maxback, limit, x, data, p);
    match MetaBlock(f, maxback, limit, x, data, p)
    case Damaged => Damaged
    case Done(y, q) => if y.last then Done(y, q) else MetaBlocks(f, maxback, limit, y, data, q)
  }

  /** The bytes that all meta-blocks from p on announce, as far as they can be read. */
  ghost function AllAnnounced(f: Fixed, maxback: nat, limit: nat, x: Text, data: seq<Byte>, p: nat): nat
    requires Recorded(x.past) && p <= 8 * |data|
    decreases 8 * |data| - p
  {
    MetaBlockAdds(f, maxback, limit, x, data, p);
    match MetaBlock(f, maxback, limit, x, data, p)
    case Damaged => 0
    case Done(y, q) => Announced(data, p) + if y.last then 0 else AllAnnounced(f, maxback, limit, y, data, q)
  }

  /** The output of a stream that can be read is within the limit and has just the bytes its
      meta-blocks announce. */
  lemma {:induction false} MetaBlocksAdd(f: Fixed, maxback: nat, limit: nat, x: Text, data: seq<Byte>, p: nat)
    requires Recorded(x.past) && p <= 8 * |data| && |x.out| <= limit
    ensures var y := MetaBlocks(f, maxback, limit, x, data, p);
      && Forth(data, p + 1, y)
      && (y.Done? ==>
        x.out <= y.value.out && |y.value.out| == |x.out| + AllAnnounced(f, maxback, limit, x, data, p)
          && |y.value.out| <= limit)
    decreases 8 * |data| - p
  {
    hide MetaBlock, Recorded, Announced;
    MetaBlockAdds(f, maxback, limit, x, data, p);
    var y := MetaBlock(f, maxback, limit, x, data, p);
    if y.Done? && !y.value.last {
      MetaBlocksAdd(f, maxback, limit, y.value, data, y.at);
    }
  }

  /** The distances a stream starts with, the last one last. */
  const FIRST_DISTANCES: seq<nat> := [16, 15, 11, 4]

  /** What the first short codes mean at the start: 4, 11, 15 and 16 bytes back. */
  lemma FirstDistances()
    ensures ShortDistance(FIRST_DISTANCES, 0) == 4 && ShortDistance(FIRST_DISTANCES, 1) == 11
    ensures ShortDistance(FIRST_DISTANCES, 2) == 15 && ShortDistance(FIRST_DISTANCES, 3) == 16
  {
  }

  const START: Text := Text(false, FIRST_DISTANCES, [])

  /** How far back distances reach with a window of 2^w bytes. */
  function MaxBack(w: nat): nat
    requires w >= 10
  {
    Pow2Mono(10, w);
    assert Pow2(10) == 1024;
    Pow2(w) - 16
  }

  /** After the last meta-block there is only zero padding. */
  ghost function Finished(y: Parsed<Text>, data: seq<Byte>): Option<seq<Byte>>
    requires Forth(data, 0, y)
  {
    if y.Done? && Aligned(data, y.at) == Some(8 * |data|) then Some(y.value.out) else None
  }

  /** The meta-blocks of a stream whose window is 2^w bytes. */
  ghost function Body(f: Fixed, limit: nat, w: nat, data: seq<Byte>, p: nat): (y: Parsed<Text>)
    requires p <= 8 * |data| && w >= 10
    ensures Forth(data, 0, y)
  {
    MetaBlocksAdd(f, MaxBack(w), limit, START, data, p);
    MetaBlocks(f, MaxBack(w), limit, START, data, p)
  }

  /** The output of a whole stream. */
  ghost function Output(f: Fixed, limit: nat, data: seq<Byte>): Option<seq<Byte>> {
    match WindowBits(data, 0)
    case Damaged => None
    case Done(w, p) =>
      WindowBitsRange(data, 0);
      Finished(Body(f, limit, w, data, p), data)
  }

  /** A stream that can be read has just the bytes its meta-blocks announce, and no more than the
      limit. */
  lemma OutputAnnounced(f: Fixed, limit: nat, data: seq<Byte>)
    requires Output(f, limit, data).Some?
    ensures WindowBits(data, 0).Done? && 10 <= WindowBits(data, 0).value <= 24 && WindowBits(data, 0).at <= 8 * |data|
    ensures var w := WindowBits(data, 0);
      |Output(f, limit, data).value| == AllAnnounced(f, MaxBack(w.value), limit, START, data, w.at)
    ensures |Output(f, limit, data).value| <= limit
  {
    hide MetaBlocks, WindowBits, MaxBack;
    var w := WindowBits(data, 0);
    WindowBitsRange(data, 0);
    MetaBlocksAdd(f, MaxBack(w.value), limit, START, data, w.at);
  }

  // ------------------------------------------------------------------- reading it

  lemma TwoBits()
    ensures Pow2(2) == 4
  {
  }

  lemma RingStart()
    ensures Recorded(FIRST_DISTANCES) && Ring(FIRST_DISTANCES, FIRST_DISTANCES)
  {
  }

  method ReadMetadata(b: Bits, ghost x: Text) returns (ok: bool)
    requires b.Valid()
    modifies b
    ensures b.Valid() && old(b.At()) <= b.At()
    ensures Agrees(if ok then Some(x) else None, b.At(), Metadata(x, b.data, old(b.At())))
  {
    hide Value, Digits, Pow2;
    var reserved := b.Read(1);
    if reserved.None? || reserved.value != 0 {
      return false;
    }
    var k := b.Read(2);
    if k.None? {
      return false;
    }
    TwoBits();
    var n := ReadDigits(b, 8, k.value, 1);
    if n.None? {
      return false;
    }
    var skip := if k.value > 0 then n.value + 1 else 0;
    var aligned := ReadAlign(b);
    if !aligned || b.pos + skip > |b.data| {
      return false;
    }
    b.Skip(skip);
    ok := true;
  }

  method ReadRaw(b: Bits, start: seq<Byte>, mlen: nat, ghost x: Text) returns (r: Option<seq<Byte>>)
    requires b.Valid() && x.out == start
    modifies b
    ensures b.Valid() && old(b.At()) <= b.At()
    ensures Agrees(if r.Some? then Some(x.(out := r.value)) else None, b.At(), Raw(x, mlen, b.data, old(b.At())))
  {
    hide Pow2;
    var aligned := ReadAlign(b);
    if !aligned || b.pos + mlen > |b.data| {
      return None;
    }
    r := Some(start + b.data[b.pos..b.pos + mlen]);
    b.Skip(mlen);
  }

  method ReadCompressed(b: Bits, f: Fixed, maxback: nat, start: seq<Byte>, ring: seq<nat>, mlen: nat, ghost x: Text)
      returns (ok: bool, out: seq<Byte>, dist: seq<nat>, ghost past: seq<nat>)
    requires b.Valid() && x.out == start && Recorded(x.past) && Ring(ring, x.past)
    modifies b
    ensures b.Valid() && old(b.At()) <= b.At()
    ensures Agrees(if ok then Some(x.(past := past, out := out)) else None, b.At(),
                   Compressed(f, maxback, x, mlen, b.data, old(b.At())))
    ensures ok ==> Ring(dist, past)
  {
    hide Start, HeadAt, Commands, Sound, Fits, Recorded, HeadRepresents, Ring;
    ghost var data, p := b.data, b.At();
    ok, out, dist, past := false, start, ring, x.past;
    StartsSound(data, p);
    var l := new Category();
    var i := new Category();
    var d := new Category();
    StartSound(data, p);
    var read := l.Init(b);
    if !read {
      return;
    }
    StartSound(data, b.At());
    read := i.Init(b);
    if !read {
      return;
    }
    read := d.Init(b);
    if !read {
      return;
    }
    HeadFits(data, b.At(), l.n, i.n, d.n);
    ghost var t;
    var h;
    h, t := ReadHead(b, l.n, i.n, d.n);
    if h.None? {
      return;
    }
    ok, out, dist, past := RunCommands(b, f, h.value, l, i, d, out, dist, maxback, |out| + mlen, t.value,
      State(l.State(), i.State(), d.State(), past, out));
  }

  method ReadData(b: Bits, f: Fixed, maxback: nat, limit: nat, last: bool, start: seq<Byte>, ring: seq<nat>,
                  mlen: nat, ghost x: Text)
      returns (ok: bool, out: seq<Byte>, dist: seq<nat>, ghost past: seq<nat>)
    requires b.Valid() && x.out == start && x.last == last && Recorded(x.past) && Ring(ring, x.past)
    modifies b
    ensures b.Valid() && old(b.At()) <= b.At()
    ensures Agrees(if ok then Some(x.(past := past, out := out)) else None, b.At(),
                   Data(f, maxback, limit, x, mlen, b.data, old(b.At())))
    ensures ok ==> Ring(dist, past)
  {
    hide Compressed, Raw, Value, Recorded, Ring;
    ok, out, dist, past := false, start, ring, x.past;
    if |out| + mlen > limit {
      return;
    }
    if !last {
      var raw := b.Read(1);
      if raw.None? {
        return;
      }
      if raw.value == 1 {
        var bytes := ReadRaw(b, out, mlen, x);
        if bytes.Some? {
          ok, out := true, bytes.value;
        }
        return;
      }
    }
    ok, out, dist, past := ReadCompressed(b, f, maxback, out, dist, mlen, x);
  }

  method ReadMetaBlock(b: Bits, f: Fixed, maxback: nat, limit: nat, start: seq<Byte>, ring: seq<nat>, ghost x: Text)
      returns (ok: bool, last: bool, out: seq<Byte>, dist: seq<nat>, ghost past: seq<nat>)
    requires b.Valid() && x.out == start && Recorded(x.past) && Ring(ring, x.past)
    modifies b
    ensures b.Valid() && old(b.At()) <= b.At()
    ensures Agrees(if ok then Some(Text(last, past, out)) else None, b.At(),
                   MetaBlock(f, maxback, limit, x, b.data, old(b.At())))
    ensures ok ==> Ring(dist, past)
  {
    hide Metadata, Data, Value, Recorded, Ring, Digits, Pow2;
    ok, last, out, dist, past := false, false, start, ring, x.past;
    var bit := b.Read(1);
    if bit.None? {
      return;
    }
    last := bit.value != 0;
    if last {
      var empty := b.Read(1);
      if empty.None? {
        return;
      }
      if empty.value == 1 {
        ok := true;
        return;
      }
    }
    ghost var y := x.(last := last);
    var n := b.Read(2);
    if n.None? {
      return;
    }
    TwoBits();
    if n.value == 3 {
      ok := ReadMetadata(b, y);
      return;
    }
    var m := ReadDigits(b, 4, n.value + 4, 4);
    if m.None? {
      return;
    }
    ok, out, dist, past := ReadData(b, f, maxback, limit, last, out, dist, m.value + 1, y);
  }

  /** Decodes a stream; nothing for one that is damaged or longer than the limit. */
  method Decompress(data: seq<Byte>, f: Fixed, limit: nat) returns (r: Option<seq<Byte>>)
    ensures r == Output(f, limit, data)
  {
    hide MetaBlock, WindowBits, MaxBack, Recorded, Ring;
    var b := new Bits(data);
    WindowBitsRange(data, 0);
    var w := ReadWindow(b);
    if w.None? {
      return None;
    }
    var maxback := MaxBack(w.value);
    var out: seq<Byte>, dist: seq<nat>, last := [], FIRST_DISTANCES, false;
    ghost var p, x := b.At(), START;
    RingStart();
    while !last
      invariant b.Valid() && b.data == data && p <= b.At() && out == x.out && last == x.last
      invariant Recorded(x.past) && Ring(dist, x.past) && |out| <= limit
      invariant MetaBlocks(f, maxback, limit, START, data, p) == if last then Done(x, b.At())
        else MetaBlocks(f, maxback, limit, x, data, b.At())
      decreases !last, 8 * |data| - b.At()
    {
      MetaBlockAdds(f, maxback, limit, x, data, b.At());
      var ok;
      ghost var past;
      ok, last, out, dist, past := ReadMetaBlock(b, f, maxback, limit, out, dist, x);
      if !ok {
        return None;
      }
      x := Text(last, past, out);
    }
    var aligned := ReadAlign(b);
    r := if aligned && b.pos == |data| then Some(out) else None;
  }
}
