/** Block types and block counts (section 6 of RFC 7932) for one category of symbols. */
module BrotliBlocks {
  import opened Wrappers
  import opened BrotliBits
  import opened BrotliCode
  import opened BrotliParse

  const BLOCK_OFF: seq<nat> := [1, 5, 9, 13, 17, 25, 33, 41, 49, 65, 81, 97, 113, 145, 177, 209, 241, 305, 369, 497,
                                753, 1265, 2289, 4337, 8433, 16625]
  const BLOCK_BITS: seq<nat> := [2, 2, 2, 2, 3, 3, 3, 3, 4, 4, 4, 4, 5, 5, 5, 5, 6, 6, 7, 8, 9, 10, 11, 12, 13, 24]

  /** One block type is enough for this many symbols. */
  const NO_BLOCKS: nat := 16777216

  /** A category: its number of block types and their codes, the type of the block, the type
      before it, and how many symbols of the block are left. */
  datatype Blocks = Blocks(n: nat, tcode: Table, ccode: Table, kind: nat, prev: nat, count: nat)

  ghost predicate Sound(c: Blocks) {
    && 1 <= c.n <= 256 && c.kind < c.n
    && (c.n >= 2 ==> Complete(c.tcode, c.n + 2) && Complete(c.ccode, 26) && c.prev < c.n)
  }

  // ------------------------------------------------------------------- counts

  /** The number of block types, or of codes: 1 to 256. */
  ghost function Count(data: seq<Byte>, p: nat): (x: Parsed<nat>)
    ensures x.Done? ==> 1 <= x.value <= 256 && p <= x.at <= 8 * |data|
  {
    if p + 1 > 8 * |data| then Damaged
    else if Bit(data, p) == 0 then Done(1, p + 1)
    else if p + 4 > 8 * |data| then Damaged
    else
      var n := Value(data, p + 1, 3);
      SmallPower(data, p + 1, 3);
      if p + 4 + n > 8 * |data| then Damaged
      else
        PowerBelow(n, 7);
        Done(Pow2(n) + Value(data, p + 4, n) + 1, p + 4 + n)
  }

  lemma SmallPower(data: seq<Byte>, p: nat, n: nat)
    requires n == 3 && p + n <= 8 * |data|
    ensures Value(data, p, n) < 8
  {
    assert Pow2(3) == 8;
  }

  lemma PowerBelow(n: nat, k: nat)
    requires n <= k == 7
    ensures 2 * Pow2(n) <= 256
  {
    assert Pow2(7) == 128;
    Pow2Mono(n, 7);
  }

  method ReadCount(b: Bits) returns (r: Option<nat>)
    requires b.Valid()
    modifies b
    ensures b.Valid() && old(b.At()) <= b.At()
    ensures Agrees(r, b.At(), Count(b.data, old(b.At())))
  {
    hide Pow2, Value, Bit;
    var more := b.Read(1);
    if more.None? {
      return None;
    }
    OneBit(b.data, b.At() - 1);
    if more.value == 0 {
      return Some(1);
    }
    var n := b.Read(3);
    if n.None? {
      return None;
    }
    var e := b.Read(n.value);
    if e.None? {
      return None;
    }
    r := Some(Pow2(n.value) + e.value + 1);
  }

  /** The number of symbols in a block. */
  ghost function BlockCount(t: Table, data: seq<Byte>, p: nat): Parsed<nat>
    requires Complete(t, 26) && p <= 8 * |data|
  {
    SymbolForth(t, 26, data, p);
    match Symbol(t, data, p)
    case Damaged => Damaged
    case Done(s, q) =>
      match Number(data, q, BLOCK_BITS[s])
      case Damaged => Damaged
      case Done(e, q') => Done(BLOCK_OFF[s] + e, q')
  }

  /** A count is not 0 and takes two bits or more. */
  lemma BlockCountForth(t: Table, data: seq<Byte>, p: nat)
    requires Complete(t, 26) && p <= 8 * |data|
    ensures var x := BlockCount(t, data, p);
      Forth(data, p, x) && (x.Done? ==> p + 2 <= x.at && x.value >= 1)
  {
    hide Symbol, Complete, Value;
    SymbolForth(t, 26, data, p);
  }

  method ReadBlockCount(b: Bits, c: Code, ghost t: Table) returns (r: Option<nat>)
    requires b.Valid() && Represents(c, t) && Complete(t, 26)
    modifies b
    ensures b.Valid() && old(b.At()) <= b.At()
    ensures Agrees(r, b.At(), BlockCount(t, b.data, old(b.At())))
  {
    hide Symbol, Complete, Value, Represents;
    ghost var p := b.At();
    SymbolForth(t, 26, b.data, p);
    var s := ReadBySymbol(c, b, t);
    if s.None? {
      return None;
    }
    var e := b.Read(BLOCK_BITS[s.value]);
    if e.None? {
      return None;
    }
    r := Some(BLOCK_OFF[s.value] + e.value);
  }

  /** The block counts reach every count from 1 on, each in one way; the last ones have 24 extra
      bits, as many as a block of one type has symbols. */
  lemma CountsAreContiguous(s: nat)
    requires s < 25
    ensures BLOCK_OFF[s] + Pow2(BLOCK_BITS[s]) == BLOCK_OFF[s + 1]
    ensures BLOCK_OFF[0] == 1 && NO_BLOCKS == Pow2(BLOCK_BITS[25])
  {
    LastCounts();
    assert Pow2(2) == 4 && Pow2(3) == 8 && Pow2(4) == 16 && Pow2(5) == 32 && Pow2(6) == 64 && Pow2(7) == 128;
    assert Pow2(8) == 2 * 128 && Pow2(9) == 512 && Pow2(10) == 1024 && Pow2(11) == 2048 && Pow2(12) == 4096
      && Pow2(13) == 8192;
  }

  lemma LastCounts()
    ensures NO_BLOCKS == Pow2(BLOCK_BITS[25])
  {
    assert Pow2(8) == 256;
    Pow2Sum(8, 8);
    Pow2Sum(16, 8);
  }

  // -------------------------------------------------------------- block switches

  /** The state of a category at the start of a meta-block. */
  ghost function Start(data: seq<Byte>, p: nat): Parsed<Blocks>
    requires p <= 8 * |data|
  {
    match Count(data, p)
    case Damaged => Damaged
    case Done(n, p1) =>
      if n < 2 then Done(Blocks(n, Lone(0), Lone(0), 0, 1, NO_BLOCKS), p1)
      else
        match Described(data, p1, n + 2)
        case Damaged => Damaged
        case Done(t, p2) =>
          match Described(data, p2, 26)
          case Damaged => Damaged
          case Done(c, p3) =>
            DescribedForth(data, p1, n + 2);
            DescribedForth(data, p2, 26);
            match BlockCount(c, data, p3)
            case Damaged => Damaged
            case Done(k, p4) => Done(Blocks(n, t, c, 0, 1, k), p4)
  }

  lemma StartSound(data: seq<Byte>, p: nat)
    requires p <= 8 * |data|
    ensures Forth(data, p, Start(data, p)) && (Start(data, p).Done? ==> Sound(Start(data, p).value))
  {
    hide Count, Described, BlockCount, Complete;
    var x := Count(data, p);
    if x.Done? && x.value >= 2 {
      DescribedForth(data, x.at, x.value + 2);
      var t := Described(data, x.at, x.value + 2);
      if t.Done? {
        DescribedForth(data, t.at, 26);
        var c := Described(data, t.at, 26);
        if c.Done? {
          BlockCountForth(c.value, data, c.at);
        }
      }
    }
  }

  /** The type of the next block: code 0 is the type before this one, code 1 the next type in
      turn, and the others are the types themselves. */
  function NextKind(c: Blocks, s: nat): nat
    requires c.n >= 1
  {
    if s == 0 then c.prev else if s == 1 then (c.kind + 1) % c.n else s - 2
  }

  /** The category after a switch with code s, but for its count. */
  ghost function Switched(c: Blocks, s: nat): (r: Blocks)
    requires c.n >= 1
    ensures r.n == c.n
  {
    c.(kind := NextKind(c, s), prev := c.kind)
  }

  /** Code 0 undoes a switch, and code t + 2 is a switch to type t. */
  lemma SwitchedBack(c: Blocks, s: nat, t: nat)
    requires c.n >= 1
    ensures Switched(Switched(c, s), 0).kind == c.kind
    ensures Switched(c, t + 2).kind == t
  {
  }

  ghost function InTurn(c: Blocks, k: nat): (r: Blocks)
    requires c.n >= 1
    ensures r.n == c.n
  {
    if k == 0 then c else Switched(InTurn(c, k - 1), 1)
  }

  lemma NextInTurn(c: Blocks)
    requires c.kind < c.n
    ensures Switched(c, 1).kind == if c.kind + 1 < c.n then c.kind + 1 else 0
  {
    if c.kind + 1 == c.n {
      assert c.n % c.n == 0;
    }
  }

  /** Code 1 over and over goes through the types in turn: t is reached after t - kind steps, or n
      more when that is less than none, and after n steps it starts again. */
  lemma {:induction false} AllInTurn(c: Blocks, k: nat)
    requires c.kind < c.n && k <= c.n
    ensures InTurn(c, k).kind == if c.kind + k < c.n then c.kind + k else c.kind + k - c.n
  {
    hide NextKind, Switched;
    if k > 0 {
      AllInTurn(c, k - 1);
      NextInTurn(InTurn(c, k - 1));
    }
  }

  /** One symbol of the category is taken, after a block switch when none are left. */
  ghost function Next(c: Blocks, data: seq<Byte>, p: nat): Parsed<Blocks>
    requires Sound(c) && p <= 8 * |data|
  {
    if c.count > 0 then Done(c.(count := c.count - 1), p)
    else if c.n < 2 then Damaged
    else
      match Symbol(c.tcode, data, p)
      case Damaged => Damaged
      case Done(s, p1) =>
        SymbolForth(c.tcode, c.n + 2, data, p);
        if NextKind(c, s) >= c.n then Damaged
        else
          match BlockCount(c.ccode, data, p1)
          case Damaged => Damaged
          case Done(k, p2) =>
            BlockCountForth(c.ccode, data, p1);
            Done(Switched(c, s).(count := k - 1), p2)
  }

  /** Taking a symbol keeps the category sound, and uses up bits or the block. The type code
      never asks for a type that is not there. */
  lemma NextSound(c: Blocks, data: seq<Byte>, p: nat)
    requires Sound(c) && p <= 8 * |data|
    ensures var x := Next(c, data, p);
      && Forth(data, p, x)
      && (x.Done? ==>
        && Sound(x.value) && x.value.n == c.n && x.value.tcode == c.tcode && x.value.ccode == c.ccode
        && (p + 2 <= x.at || (p == x.at && x.value.count < c.count)))
    ensures c.n >= 2 && Symbol(c.tcode, data, p).Done? ==> NextKind(c, Symbol(c.tcode, data, p).value) < c.n
  {
    hide Symbol, BlockCount, Complete;
    if c.n >= 2 {
      SymbolForth(c.tcode, c.n + 2, data, p);
      if Symbol(c.tcode, data, p).Done? {
        BlockCountForth(c.ccode, data, Symbol(c.tcode, data, p).at);
      }
    }
  }

  class Category {
    var n: nat
    var kind: nat
    var prev: nat
    var count: nat
    var tcode: Code
    var ccode: Code
    ghost var tables: (Table, Table)

    ghost predicate Valid()
      reads this
    {
      Sound(State()) && (n >= 2 ==> Represents(tcode, tables.0) && Represents(ccode, tables.1))
    }

    ghost function State(): Blocks
      reads this
    {
      Blocks(n, tables.0, tables.1, kind, prev, count)
    }

    constructor ()
      ensures Valid() && fresh(this)
    {
      n, kind, prev, count := 1, 0, 1, NO_BLOCKS;
      tcode, ccode := Code([], [], Some(0)), Code([], [], Some(0));
      tables := (Lone(0), Lone(0));
    }

    /** Reads the head of the category. */
    method Init(b: Bits) returns (ok: bool)
      requires b.Valid()
      modifies this, b
      ensures b.Valid() && old(b.At()) <= b.At()
      ensures Agrees(if ok then Some(State()) else None, b.At(), Start(b.data, old(b.At())))
      ensures ok ==> Valid()
    {
      hide Count, Described, BlockCount, Complete, Represents;
      ghost var p := b.At();
      StartSound(b.data, p);
      tables := (Lone(0), Lone(0));
      var k := ReadCount(b);
      if k.None? {
        return false;
      }
      n, kind, prev, count := k.value, 0, 1, NO_BLOCKS;
      if n >= 2 {
        ghost var t;
        var c;
        c, t := ReadTable(b, n + 2);
        if c.None? {
          return false;
        }
        tcode, tables := c.value, (t.value, tables.1);
        c, t := ReadTable(b, 26);
        if c.None? {
          return false;
        }
        ccode, tables := c.value, (tables.0, t.value);
        var m := ReadBlockCount(b, ccode, tables.1);
        if m.None? {
          return false;
        }
        count := m.value;
      }
      ok := true;
    }

    /** A block switch when the count is out; one taken. */
    method Take(b: Bits) returns (ok: bool)
      requires b.Valid() && Valid()
      modifies this, b
      ensures b.Valid() && old(b.At()) <= b.At()
      ensures Agrees(if ok then Some(State()) else None, b.At(), Next(old(State()), b.data, old(b.At())))
      ensures ok ==> Valid()
    {
      hide Symbol, BlockCount, Complete, Represents;
      NextSound(State(), b.data, b.At());
      if count == 0 {
        if n < 2 {
          return false;
        }
        var s := ReadBySymbol(tcode, b, tables.0);
        if s.None? {
          return false;
        }
        var t := if s.value == 0 then prev else if s.value == 1 then (kind + 1) % n else s.value - 2;
        if t >= n {
          return false;
        }
        prev, kind := kind, t;
        var k := ReadBlockCount(b, ccode, tables.1);
        if k.None? {
          return false;
        }
        count := k.value;
        assert count >= 1;
      }
      count := count - 1;
      ok := true;
    }
  }
}
