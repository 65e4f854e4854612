/** The parts of the stream as functions of the input and a place in it: what stands there and
    where it ends, or that it is damaged. Each is read by a method proved to agree with it. */
module BrotliParse {
  import opened Wrappers
  import opened BrotliBits
  import opened BrotliCode
  import opened BrotliHeader
  import opened BrotliContext
  import opened BrotliMoveToFront

  datatype Parsed<+T> = Damaged | Done(value: T, at: nat)

  /** The result of a method that read from p on. */
  ghost predicate Agrees<T>(r: Option<T>, at: nat, x: Parsed<T>) {
    if r.Some? then x == Done(r.value, at) else x.Damaged?
  }

  /** What is read starts at p or after and ends in the input. */
  ghost predicate Forth<T>(data: seq<Byte>, p: nat, x: Parsed<T>) {
    x.Done? ==> p <= x.at <= 8 * |data|
  }

  ghost function Number(data: seq<Byte>, p: nat, n: nat): (x: Parsed<nat>) {
    if p + n <= 8 * |data| then Done(Value(data, p, n), p + n) else Damaged
  }

  method ReadNumber(b: Bits, n: nat) returns (r: Option<nat>)
    requires b.Valid()
    modifies b
    ensures b.Valid() && old(b.At()) <= b.At()
    ensures Agrees(r, b.At(), Number(b.data, old(b.At()), n))
  {
    r := b.Read(n);
  }

  // ------------------------------------------------------------------ symbols and codes

  ghost function Symbol(t: Table, data: seq<Byte>, p: nat): Parsed<nat> {
    if exists s: nat, q: nat :: SymbolAt(t, data, p, s, q) then
      var s: nat, q: nat :| SymbolAt(t, data, p, s, q); Done(s, q)
    else Damaged
  }

  lemma SymbolIs(t: Table, data: seq<Byte>, p: nat, s: nat, q: nat)
    requires SymbolAt(t, data, p, s, q)
    ensures Symbol(t, data, p) == Done(s, q)
  {
    hide SymbolAt;
    var s': nat, q': nat :| SymbolAt(t, data, p, s', q') && Symbol(t, data, p) == Done(s', q');
    SymbolOnce(t, data, p, s, q, s', q');
  }

  lemma SymbolForth(t: Table, size: nat, data: seq<Byte>, p: nat)
    requires Complete(t, size) && p <= 8 * |data|
    ensures Forth(data, p, Symbol(t, data, p)) && (Symbol(t, data, p).Done? ==> Symbol(t, data, p).value < size)
  {
    hide SymbolAt, Complete;
    if Symbol(t, data, p).Done? {
      var s: nat, q: nat :| SymbolAt(t, data, p, s, q) && Symbol(t, data, p) == Done(s, q);
      SymbolRange(t, data, p, s, q);
      CompleteReads(t, size, data, p, s, q);
    }
  }

  method ReadBySymbol(c: Code, b: Bits, ghost t: Table) returns (r: Option<nat>)
    requires b.Valid() && Represents(c, t)
    modifies b
    ensures b.Valid() && old(b.At()) <= b.At()
    ensures Agrees(r, b.At(), Symbol(t, b.data, old(b.At())))
  {
    hide SymbolAt, Represents, Complete;
    ghost var p := b.At();
    r := ReadSymbol(c, b, t);
    if r.Some? {
      SymbolIs(t, b.data, p, r.value, b.At());
    }
  }

  /** A prefix code over size symbols. */
  ghost function Described(data: seq<Byte>, p: nat, size: nat): Parsed<Table>
    requires size >= 1
  {
    if exists t, q: nat :: Written(data, p, size, Some(t), q) then
      var t, q: nat :| Written(data, p, size, Some(t), q); Done(t, q)
    else Damaged
  }

  lemma DescribedForth(data: seq<Byte>, p: nat, size: nat)
    requires size >= 1
    ensures Forth(data, p, Described(data, p, size))
    ensures Described(data, p, size).Done? ==> Complete(Described(data, p, size).value, size)
  {
    hide Written, Complete;
    if Described(data, p, size).Done? {
      var t, q: nat :| Written(data, p, size, Some(t), q) && Described(data, p, size) == Done(t, q);
      WrittenComplete(data, p, size, t, q);
    }
  }

  lemma DescribedIs(data: seq<Byte>, p: nat, size: nat, t: Option<Table>, q: nat)
    requires size >= 1 && Written(data, p, size, t, q)
    ensures Described(data, p, size) == if t.Some? then Done(t.value, q) else Damaged
  {
    hide Written;
    if Described(data, p, size).Done? {
      var t', q': nat :| Written(data, p, size, Some(t'), q') && Described(data, p, size) == Done(t', q');
      WrittenOnce(data, p, size, t, q, Some(t'), q');
    }
  }

  method ReadTable(b: Bits, size: nat) returns (r: Option<Code>, ghost t: Option<Table>)
    requires b.Valid() && size >= 1
    modifies b
    ensures b.Valid() && old(b.At()) <= b.At() && r.Some? == t.Some?
    ensures Agrees(t, b.At(), Described(b.data, old(b.At()), size))
    ensures r.Some? ==> Represents(r.value, t.value) && Complete(t.value, size)
  {
    hide Written, Represents, Complete;
    ghost var p, q := b.At(), 0;
    r, t, q := ReadCode(b, size);
    DescribedIs(b.data, p, size, t, q);
  }

  /** k codes one after another. */
  ghost function Tables(data: seq<Byte>, p: nat, size: nat, k: nat): (r: Parsed<seq<Table>>)
    requires size >= 1
  {
    if k == 0 then Done([], p)
    else
      match Tables(data, p, size, k - 1)
      case Damaged => Damaged
      case Done(ts, q) =>
        match Described(data, q, size)
        case Damaged => Damaged
        case Done(t, e) => Done(ts + [t], e)
  }

  ghost predicate AllComplete(ts: seq<Table>, size: nat) { forall i :: 0 <= i < |ts| ==> Complete(ts[i], size) }

  ghost predicate AllRepresent(cs: seq<Code>, ts: seq<Table>) {
    |cs| == |ts| && forall i :: 0 <= i < |ts| ==> Represents(cs[i], ts[i])
  }

  lemma {:induction false} TablesForth(data: seq<Byte>, p: nat, size: nat, k: nat)
    requires size >= 1 && p <= 8 * |data|
    ensures var x := Tables(data, p, size, k);
      Forth(data, p, x) && (x.Done? ==> |x.value| == k && AllComplete(x.value, size))
  {
    hide Complete, Described;
    if k > 0 {
      TablesForth(data, p, size, k - 1);
      var x := Tables(data, p, size, k - 1);
      if x.Done? {
        DescribedForth(data, x.at, size);
      }
    }
  }

  lemma {:induction false} TablesStayDamaged(data: seq<Byte>, p: nat, size: nat, j: nat, k: nat)
    requires size >= 1 && j <= k && Tables(data, p, size, j).Damaged?
    ensures Tables(data, p, size, k).Damaged?
    decreases k
  {
    hide Described;
    if j < k {
      TablesStayDamaged(data, p, size, j, k - 1);
    }
  }

  method ReadTables(b: Bits, size: nat, k: nat) returns (r: Option<seq<Code>>, ghost ts: seq<Table>)
    requires b.Valid() && size >= 1
    modifies b
    ensures b.Valid() && old(b.At()) <= b.At()
    ensures Agrees(if r.Some? then Some(ts) else None, b.At(), Tables(b.data, old(b.At()), size, k))
    ensures r.Some? ==> AllRepresent(r.value, ts)
  {
    hide Represents, Complete, Described;
    var cs: seq<Code> := [];
    ts := [];
    ghost var p := b.At();
    for i := 0 to k
      invariant b.Valid() && p <= b.At()
      invariant Tables(b.data, p, size, i) == Done(ts, b.At()) && AllRepresent(cs, ts)
    {
      ghost var t;
      var c;
      c, t := ReadTable(b, size);
      if c.None? {
        TablesStayDamaged(b.data, p, size, i + 1, k);
        return None, [];
      }
      cs, ts := cs + [c.value], ts + [t.value];
    }
    r := Some(cs);
  }

  /** A context map. */
  ghost function ContextMap(data: seq<Byte>, p: nat, size: nat, ntrees: nat): Parsed<seq<Byte>> {
    if exists m, q: nat, tr :: MapWritten(data, p, size, ntrees, m, q, tr) then
      var m, q: nat, tr :| MapWritten(data, p, size, ntrees, m, q, tr); Done(m, q)
    else Damaged
  }

  lemma ContextMapForth(data: seq<Byte>, p: nat, size: nat, ntrees: nat)
    requires p <= 8 * |data| && 1 <= ntrees <= BYTES
    ensures var x := ContextMap(data, p, size, ntrees);
      Forth(data, p, x) && (x.Done? ==> |x.value| == size && forall i :: 0 <= i < size ==> x.value[i] < ntrees)
  {
    hide MapWritten;
    if ContextMap(data, p, size, ntrees).Done? {
      var m, q: nat, tr :| MapWritten(data, p, size, ntrees, m, q, tr)
        && ContextMap(data, p, size, ntrees) == Done(m, q);
      MapOnce(data, p, size, ntrees, m, q, tr, m, q, tr);
      MapBelow(data, p, size, ntrees, m, q, tr);
    }
  }

  method ReadMap(b: Bits, size: nat, ntrees: nat) returns (r: Option<seq<Byte>>)
    requires b.Valid() && 1 <= ntrees <= BYTES
    modifies b
    ensures b.Valid() && old(b.At()) <= b.At()
    ensures Agrees(r, b.At(), ContextMap(b.data, old(b.At()), size, ntrees))
  {
    hide MapWritten, MapRefused;
    ghost var p, tr := b.At(), Trace(0, 0, None, 0, [], 0);
    r, tr := ReadContextMap(b, size, ntrees);
    if ContextMap(b.data, p, size, ntrees).Done? {
      var m, q: nat, tr' :| MapWritten(b.data, p, size, ntrees, m, q, tr')
        && ContextMap(b.data, p, size, ntrees) == Done(m, q);
      if r.Some? {
        MapOnce(b.data, p, size, ntrees, m, q, tr', r.value, b.At(), tr);
      } else {
        WrittenNotRefused(b.data, p, size, ntrees, m, q, tr', tr);
      }
    }
  }
}
