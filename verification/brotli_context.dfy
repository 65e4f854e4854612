/** Context maps (section 7.3 of RFC 7932): run lengths of zeros, then the inverse move-to-front. */
module BrotliContext {
  import opened Wrappers
  import opened BrotliBits
  import opened BrotliCode
  import opened BrotliLengths
  import opened BrotliHeader
  import opened BrotliMoveToFront

  /** One symbol of a context map: an entry, or 2^bits + extra zeros. */
  datatype Piece = Entry(v: nat) | Run(bits: nat, extra: nat)

  function Says(x: Piece): seq<nat> {
    match x
    case Entry(v) => [v]
    case Run(k, e) => Copies(0, Pow2(k) + e)
  }

  /** Runs of k bits are the runs of 2^k to 2^(k + 1) - 1 zeros, by their extra bits, and longer runs
      have more bits. */
  lemma RunLengths(k: nat, e: nat)
    requires e < Pow2(k)
    ensures forall i :: 0 <= i < |Says(Run(k, e))| ==> Says(Run(k, e))[i] == 0
    ensures |Says(Run(k, e))| - e == Pow2(k) && |Says(Run(k, e))| < Pow2(k + 1)
  {
  }

  function Entries(xs: seq<Piece>): seq<nat> {
    if xs == [] then [] else Entries(xs[..|xs| - 1]) + Says(xs[|xs| - 1])
  }

  /** The bits from p to q are this piece: symbol 0 is entry 0, the symbols 1..rle start runs,
      and the symbols after them are the other entries. */
  ghost predicate PieceAt(t: Table, rle: nat, data: seq<Byte>, p: nat, x: Piece, q: nat) {
    match x
    case Entry(v) => SymbolAt(t, data, p, if v == 0 then 0 else v + rle, q)
    case Run(k, e) =>
      && 1 <= k <= rle && q >= k && SymbolAt(t, data, p, k, q - k)
      && q <= 8 * |data| && e == Value(data, q - k, k)
  }

  ghost predicate PiecesAt(t: Table, rle: nat, data: seq<Byte>, p: nat, xs: seq<Piece>, q: nat) {
    if xs == [] then q == p
    else
      var before, last := xs[..|xs| - 1], xs[|xs| - 1];
      exists m: nat :: PiecesAt(t, rle, data, p, before, m) && PieceAt(t, rle, data, m, last, q)
  }

  ghost predicate NoPiece(t: Table, rle: nat, data: seq<Byte>, p: nat) {
    forall x: Piece, q: nat :: !PieceAt(t, rle, data, p, x, q)
  }

  ghost predicate ShortBefore(xs: seq<Piece>, size: nat) {
    forall k :: 0 <= k < |xs| ==> |Entries(xs[..k])| < size
  }

  ghost predicate AllBelow(vs: seq<nat>, n: nat) { forall i :: 0 <= i < |vs| ==> vs[i] < n }

  method ReadPiece(c: Code, b: Bits, rle: nat, ghost t: Table, ghost ntrees: nat) returns (r: Option<Piece>)
    requires b.Valid() && Represents(c, t) && Complete(t, ntrees + rle) && ntrees >= 1
    modifies b
    ensures b.Valid() && old(b.At()) <= b.At()
    ensures r.Some? ==> PieceAt(t, rle, b.data, old(b.At()), r.value, b.At()) && AllBelow(Says(r.value), ntrees)
    ensures r.None? ==> NoPiece(t, rle, b.data, old(b.At()))
  {
    hide Represents, Kraft, Value, CodeStandsAt, Pow2;
    ghost var p := b.At();
    var s := ReadSymbol(c, b, t);
    if s.None? {
      return None;
    }
    CompleteReads(t, ntrees + rle, b.data, p, s.value, b.At());
    if s.value == 0 {
      return Some(Entry(0));
    }
    if s.value <= rle {
      var e := b.Read(s.value);
      if e.None? {
        return None;
      }
      return Some(Run(s.value, e.value));
    }
    r := Some(Entry(s.value - rle));
  }

  lemma PiecesMore(t: Table, rle: nat, data: seq<Byte>, p: nat, xs: seq<Piece>, m: nat, x: Piece, q: nat)
    requires PiecesAt(t, rle, data, p, xs, m) && PieceAt(t, rle, data, m, x, q)
    ensures PiecesAt(t, rle, data, p, xs + [x], q)
    ensures Entries(xs + [x]) == Entries(xs) + Says(x)
  {
    hide PieceAt;
    assert (xs + [x])[..|xs|] == xs;
  }

  lemma ShortMore(xs: seq<Piece>, x: Piece, size: nat)
    requires ShortBefore(xs, size) && |Entries(xs)| < size
    ensures ShortBefore(xs + [x], size)
  {
    forall k | 0 <= k <= |xs| ensures |Entries((xs + [x])[..k])| < size {
      assert (xs + [x])[..k] == xs[..k];
      assert xs[..|xs|] == xs;
    }
  }

  lemma NoPieces(t: Table, rle: nat, data: seq<Byte>, p: nat, size: nat, ntrees: nat)
    ensures PiecesAt(t, rle, data, p, [], p) && Entries([]) == [] && ShortBefore([], size) && AllBelow([], ntrees)
  {
  }

  lemma SaysSome(x: Piece)
    ensures |Says(x)| >= 1
  {
  }

  lemma BelowBoth(a: seq<nat>, b: seq<nat>, n: nat)
    requires AllBelow(a, n) && AllBelow(b, n)
    ensures AllBelow(a + b, n)
  {
  }

  /** The entries, before the transform: xs are the pieces read, up to q. Reading succeeds
      exactly when they say as many entries as there are to be. */
  method ReadEntries(c: Code, b: Bits, size: nat, ntrees: nat, rle: nat, ghost t: Table)
      returns (r: Option<seq<nat>>, ghost xs: seq<Piece>, ghost q: nat)
    requires b.Valid() && Represents(c, t) && Complete(t, ntrees + rle) && ntrees >= 1
    modifies b
    ensures b.Valid() && old(b.At()) <= q <= b.At()
    ensures PiecesAt(t, rle, b.data, old(b.At()), xs, q) && ShortBefore(xs, size)
    ensures r.Some? <==> |Entries(xs)| == size
    ensures r.Some? ==> r.value == Entries(xs) && AllBelow(r.value, ntrees) && q == b.At()
    ensures |Entries(xs)| < size ==> NoPiece(t, rle, b.data, q)
  {
    hide Represents, Complete, PieceAt, PiecesAt, NoPiece, Entries, Says, ShortBefore, AllBelow, Pow2;
    var out: seq<nat> := [];
    ghost var p := b.At();
    xs, q := [], p;
    NoPieces(t, rle, b.data, p, size, ntrees);
    while |out| < size
      invariant b.Valid() && p <= q == b.At() && out == Entries(xs) && |out| <= size
      invariant PiecesAt(t, rle, b.data, p, xs, q) && ShortBefore(xs, size) && AllBelow(out, ntrees)
      decreases size - |out|
    {
      var x := ReadPiece(c, b, rle, t, ntrees);
      if x.None? {
        return None, xs, q;
      }
      PiecesMore(t, rle, b.data, p, xs, q, x.value, b.At());
      ShortMore(xs, x.value, size);
      q, xs := b.At(), xs + [x.value];
      SaysSome(x.value);
      BelowBoth(out, Says(x.value), ntrees);
      if |out| + |Says(x.value)| > size {
        return None, xs, q;
      }
      out := out + Says(x.value);
    }
    r := Some(out);
  }

  // ----------------------------------------------------------------- the whole map

  /** What reading a map goes through: how many symbols are run lengths and where the code's
      description starts and ends, the code, and the pieces and where they end. */
  datatype Trace = Trace(rle: nat, start: nat, t: Option<Table>, codeEnd: nat, xs: seq<Piece>, end: nat)

  /** The bit and four bits that say how many symbols are run lengths. */
  ghost predicate RunSymbols(data: seq<Byte>, p: nat, rle: nat, q: nat) {
    && p + 1 <= 8 * |data|
    && if Bit(data, p) == 0 then rle == 0 && q == p + 1
       else p + 5 <= 8 * |data| && rle == Value(data, p + 1, 4) + 1 && q == p + 5
  }

  ghost predicate AsBytes(vs: seq<nat>, bytes: seq<Byte>) {
    |vs| == |bytes| && forall i :: 0 <= i < |vs| ==> vs[i] == bytes[i]
  }

  /** A map of ntrees codes: everything is code 0 when there is one only, and otherwise what the
      pieces say, with the transform undone if the bit after them is set. */
  ghost predicate MapWritten(data: seq<Byte>, p: nat, size: nat, ntrees: nat, mapped: seq<Byte>, q: nat, tr: Trace) {
    if ntrees < 2 then AsBytes(Copies(0, size), mapped) && q == p
    else
      && RunSymbols(data, p, tr.rle, tr.start)
      && Written(data, tr.start, ntrees + tr.rle, tr.t, tr.codeEnd) && tr.t.Some?
      && PiecesAt(tr.t.value, tr.rle, data, tr.codeEnd, tr.xs, tr.end) && ShortBefore(tr.xs, size)
      && |Entries(tr.xs)| == size
      && tr.end < 8 * |data| && q == tr.end + 1
      && exists bytes ::
           AsBytes(Entries(tr.xs), bytes) && mapped == if Bit(data, tr.end) == 1 then Undone(bytes) else bytes
  }

  /** Why there is no map. */
  ghost predicate MapRefused(data: seq<Byte>, p: nat, size: nat, ntrees: nat, tr: Trace) {
    && ntrees >= 2
    && (RunSymbols(data, p, tr.rle, tr.start) || (p + 5 > 8 * |data| && (p + 1 > 8 * |data| || Bit(data, p) == 1)))
    && (RunSymbols(data, p, tr.rle, tr.start) ==>
      && Written(data, tr.start, ntrees + tr.rle, tr.t, tr.codeEnd)
      && (tr.t.Some? ==>
        && PiecesAt(tr.t.value, tr.rle, data, tr.codeEnd, tr.xs, tr.end) && ShortBefore(tr.xs, size)
        && (|Entries(tr.xs)| == size ==> tr.end + 1 > 8 * |data|)
        && (|Entries(tr.xs)| < size ==> NoPiece(tr.t.value, tr.rle, data, tr.end))))
  }

  // -------------------------------------------------------- a map says one thing only

  lemma PieceOnce(t: Table, rle: nat, data: seq<Byte>, p: nat, x: Piece, m: nat, y: Piece, n: nat)
    requires PieceAt(t, rle, data, p, x, m) && PieceAt(t, rle, data, p, y, n)
    ensures x == y && m == n
  {
    hide SymbolAt, Value;
    SymbolOnce(t, data, p, PieceSymbol(rle, x), if x.Entry? then m else m - x.bits,
               PieceSymbol(rle, y), if y.Entry? then n else n - y.bits);
  }

  function PieceSymbol(rle: nat, x: Piece): nat {
    match x
    case Entry(v) => if v == 0 then 0 else v + rle
    case Run(k, _) => k
  }

  lemma {:induction false} PiecesOnce(t: Table, rle: nat, data: seq<Byte>, p: nat, xs: seq<Piece>, m: nat,
                                      ys: seq<Piece>, n: nat)
    requires PiecesAt(t, rle, data, p, xs, m) && PiecesAt(t, rle, data, p, ys, n) && |xs| <= |ys|
    ensures xs <= ys && (|xs| == |ys| ==> m == n) && (|xs| < |ys| ==> !NoPiece(t, rle, data, m))
    decreases |ys|
  {
    hide PieceAt;
    if ys != [] {
      var ys0, y := ys[..|ys| - 1], ys[|ys| - 1];
      var n0: nat :| PiecesAt(t, rle, data, p, ys0, n0) && PieceAt(t, rle, data, n0, y, n);
      if |xs| < |ys| {
        PiecesOnce(t, rle, data, p, xs, m, ys0, n0);
      } else {
        var xs0, x := xs[..|xs| - 1], xs[|xs| - 1];
        var m0: nat :| PiecesAt(t, rle, data, p, xs0, m0) && PieceAt(t, rle, data, m0, x, m);
        PiecesOnce(t, rle, data, p, xs0, m0, ys0, n0);
        PieceOnce(t, rle, data, m0, x, m, y, n);
        assert xs == xs0 + [x] && ys == ys0 + [y];
      }
    }
  }

  lemma {:induction false} PiecesRange(t: Table, rle: nat, data: seq<Byte>, p: nat, xs: seq<Piece>, q: nat)
    requires PiecesAt(t, rle, data, p, xs, q) && p <= 8 * |data|
    ensures p <= q <= 8 * |data|
  {
    hide SymbolAt, Value;
    if xs != [] {
      var before, last := xs[..|xs| - 1], xs[|xs| - 1];
      var m: nat :| PiecesAt(t, rle, data, p, before, m) && PieceAt(t, rle, data, m, last, q);
      PiecesRange(t, rle, data, p, before, m);
      SymbolRange(t, data, m, PieceSymbol(rle, last), if last.Entry? then q else q - last.bits);
    }
  }

  /** Pieces that are enough, or at whose end no piece stands, are all there are. */
  lemma EntriesOnce(t: Table, rle: nat, data: seq<Byte>, p: nat, size: nat, xs: seq<Piece>, m: nat, ys: seq<Piece>,
                    n: nat)
    requires PiecesAt(t, rle, data, p, xs, m) && ShortBefore(xs, size)
    requires |Entries(xs)| < size ==> NoPiece(t, rle, data, m)
    requires PiecesAt(t, rle, data, p, ys, n) && ShortBefore(ys, size)
    requires |xs| <= |ys|
    ensures xs == ys && m == n
  {
    hide PiecesAt, NoPiece, Entries;
    PiecesOnce(t, rle, data, p, xs, m, ys, n);
    if |xs| < |ys| {
      assert ys[..|xs|] == xs;
      ShortInside(xs, ys, size);
      assert false;
    }
  }

  lemma ShortInside(xs: seq<Piece>, ys: seq<Piece>, size: nat)
    requires xs <= ys && |xs| < |ys| && ShortBefore(ys, size)
    ensures |Entries(xs)| < size
  {
    assert ys[..|xs|] == xs;
  }

  lemma RunSymbolsAhead(data: seq<Byte>, p: nat, rle: nat, q: nat)
    ensures RunSymbols(data, p, rle, q) ==> p < q
  {
  }

  lemma RunSymbolsOnce(data: seq<Byte>, p: nat, rle: nat, q: nat, rle': nat, q': nat)
    requires RunSymbols(data, p, rle, q) && RunSymbols(data, p, rle', q')
    ensures rle == rle' && q == q' && p + 1 <= q <= 8 * |data|
  {
  }

  /** The bits at a place are one map, or none; so what ReadContextMap returns is all in the
      input. */
  lemma MapOnce(data: seq<Byte>, p: nat, size: nat, ntrees: nat, mapped: seq<Byte>, q: nat, tr: Trace,
                mapped': seq<Byte>, q': nat, tr': Trace)
    requires MapWritten(data, p, size, ntrees, mapped, q, tr) && MapWritten(data, p, size, ntrees, mapped', q', tr')
    ensures mapped == mapped' && q == q' && (p <= 8 * |data| ==> p <= q <= 8 * |data|)
  {
    hide PiecesAt, Entries, ShortBefore, Written, Undone, RunSymbols, NoPiece, Bit, AsBytes;
    if ntrees < 2 {
      SameBytes(Copies(0, size), mapped, mapped');
    } else {
      RunSymbolsOnce(data, p, tr.rle, tr.start, tr'.rle, tr'.start);
      WrittenOnce(data, tr.start, ntrees + tr.rle, tr.t, tr.codeEnd, tr'.t, tr'.codeEnd);
      WrittenComplete(data, tr.start, ntrees + tr.rle, tr.t.value, tr.codeEnd);
      if |tr.xs| <= |tr'.xs| {
        EntriesOnce(tr.t.value, tr.rle, data, tr.codeEnd, size, tr.xs, tr.end, tr'.xs, tr'.end);
      } else {
        EntriesOnce(tr.t.value, tr.rle, data, tr.codeEnd, size, tr'.xs, tr'.end, tr.xs, tr.end);
      }
      PiecesRange(tr.t.value, tr.rle, data, tr.codeEnd, tr.xs, tr.end);
      var b1 :| AsBytes(Entries(tr.xs), b1) && mapped == if Bit(data, tr.end) == 1 then Undone(b1) else b1;
      var b2 :| AsBytes(Entries(tr.xs), b2) && mapped' == if Bit(data, tr.end) == 1 then Undone(b2) else b2;
      SameBytes(Entries(tr.xs), b1, b2);
    }
  }

  lemma {:induction false} PiecesBelow(t: Table, rle: nat, data: seq<Byte>, p: nat, xs: seq<Piece>, q: nat, ntrees: nat)
    requires PiecesAt(t, rle, data, p, xs, q) && Complete(t, ntrees + rle) && ntrees >= 1
    ensures AllBelow(Entries(xs), ntrees)
  {
    hide SymbolAt, Value, Complete, Pow2;
    if xs != [] {
      var before, last := xs[..|xs| - 1], xs[|xs| - 1];
      var m: nat :| PiecesAt(t, rle, data, p, before, m) && PieceAt(t, rle, data, m, last, q);
      PiecesBelow(t, rle, data, p, before, m, ntrees);
      if last.Entry? {
        CompleteReads(t, ntrees + rle, data, m, PieceSymbol(rle, last), q);
      }
    }
  }

  /** Every entry of a map is one of the codes. */
  lemma MapBelow(data: seq<Byte>, p: nat, size: nat, ntrees: nat, mapped: seq<Byte>, q: nat, tr: Trace)
    requires MapWritten(data, p, size, ntrees, mapped, q, tr) && 1 <= ntrees <= BYTES
    ensures |mapped| == size && forall i :: 0 <= i < size ==> mapped[i] < ntrees
  {
    hide PiecesAt, Entries, ShortBefore, Written, Undone, RunSymbols, Bit, Complete;
    if ntrees >= 2 {
      WrittenComplete(data, tr.start, ntrees + tr.rle, tr.t.value, tr.codeEnd);
      PiecesBelow(tr.t.value, tr.rle, data, tr.codeEnd, tr.xs, tr.end, ntrees);
      var bytes :| AsBytes(Entries(tr.xs), bytes) && mapped == if Bit(data, tr.end) == 1 then Undone(bytes) else bytes;
      UndoneBelow(bytes, ntrees);
    }
  }

  lemma SameBytes(vs: seq<nat>, a: seq<Byte>, b: seq<Byte>)
    requires AsBytes(vs, a) && AsBytes(vs, b)
    ensures a == b
  {
  }

  lemma WrittenNotRefused(data: seq<Byte>, p: nat, size: nat, ntrees: nat, mapped: seq<Byte>, q: nat, tr: Trace,
                          tr': Trace)
    requires MapWritten(data, p, size, ntrees, mapped, q, tr)
    ensures !MapRefused(data, p, size, ntrees, tr')
  {
    hide PiecesAt, Entries, ShortBefore, Written, Undone, NoPiece, AsBytes;
    if MapRefused(data, p, size, ntrees, tr') {
      assert RunSymbols(data, p, tr'.rle, tr'.start);
      RunSymbolsOnce(data, p, tr.rle, tr.start, tr'.rle, tr'.start);
      WrittenOnce(data, tr.start, ntrees + tr.rle, tr.t, tr.codeEnd, tr'.t, tr'.codeEnd);
      if |tr.xs| <= |tr'.xs| {
        EntriesOnce(tr.t.value, tr.rle, data, tr.codeEnd, size, tr.xs, tr.end, tr'.xs, tr'.end);
      } else {
        EntriesOnce(tr.t.value, tr.rle, data, tr.codeEnd, size, tr'.xs, tr'.end, tr.xs, tr.end);
      }
      assert false;
    }
  }

  // ------------------------------------------------------------------ reading a map

  method ReadRunSymbols(b: Bits) returns (r: Option<nat>)
    requires b.Valid()
    modifies b
    ensures b.Valid() && old(b.At()) <= b.At()
    ensures r.Some? ==> r.value <= 16 && RunSymbols(b.data, old(b.At()), r.value, b.At())
    ensures r.None? ==> var p := old(b.At());
      p + 5 > 8 * |b.data| && (p + 1 > 8 * |b.data| || Bit(b.data, p) == 1)
  {
    var more := b.Read(1);
    if more.None? {
      return None;
    }
    OneBit(b.data, b.At() - 1);
    if more.value == 0 {
      return Some(0);
    }
    var n := b.Read(4);
    if n.None? {
      return None;
    }
    assert Pow2(4) == 16;
    r := Some(n.value + 1);
  }

  method ToBytes(vs: seq<nat>, ntrees: nat) returns (bytes: seq<Byte>)
    requires AllBelow(vs, ntrees) && ntrees <= BYTES
    ensures AsBytes(vs, bytes)
  {
    bytes := [];
    for i := 0 to |vs|
      invariant |bytes| == i && forall k :: 0 <= k < i ==> vs[k] == bytes[k]
    {
      bytes := bytes + [vs[i]];
    }
  }

  /** A context map of size entries for ntrees codes: every entry is one of the codes. */
  method ReadContextMap(b: Bits, size: nat, ntrees: nat) returns (r: Option<seq<Byte>>, ghost tr: Trace)
    requires b.Valid() && 1 <= ntrees <= BYTES
    modifies b
    ensures b.Valid() && old(b.At()) <= b.At()
    ensures if r.Some? then MapWritten(b.data, old(b.At()), size, ntrees, r.value, b.At(), tr)
            else MapRefused(b.data, old(b.At()), size, ntrees, tr)
    ensures r.Some? ==> |r.value| == size && forall i :: 0 <= i < size ==> r.value[i] < ntrees
  {
    hide Represents, Complete, PiecesAt, ShortBefore, Entries, Written, Undone, RunSymbols, NoPiece, Value, Bit;
    ghost var p := b.At();
    tr := Trace(0, 0, None, 0, [], 0);
    if ntrees < 2 {
      var zeros := ToBytes(Copies(0, size), 1);
      return Some(zeros), tr;
    }
    var rle := ReadRunSymbols(b);
    if rle.None? {
      RunSymbolsAhead(b.data, p, 0, 0);
      return None, tr;
    }
    tr := tr.(rle := rle.value, start := b.At());
    ghost var t, e;
    var c;
    c, t, e := ReadCode(b, ntrees + rle.value);
    tr := tr.(t := t, codeEnd := e);
    if c.None? {
      return None, tr;
    }
    ghost var xs, q;
    var vs;
    vs, xs, q := ReadEntries(c.value, b, size, ntrees, rle.value, t.value);
    tr := tr.(xs := xs, end := q);
    if vs.None? {
      return None, tr;
    }
    var bytes := ToBytes(vs.value, ntrees);
    var undo := b.Read(1);
    if undo.None? {
      return None, tr;
    }
    OneBit(b.data, b.At() - 1);
    if undo.value == 1 {
      UndoneBelow(bytes, ntrees);
      var out := Undo(bytes);
      return Some(out), tr;
    }
    r := Some(bytes);
  }
}
