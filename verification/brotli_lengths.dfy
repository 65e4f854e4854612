/** How a prefix code is written in the stream (sections 3.4 and 3.5 of RFC 7932): simple codes,
    the code of code lengths, and code lengths with repeats. */
module BrotliLengths {
  import opened Wrappers
  import opened BrotliBits
  import opened BrotliCode

  // --------------------------------------------- the code for code-length lengths

  /** The lengths of the fixed code in which the lengths 0..5 are written. */
  const SMALL: Lengths := [2, 4, 3, 2, 2, 4]

  lemma SmallCount(n: nat, k: nat)
    requires k <= 6
    ensures n == 2 ==> CountOf(SMALL, n, k) == [0, 1, 1, 1, 2, 3, 3][k]
    ensures n == 3 ==> CountOf(SMALL, n, k) == [0, 0, 0, 1, 1, 1, 1][k]
    ensures n == 4 ==> CountOf(SMALL, n, k) == [0, 0, 1, 1, 1, 1, 2][k]
    ensures n == 1 ==> CountOf(SMALL, n, k) == 0
  {
    if k > 0 {
      SmallCount(n, k - 1);
    }
  }

  /** The canonical codes of this fixed code: 00 for 0, 01 for 3, 10 for 4, 110 for 2, 1110 for 1
      and 1111 for 5. */
  lemma SmallCodes()
    ensures Proper(SMALL)
    ensures Canon(SMALL, 0) == 0 && Canon(SMALL, 3) == 1 && Canon(SMALL, 4) == 2
    ensures Canon(SMALL, 2) == 6 && Canon(SMALL, 1) == 14 && Canon(SMALL, 5) == 15
    ensures var c := Counts(SMALL, 6);
      && FirstCode(c, 1) + c[1] == 0 && FirstCode(c, 2) + c[2] == 3 && FirstCode(c, 3) + c[3] == 7
  {
    var c := Counts(SMALL, 6);
    SmallCount(1, 6);
    SmallCount(2, 6);
    SmallCount(3, 6);
    SmallCount(4, 6);
    SmallCount(2, 0);
    SmallCount(2, 3);
    SmallCount(2, 4);
    SmallCount(3, 2);
    SmallCount(4, 1);
    SmallCount(4, 5);
    assert FirstCode(c, 1) == 0 && FirstCode(c, 2) == 0;
    assert FirstCode(c, 3) == 6;
    assert FirstCode(c, 4) == 14;
  }

  /** Two, three and four bits as a code. */
  lemma Codes(data: seq<Byte>, p: nat, n: nat)
    requires n <= 4 && p + n <= 8 * |data|
    ensures CodeAt(data, p, 0) == 0
    ensures n >= 1 ==> CodeAt(data, p, 1) == Bit(data, p)
    ensures n >= 2 ==> CodeAt(data, p, 2) == 2 * Bit(data, p) + Bit(data, p + 1)
    ensures n >= 3 ==> CodeAt(data, p, 3) == 2 * CodeAt(data, p, 2) + Bit(data, p + 2)
    ensures n >= 4 ==> CodeAt(data, p, 4) == 2 * CodeAt(data, p, 3) + Bit(data, p + 3)
  {
    if n >= 1 {
      assert CodeAt(data, p, 1) == 2 * CodeAt(data, p, 0) + Bit(data, p);
    }
  }

  lemma SmallStands(data: seq<Byte>, p: nat, v: nat)
    requires v < 6 && p + SMALL[v] <= 8 * |data| && CodeAt(data, p, SMALL[v]) == Canon(SMALL, v)
    ensures Reads(Canonical(SMALL), data, p, Some(v), p + SMALL[v])
  {
    hide CodeAt, Canon, Kraft;
    OneStands(SMALL, v, data, p);
    DecodesReads(SMALL, data, p, Some(v), p + SMALL[v]);
  }

  lemma SmallEnds(data: seq<Byte>, p: nat, n: nat)
    requires n <= 3 && p + n == 8 * |data|
    requires (n >= 2 ==> CodeAt(data, p, 2) == 3) && (n >= 3 ==> CodeAt(data, p, 3) == 7)
    ensures Reads(Canonical(SMALL), data, p, None, p)
  {
    hide CodeAt, FirstCode, Counts, Kraft;
    SmallCodes();
    assert forall m :: 1 <= m <= n ==> Past(SMALL, data, p, m);
    NoneStands(SMALL, data, p, n);
    DecodesReads(SMALL, data, p, None, p);
  }

  method ReadSmall(b: Bits) returns (r: Option<nat>)
    requires b.Valid()
    modifies b
    ensures b.Valid() && old(b.At()) <= b.At()
    ensures Reads(Canonical(SMALL), b.data, old(b.At()), r, if r.Some? then b.At() else old(b.At()))
  {
    hide CodeAt, Canon, Reads, Pow2, FirstCode, Counts, Value;
    ghost var data, p := b.data, b.At();
    SmallCodes();
    Codes(data, p, if p + 4 <= 8 * |data| then 4 else 8 * |data| - p);
    var x := b.Read(1);
    if x.None? {
      SmallEnds(data, p, 0);
      return None;
    }
    OneBit(data, p);
    var y := b.Read(1);
    if y.None? {
      SmallEnds(data, p, 1);
      return None;
    }
    OneBit(data, p + 1);
    if x.value == 0 {
      r := Some(if y.value == 1 then 3 else 0);
      SmallStands(data, p, r.value);
      return;
    }
    if y.value == 0 {
      SmallStands(data, p, 4);
      return Some(4);
    }
    var z := b.Read(1);
    if z.None? {
      SmallEnds(data, p, 2);
      return None;
    }
    OneBit(data, p + 2);
    if z.value == 0 {
      SmallStands(data, p, 2);
      return Some(2);
    }
    var w := b.Read(1);
    if w.None? {
      SmallEnds(data, p, 3);
      return None;
    }
    OneBit(data, p + 3);
    r := Some(if w.value == 1 then 5 else 1);
    SmallStands(data, p, r.value);
  }

  // ------------------------------------------------------------- weighing lengths

  /** The code space a code of length v takes. */
  function Weight(v: nat): nat
    requires v <= MAX_LENGTH
  {
    if v > 0 then Pow2(MAX_LENGTH - v) else 0
  }

  lemma {:induction false} KraftPrefix(a: Lengths, b: Lengths, k: nat)
    requires Proper(a) && Proper(b) && k <= |a| && k <= |b| && a[..k] == b[..k]
    ensures Kraft(a, k) == Kraft(b, k)
  {
    if k > 0 {
      assert a[..k - 1] == a[..k][..k - 1] && b[..k - 1] == b[..k][..k - 1];
      assert a[k - 1] == a[..k][k - 1] && b[k - 1] == b[..k][k - 1];
      KraftPrefix(a, b, k - 1);
    }
  }

  lemma {:induction false} KraftSet(lengths: Lengths, k: nat, v: nat, n: nat)
    requires Proper(lengths) && k < |lengths| && n <= |lengths| && lengths[k] == 0 && v <= MAX_LENGTH
    ensures Proper(lengths[k := v])
    ensures Kraft(lengths[k := v], n) == Kraft(lengths, n) + if k < n then Weight(v) else 0
    decreases n
  {
    if n > 0 {
      KraftSet(lengths, k, v, n - 1);
    }
  }

  function Copies(v: nat, n: nat): (r: Lengths)
    ensures |r| == n && forall i :: 0 <= i < n ==> r[i] == v
  {
    seq(n, _ => v)
  }

  lemma {:induction false} KraftCopies(a: Lengths, v: nat, n: nat)
    requires Proper(a) && v <= MAX_LENGTH
    ensures Kraft(a + Copies(v, n), |a| + n) == Kraft(a, |a|) + n * Weight(v)
  {
    hide Pow2;
    if n == 0 {
      assert a + Copies(v, 0) == a;
    } else {
      KraftCopies(a, v, n - 1);
      KraftPrefix(a + Copies(v, n), a + Copies(v, n - 1), |a| + n - 1);
      Spread(n - 1, 1, Weight(v));
    }
  }

  // -------------------------------------------------------------- the code length code

  const CL_ORDER: seq<nat> := [1, 2, 3, 4, 0, 5, 17, 6, 16, 7, 8, 9, 10, 11, 12, 13, 14, 15]

  /** Lengths 1 to 4, 0 and 5 come first, then 17, 6 and 16, then 7 to 15. */
  lemma OrderIs(i: nat)
    requires i < 18
    ensures CL_ORDER[i] == if i < 4 then i + 1 else if i == 4 then 0 else if i == 6 then 17 else if i == 8 then 16
      else if i == 5 then 5 else if i == 7 then 6 else i - 2
  {
  }

  lemma OrderIsOneToOne(i: nat, j: nat)
    requires i < 18 && j < 18 && CL_ORDER[i] == CL_ORDER[j]
    ensures i == j && CL_ORDER[i] < 18
  {
    var place := [4, 0, 1, 2, 3, 5, 7, 9, 10, 11, 12, 13, 14, 15, 16, 17, 8, 6];
    assert place[CL_ORDER[i]] == i && place[CL_ORDER[j]] == j;
  }

  /** The 18 lengths once the first n of vs have been put in, in the order of section 3.5. */
  function Placed(vs: seq<nat>, skip: nat, n: nat): (r: Lengths)
    requires n <= |vs| && skip + n <= 18
    ensures |r| == 18
  {
    if n == 0 then Copies(0, 18)
    else
      OrderIsOneToOne(skip + n - 1, skip + n - 1);
      Placed(vs, skip, n - 1)[CL_ORDER[skip + n - 1] := vs[n - 1]]
  }

  ghost predicate Small(vs: seq<nat>) { forall k :: 0 <= k < |vs| ==> vs[k] < 6 }

  /** The space the first n lengths leave, of 32 units. */
  function Room(vs: seq<nat>, n: nat): int
    requires n <= |vs|
  {
    if n == 0 then 32 else Room(vs, n - 1) - if vs[n - 1] > 0 then 32 / Pow2(vs[n - 1]) else 0
  }

  function NonZero(vs: seq<nat>, n: nat): nat
    requires n <= |vs|
  {
    if n == 0 then 0 else NonZero(vs, n - 1) + if vs[n - 1] > 0 then 1 else 0
  }

  lemma SmallWeight(v: nat)
    requires v < 6
    ensures Weight(v) == 1024 * if v > 0 then 32 / Pow2(v) else 0
    ensures v > 0 ==> 1 <= 32 / Pow2(v) <= 16
  {
    assert Pow2(0) == 1 && Pow2(1) == 2 && Pow2(2) == 4 && Pow2(3) == 8 && Pow2(4) == 16 && Pow2(5) == 32;
    assert Pow2(10) == 1024;
    assert Pow2(11) == 2048 && Pow2(12) == 4096 && Pow2(13) == 8192 && Pow2(14) == 16384;
  }

  /** Each length goes to a place of its own, so the space left is what the Kraft sum leaves. */
  lemma {:induction false} PlacedSpace(vs: seq<nat>, skip: nat, n: nat)
    requires n <= |vs| && skip + n <= 18 && Small(vs)
    ensures Proper(Placed(vs, skip, n))
    ensures Kraft(Placed(vs, skip, n), 18) == 1024 * (32 - Room(vs, n))
    ensures forall i: nat :: skip + n <= i < 18 ==> CL_ORDER[i] < 18 && Placed(vs, skip, n)[CL_ORDER[i]] == 0
    ensures NonZero(vs, n) > 0 ==> Room(vs, n) < 32
    ensures NonZero(vs, n) <= 1 ==> Room(vs, n) >= 16
    ensures NonZero(vs, n) == 0 ==> Room(vs, n) == 32
  {
    hide Pow2, Weight;
    if n == 0 {
      NoWeight(18, 18);
      forall i: nat | skip <= i < 18 ensures CL_ORDER[i] < 18 {
        OrderIsOneToOne(i, i);
      }
    } else {
      PlacedSpace(vs, skip, n - 1);
      SmallWeight(vs[n - 1]);
      KraftSet(Placed(vs, skip, n - 1), CL_ORDER[skip + n - 1], vs[n - 1], 18);
      forall i: nat | skip + n <= i < 18 ensures CL_ORDER[i] < 18 && CL_ORDER[i] != CL_ORDER[skip + n - 1] {
        OrderIsOneToOne(i, i);
        if CL_ORDER[i] == CL_ORDER[skip + n - 1] {
          OrderIsOneToOne(i, skip + n - 1);
        }
      }
    }
  }

  lemma {:induction false} NoWeight(n: nat, k: nat)
    requires k <= n
    ensures Kraft(Copies(0, n), k) == 0
  {
    if k > 0 {
      NoWeight(n, k - 1);
    }
  }

  /** The symbols ss stand one after another from p to q. */
  ghost predicate Spelled(t: Table, data: seq<Byte>, p: nat, ss: seq<nat>, q: nat) {
    if ss == [] then q == p
    else
      var before, last := ss[..|ss| - 1], ss[|ss| - 1];
      exists m: nat :: Spelled(t, data, p, before, m) && SymbolAt(t, data, m, last, q)
  }

  lemma SpelledMore(t: Table, data: seq<Byte>, p: nat, ss: seq<nat>, m: nat, s: nat, q: nat)
    requires Spelled(t, data, p, ss, m) && SymbolAt(t, data, m, s, q)
    ensures Spelled(t, data, p, ss + [s], q)
  {
    hide SymbolAt;
    assert (ss + [s])[..|ss|] == ss;
  }

  /** No symbol of the table stands at p. */
  ghost predicate Dry(t: Table, data: seq<Byte>, p: nat) {
    forall s: nat, q: nat :: !SymbolAt(t, data, p, s, q)
  }

  lemma DryRead(t: Table, data: seq<Byte>, p: nat, q: nat)
    requires Reads(t, data, p, None, q)
    ensures Dry(t, data, p)
  {
  }

  /** What reading the lengths vs leads to: the reader goes on while there is space, and then
      has a lone symbol, a code without space left, or nothing. */
  ghost predicate LengthCode(vs: seq<nat>, skip: nat, r: Option<Code>, t: Table) {
    && Small(vs) && |vs| + skip <= 18
    && (r.Some? <==> NonZero(vs, |vs|) == 1 || Room(vs, |vs|) == 0)
    && (r.Some? ==> Represents(r.value, t) && Complete(t, 18))
    && (r.Some? && NonZero(vs, |vs|) != 1 ==> t == Canonical(Placed(vs, skip, |vs|)))
    && (r.Some? && NonZero(vs, |vs|) == 1 ==> t.Lone? && FirstOf(Placed(vs, skip, |vs|), t.symbol))
  }

  lemma AllUnused(lengths: Lengths)
    requires Proper(lengths) && forall k :: 0 <= k < |lengths| ==> lengths[k] == 0
    ensures Kraft(lengths, |lengths|) == 0
  {
    NoWeight(|lengths|, |lengths|);
    assert lengths == Copies(0, |lengths|);
  }

  ghost predicate FirstOf(lengths: Lengths, s: nat) {
    s < |lengths| && lengths[s] > 0 && forall k :: 0 <= k < s ==> lengths[k] == 0
  }

  /** The first symbol with a code. */
  method FirstUsed(lengths: Lengths) returns (s: nat)
    requires Proper(lengths) && Kraft(lengths, |lengths|) > 0
    ensures FirstOf(lengths, s)
  {
    s := 0;
    while s < |lengths| && lengths[s] == 0
      invariant s <= |lengths| && forall k :: 0 <= k < s ==> lengths[k] == 0
    {
      s := s + 1;
    }
    if s == |lengths| {
      AllUnused(lengths);
      assert false;
    }
  }

  /** The code of the code lengths: vs are the lengths read, up to q. */
  method ReadLengthCode(b: Bits, skip: nat) returns (r: Option<Code>, ghost t: Table, ghost vs: seq<nat>, ghost q: nat)
    requires b.Valid() && skip <= 3
    modifies b
    ensures b.Valid() && old(b.At()) <= q <= b.At()
    ensures Spelled(Canonical(SMALL), b.data, old(b.At()), vs, q)
    ensures |vs| + skip <= 18 && Small(vs) && forall k :: 0 <= k < |vs| ==> Room(vs, k) > 0
    ensures r.Some? ==> q == b.At()
    ensures if |vs| + skip == 18 || Room(vs, |vs|) <= 0 then LengthCode(vs, skip, r, t)
            else r.None? && Dry(Canonical(SMALL), b.data, q)
  {
    hide Reads, SymbolAt, Kraft, Placed, Proper, Small, Dry, Spelled, Complete, Represents;
    var cl := Copies(0, 18);
    var space, num, i: nat := 32, 0, skip;
    vs, q, t := [], b.At(), Lone(0);
    NothingRead(b.data, q, skip);
    while i < 18 && space > 0
      invariant b.Valid() && old(b.At()) <= q == b.At()
      invariant |vs| + skip == i <= 18 && Small(vs)
      invariant Spelled(Canonical(SMALL), b.data, old(b.At()), vs, q)
      invariant forall k :: 0 <= k < |vs| ==> Room(vs, k) > 0
      invariant cl == Placed(vs, skip, |vs|) && space == Room(vs, |vs|) && num == NonZero(vs, |vs|)
    {
      var v := ReadSmall(b);
      if v.None? {
        DryRead(Canonical(SMALL), b.data, q, q);
        return None, t, vs, q;
      }
      OneMoreLength(b.data, old(b.At()), vs, skip, q, v.value, b.At());
      cl := cl[CL_ORDER[i] := v.value];
      if v.value > 0 {
        space := space - 32 / Pow2(v.value);
        num := num + 1;
      }
      vs, q, i := vs + [v.value], b.At(), i + 1;
    }
    PlacedSpace(vs, skip, |vs|);
    if num != 1 && space != 0 {
      return None, t, vs, q;
    }
    var c := MakeCode(cl);
    t := Canonical(cl);
    if num == 1 {
      var s := FirstUsed(cl);
      LengthCodeComplete(c, cl, true, s);
      c := c.(single := Some(s));
      t := Lone(s);
    } else {
      LengthCodeComplete(c, cl, false, 0);
    }
    r := Some(c);
  }

  lemma NothingRead(data: seq<Byte>, p: nat, skip: nat)
    requires skip <= 18
    ensures Spelled(Canonical(SMALL), data, p, [], p) && Placed([], skip, 0) == Copies(0, 18) && Small([])
  {
  }

  /** A code over 18 symbols that has one symbol only, or that fills the space. */
  lemma LengthCodeComplete(c: Code, cl: Lengths, lone: bool, s: nat)
    requires |cl| == 18 && Represents(c, Canonical(cl)) && s < 18 && (!lone ==> Kraft(cl, 18) == FULL)
    ensures if lone then Represents(c.(single := Some(s)), Lone(s)) && Complete(Lone(s), 18)
            else Complete(Canonical(cl), 18)
  {
  }

  lemma OneMoreLength(data: seq<Byte>, p: nat, vs: seq<nat>, skip: nat, m: nat, v: nat, q: nat)
    requires Spelled(Canonical(SMALL), data, p, vs, m) && Reads(Canonical(SMALL), data, m, Some(v), q)
    requires |vs| + skip < 18 && Small(vs)
    ensures v < 6 && m <= q && Small(vs + [v]) && CL_ORDER[skip + |vs|] < 18
    ensures Spelled(Canonical(SMALL), data, p, vs + [v], q)
    ensures Placed(vs + [v], skip, |vs| + 1) == Placed(vs, skip, |vs|)[CL_ORDER[skip + |vs|] := v]
    ensures Room(vs + [v], |vs| + 1) == Room(vs, |vs|) - if v > 0 then 32 / Pow2(v) else 0
    ensures NonZero(vs + [v], |vs| + 1) == NonZero(vs, |vs|) + if v > 0 then 1 else 0
    ensures forall k :: 0 <= k <= |vs| ==> Room(vs + [v], k) == Room(vs, k)
  {
    hide CodeStandsAt;
    SpelledMore(Canonical(SMALL), data, p, vs, m, v, q);
    OrderIsOneToOne(skip + |vs|, skip + |vs|);
    forall k | 0 <= k <= |vs| ensures Room(vs + [v], k) == Room(vs, k) {
      Before(vs, v, skip, k);
    }
    Before(vs, v, skip, |vs|);
    StandsBelow(SMALL, v, data, m);
  }

  lemma {:induction false} Before(vs: seq<nat>, v: nat, skip: nat, n: nat)
    requires n <= |vs| && skip + n <= 18
    ensures Room(vs + [v], n) == Room(vs, n) && NonZero(vs + [v], n) == NonZero(vs, n)
    ensures Placed(vs + [v], skip, n) == Placed(vs, skip, n)
  {
    if n > 0 {
      Before(vs, v, skip, n - 1);
    }
  }

  // ------------------------------------------------------------ lengths with repeats

  /** What a symbol of the code length code says: one length, the last length that was not 0
      some times more, or a number of zeros. */
  datatype Token = Length(n: nat) | Again(e: nat) | Zeros(e: nat)

  ghost predicate ValidTokens(ts: seq<Token>) {
    forall k :: 0 <= k < |ts| ==> ts[k].Length? ==> ts[k].n <= MAX_LENGTH
  }

  predicate SameKind(a: Token, b: Token) {
    (a.Again? && b.Again?) || (a.Zeros? && b.Zeros?)
  }

  /** Repeats in a row that say the same count as one number: where those ending at n start. */
  function RunStart(ts: seq<Token>, n: nat): (i: nat)
    requires 1 <= n <= |ts|
    ensures i < n
  {
    if n >= 2 && SameKind(ts[n - 2], ts[n - 1]) then RunStart(ts, n - 1) else n - 1
  }

  function Base(t: Token): nat { if t.Again? then 4 else 8 }

  /** The count of the repeats i..n: each digit after the first makes it 4 or 8 times the count
      less 2, plus 3 and the digit. */
  function Total(ts: seq<Token>, i: nat, n: nat): (r: nat)
    requires i < n <= |ts| && forall k :: i <= k < n ==> !ts[k].Length?
    ensures r >= 3
  {
    3 + ts[n - 1].e + if n == i + 1 then 0 else Base(ts[n - 1]) * (Total(ts, i, n - 1) - 2)
  }

  /** The last length that is not 0 before the n-th token, 8 to begin with. */
  function LastLength(ts: seq<Token>, n: nat): nat
    requires n <= |ts|
  {
    if n == 0 then 8
    else if ts[n - 1].Length? && ts[n - 1].n > 0 then ts[n - 1].n
    else LastLength(ts, n - 1)
  }

  /** The lengths the first n tokens say. */
  function Meaning(ts: seq<Token>, n: nat): Lengths
    requires n <= |ts|
  {
    if n == 0 then []
    else if ts[n - 1].Length? then Meaning(ts, n - 1) + [ts[n - 1].n]
    else
      var i := RunStart(ts, n);
      RunIsRepeats(ts, n);
      Meaning(ts, i) + Copies(if ts[n - 1].Again? then LastLength(ts, i) else 0, Total(ts, i, n))
  }

  lemma {:induction false} RunIsRepeats(ts: seq<Token>, n: nat)
    requires 1 <= n <= |ts| && !ts[n - 1].Length?
    ensures forall k :: RunStart(ts, n) <= k < n ==> !ts[k].Length?
  {
    if n >= 2 && SameKind(ts[n - 2], ts[n - 1]) {
      RunIsRepeats(ts, n - 1);
    }
  }

  /** The count of the run that the first n tokens end in, 0 if they end in a length. */
  function RunCount(ts: seq<Token>, n: nat): nat
    requires n <= |ts|
  {
    if n == 0 || ts[n - 1].Length? then 0
    else
      RunIsRepeats(ts, n);
      Total(ts, RunStart(ts, n), n)
  }

  /** Repeats in a row: two extra bits each for the last length, three each for zeros. */
  ghost predicate Repeating(ts: seq<Token>, again: bool) {
    forall k :: 0 <= k < |ts| ==> if again then ts[k].Again? && ts[k].e < 4 else ts[k].Zeros? && ts[k].e < 8
  }

  lemma {:induction false} RepeatingRun(ts: seq<Token>, again: bool, n: nat)
    requires Repeating(ts, again) && 1 <= n <= |ts|
    ensures RunStart(ts, n) == 0
    ensures RunCount(ts, n) == 3 + ts[n - 1].e + if n == 1 then 0
      else (if again then 4 else 8) * (RunCount(ts, n - 1) - 2)
    ensures RunCount(ts, n) >= 3
  {
    if n > 1 {
      RepeatingRun(ts, again, n - 1);
    }
  }

  lemma {:induction false} RunCountBefore(ts: seq<Token>, x: Token, again: bool, n: nat)
    requires Repeating(ts + [x], again) && Repeating(ts, again) && 1 <= n <= |ts|
    ensures RunCount(ts + [x], n) == RunCount(ts, n)
  {
    RepeatingRun(ts + [x], again, n);
    RepeatingRun(ts, again, n);
    if n > 1 {
      RunCountBefore(ts, x, again, n - 1);
    }
  }

  /** Every count from 3 on is said by repeats in a row, of the last length and of zeros. */
  lemma {:induction false} CountHasRepeats(count: nat, again: bool) returns (ts: seq<Token>)
    requires count >= 3
    ensures ts != [] && Repeating(ts, again) && RunCount(ts, |ts|) == count
  {
    var base := if again then 4 else 8;
    var e := (count - 3) % base;
    var x := if again then Again(e) else Zeros(e);
    if count < 3 + base {
      ts := [x];
    } else {
      var before := CountHasRepeats((count - 3) / base + 2, again);
      ts := before + [x];
      RunCountBefore(before, x, again, |before|);
    }
    RepeatingRun(ts, again, |ts|);
  }

  lemma LastRepeat(ts: seq<Token>, again: bool)
    requires ts != [] && Repeating(ts, again)
    ensures var m, base := |ts| - 1, if again then 4 else 8;
      && ts == ts[..m] + [ts[m]] && Repeating(ts[..m], again) && 0 <= ts[m].e < base
      && ts[m] == (if again then Again(ts[m].e) else Zeros(ts[m].e))
      && if m == 0 then RunCount(ts, |ts|) == 3 + ts[m].e
         else RunCount(ts[..m], m) >= 3 && RunCount(ts, |ts|) == 3 + ts[m].e + base * (RunCount(ts[..m], m) - 2)
  {
    var m := |ts| - 1;
    RepeatingRun(ts, again, |ts|);
    assert ts == ts[..m] + [ts[m]];
    if m > 0 {
      RepeatingRun(ts[..m], again, m);
      RunCountBefore(ts[..m], ts[m], again, m);
    }
  }

  /** And in one way only. */
  lemma {:induction false} CountHasOne(a: seq<Token>, b: seq<Token>, again: bool)
    requires a != [] && b != [] && Repeating(a, again) && Repeating(b, again) && RunCount(a, |a|) == RunCount(b, |b|)
    ensures a == b
    decreases |a|
  {
    hide RunCount, Repeating;
    LastRepeat(a, again);
    LastRepeat(b, again);
    if |a| > 1 && |b| > 1 {
      CountHasOne(a[..|a| - 1], b[..|b| - 1], again);
    }
  }

  /** How many lengths the n-th token adds: what it makes the count of its run go up by. */
  function Added(ts: seq<Token>, n: nat): int
    requires 1 <= n <= |ts|
  {
    if ts[n - 1].Length? then 1
    else if n >= 2 && SameKind(ts[n - 2], ts[n - 1]) then RunCount(ts, n) - RunCount(ts, n - 1)
    else RunCount(ts, n)
  }

  function AddedValue(ts: seq<Token>, n: nat): nat
    requires 1 <= n <= |ts|
  {
    match ts[n - 1]
    case Length(v) => v
    case Again(_) => LastLength(ts, n - 1)
    case Zeros(_) => 0
  }

  lemma {:induction false} LastLengthInRun(ts: seq<Token>, n: nat)
    requires 1 <= n <= |ts| && !ts[n - 1].Length?
    ensures LastLength(ts, n - 1) == LastLength(ts, RunStart(ts, n))
  {
    if n >= 2 && SameKind(ts[n - 2], ts[n - 1]) {
      LastLengthInRun(ts, n - 1);
    }
  }

  /** The tokens can be taken one at a time: each adds its part of the run's count. */
  lemma MeaningStep(ts: seq<Token>, n: nat)
    requires 1 <= n <= |ts|
    ensures Added(ts, n) >= 1
    ensures Meaning(ts, n) == Meaning(ts, n - 1) + Copies(AddedValue(ts, n), Added(ts, n))
  {
    if !ts[n - 1].Length? {
      RunIsRepeats(ts, n);
      LastLengthInRun(ts, n);
      if n >= 2 && SameKind(ts[n - 2], ts[n - 1]) {
        RunIsRepeats(ts, n - 1);
        LastLengthInRun(ts, n - 1);
        assert Total(ts, RunStart(ts, n), n) >= Total(ts, RunStart(ts, n), n - 1) + 1;
      }
    }
  }

  /** One more token changes nothing of what those before it say. */
  lemma {:induction false} Stable(ts: seq<Token>, x: Token, n: nat)
    requires n <= |ts|
    ensures Meaning(ts + [x], n) == Meaning(ts, n) && LastLength(ts + [x], n) == LastLength(ts, n)
    ensures RunCount(ts + [x], n) == RunCount(ts, n)
    ensures n >= 1 ==> RunStart(ts + [x], n) == RunStart(ts, n)
    decreases n
  {
    if n > 0 {
      assert (ts + [x])[n - 1] == ts[n - 1];
      Stable(ts, x, n - 1);
      StableStart(ts, x, n);
      if !ts[n - 1].Length? {
        RunIsRepeats(ts, n);
        var i := RunStart(ts, n);
        Stable(ts, x, i);
        StableTotal(ts, x, i, n);
      }
    }
  }

  lemma {:induction false} StableStart(ts: seq<Token>, x: Token, n: nat)
    requires 1 <= n <= |ts|
    ensures RunStart(ts + [x], n) == RunStart(ts, n)
    decreases n
  {
    if n >= 2 {
      StableStart(ts, x, n - 1);
    }
  }

  lemma {:induction false} StableTotal(ts: seq<Token>, x: Token, i: nat, n: nat)
    requires i < n <= |ts| && forall k :: i <= k < n ==> !ts[k].Length?
    ensures forall k :: i <= k < n ==> !(ts + [x])[k].Length?
    ensures Total(ts + [x], i, n) == Total(ts, i, n)
    decreases n
  {
    if i + 1 < n {
      StableTotal(ts, x, i, n - 1);
    }
  }

  lemma {:induction false} ValuesValid(ts: seq<Token>, n: nat)
    requires n <= |ts| && ValidTokens(ts)
    ensures 1 <= LastLength(ts, n) <= MAX_LENGTH && Proper(Meaning(ts, n))
    decreases n
  {
    if n > 0 {
      ValuesValid(ts, n - 1);
      MeaningStep(ts, n);
    }
  }

  // -------------------------------------------------------------- reading the lengths

  /** The bits from p to q are this token: a symbol, and two or three bits for a repeat. */
  ghost predicate TokenAt(t: Table, data: seq<Byte>, p: nat, x: Token, q: nat) {
    match x
    case Length(n) => n <= MAX_LENGTH && SymbolAt(t, data, p, n, q)
    case Again(e) => q >= 2 && SymbolAt(t, data, p, 16, q - 2) && q <= 8 * |data| && e == Value(data, q - 2, 2)
    case Zeros(e) => q >= 3 && SymbolAt(t, data, p, 17, q - 3) && q <= 8 * |data| && e == Value(data, q - 3, 3)
  }

  ghost predicate TokensAt(t: Table, data: seq<Byte>, p: nat, ts: seq<Token>, q: nat) {
    if ts == [] then q == p
    else
      var before, last := ts[..|ts| - 1], ts[|ts| - 1];
      exists m: nat :: TokensAt(t, data, p, before, m) && TokenAt(t, data, m, last, q)
  }

  /** No token stands at p. */
  ghost predicate NoToken(t: Table, data: seq<Byte>, p: nat) {
    forall x: Token, q: nat :: !TokenAt(t, data, p, x, q)
  }

  lemma TokensMore(t: Table, data: seq<Byte>, p: nat, ts: seq<Token>, m: nat, x: Token, q: nat)
    requires TokensAt(t, data, p, ts, m) && TokenAt(t, data, m, x, q)
    ensures TokensAt(t, data, p, ts + [x], q)
  {
    hide TokenAt;
    assert (ts + [x])[..|ts|] == ts;
  }

  /** One token; the number of bits after symbol 16 is 2, after 17 it is 3. */
  method ReadToken(c: Code, b: Bits, ghost t: Table) returns (r: Option<Token>)
    requires b.Valid() && Represents(c, t) && Complete(t, 18)
    modifies b
    ensures b.Valid() && old(b.At()) <= b.At()
    ensures r.Some? ==> TokenAt(t, b.data, old(b.At()), r.value, b.At())
    ensures r.None? ==> NoToken(t, b.data, old(b.At()))
  {
    hide Represents, Kraft, Value;
    ghost var p := b.At();
    var s := ReadSymbol(c, b, t);
    if s.None? {
      return None;
    }
    CompleteReads(t, 18, b.data, p, s.value, b.At());
    if s.value < 16 {
      return Some(Length(s.value));
    }
    var e := b.Read(if s.value == 16 then 2 else 3);
    if e.None? {
      return None;
    }
    r := Some(if s.value == 16 then Again(e.value) else Zeros(e.value));
  }

  /** The lengths that tokens say go on to be read while there are symbols and space left. */
  ghost predicate Open(ts: seq<Token>, n: nat, size: nat)
    requires n <= |ts| && ValidTokens(ts)
  {
    ValuesValid(ts, n);
    |Meaning(ts, n)| < size && Kraft(Meaning(ts, n), |Meaning(ts, n)|) < FULL
  }

  ghost predicate OpenBefore(ts: seq<Token>, size: nat) {
    ValidTokens(ts) && forall k :: 0 <= k < |ts| ==> Open(ts, k, size)
  }

  /** The lengths the tokens end with fill the code space exactly, over no more symbols than
      there are. */
  ghost predicate Fills(ts: seq<Token>, size: nat) {
    && ValidTokens(ts)
    && var m := Meaning(ts, |ts|);
      |m| <= size && Proper(m) && Kraft(m, |m|) == FULL
  }

  /** The reader's variables after the tokens ts. */
  ghost predicate After(ts: seq<Token>, size: nat, lengths: Lengths, sym: nat, prev: nat, repeat: nat, rlen: nat,
                        space: int) {
    && OpenBefore(ts, size)
    && var m := Meaning(ts, |ts|);
      && sym == |m| <= size && Proper(m) && lengths == m + Copies(0, size - sym)
      && prev == LastLength(ts, |ts|)
      && repeat == RunCount(ts, |ts|) && (repeat > 0 ==> rlen == AddedValue(ts, |ts|))
      && space == FULL - Kraft(m, |m|)
  }

  lemma AddedValueValid(ts: seq<Token>, n: nat)
    requires ValidTokens(ts) && 1 <= n <= |ts|
    ensures AddedValue(ts, n) <= MAX_LENGTH
  {
    ValuesValid(ts, n - 1);
  }

  /** What the variables tell of the tokens: whether reading goes on, and whether the lengths
      fill the code space. */
  lemma AfterFacts(ts: seq<Token>, size: nat, lengths: Lengths, sym: nat, prev: nat, repeat: nat, rlen: nat, space: int)
    requires After(ts, size, lengths, sym, prev, repeat, rlen, space)
    ensures OpenBefore(ts, size) && ValidTokens(ts) && |lengths| == size && sym == |Meaning(ts, |ts|)| <= size
    ensures Open(ts, |ts|, size) <==> sym < size && space > 0
    ensures Fills(ts, size) <==> space == 0
    ensures lengths == Meaning(ts, |ts|) + Copies(0, size - |Meaning(ts, |ts|)|)
  {
    hide Kraft, Meaning, LastLength, RunCount, AddedValue;
  }

  lemma AfterNothing(t: Table, data: seq<Byte>, p: nat, size: nat)
    ensures TokensAt(t, data, p, [], p) && After([], size, Copies(0, size), 0, 8, 0, 0, FULL)
  {
  }

  lemma TokenValid(t: Table, data: seq<Byte>, p: nat, x: Token, q: nat)
    requires TokenAt(t, data, p, x, q)
    ensures x.Length? ==> x.n <= MAX_LENGTH
  {
  }

  /** Adding a token: what was there stays, and its lengths follow. */
  lemma AddToken(ts: seq<Token>, size: nat, x: Token)
    requires OpenBefore(ts, size) && Open(ts, |ts|, size) && (x.Length? ==> x.n <= MAX_LENGTH)
    ensures var next, n := ts + [x], |ts| + 1;
      && OpenBefore(next, size) && Added(next, n) >= 1 && AddedValue(next, n) <= MAX_LENGTH
      && Proper(Meaning(ts, |ts|)) && Proper(Meaning(next, n))
      && Meaning(next, n) == Meaning(ts, |ts|) + Copies(AddedValue(next, n), Added(next, n))
      && Kraft(Meaning(next, n), |Meaning(next, n)|)
         == Kraft(Meaning(ts, |ts|), |Meaning(ts, |ts|)|) + Added(next, n) * Weight(AddedValue(next, n))
  {
    hide Kraft, Weight, Meaning, LastLength, RunCount, Total, RunStart, AddedValue, Added;
    var next := ts + [x];
    forall k: nat | k < |next| ensures Open(next, k, size) {
      assert Open(ts, k, size);
      Stable(ts, x, k);
    }
    Stable(ts, x, |ts|);
    ValuesValid(ts, |ts|);
    ValuesValid(next, |next|);
    MeaningStep(next, |next|);
    AddedValueValid(next, |next|);
    KraftCopies(Meaning(ts, |ts|), AddedValue(next, |next|), Added(next, |next|));
  }

  /** A length. */
  lemma AddLength(ts: seq<Token>, size: nat, lengths: Lengths, sym: nat, prev: nat, repeat: nat, rlen: nat,
                  space: int, v: nat)
    requires After(ts, size, lengths, sym, prev, repeat, rlen, space) && sym < size && space > 0 && v <= MAX_LENGTH
    ensures After(ts + [Length(v)], size, lengths[sym := v], sym + 1,
                  if v > 0 then v else prev, 0, rlen, space - Weight(v))
  {
    hide Kraft, Weight, Meaning, RunStart, Total;
    var x := Length(v);
    AddToken(ts, size, x);
    Stable(ts, x, |ts|);
    var m := Meaning(ts, |ts|);
    assert (m + Copies(0, size - sym))[sym := v] == m + Copies(v, 1) + Copies(0, size - sym - 1);
  }

  /** What the count becomes when the last run goes on, and when a new one starts. */
  function NextCount(repeat: nat, x: Token): nat
    requires !x.Length? && (repeat == 0 || repeat >= 3)
  {
    (if repeat > 0 then (repeat - 2) * Base(x) else 0) + x.e + 3
  }

  /** A repeat. */
  lemma AddRepeat(ts: seq<Token>, size: nat, lengths: Lengths, sym: nat, prev: nat, repeat: nat, rlen: nat,
                  space: int, x: Token)
    requires After(ts, size, lengths, sym, prev, repeat, rlen, space) && sym < size && space > 0 && !x.Length?
    ensures repeat == 0 || repeat >= 3
    ensures var newLength := if x.Again? then prev else 0;
      var oldRepeat := if rlen != newLength then 0 else repeat;
      var next := NextCount(oldRepeat, x);
      var delta := next - oldRepeat;
      && delta > 0 && newLength <= MAX_LENGTH && OpenBefore(ts + [x], size)
      && delta == Added(ts + [x], |ts| + 1) && sym + delta == |Meaning(ts + [x], |ts| + 1)|
      && (sym + delta <= size ==>
        After(ts + [x], size, lengths[..sym] + Copies(newLength, delta) + lengths[sym + delta..],
              sym + delta, prev, next, newLength,
          space - delta * Weight(newLength)))
  {
    hide Kraft, Weight, Meaning, OpenBefore;
    var next := ts + [x];
    AfterFacts(ts, size, lengths, sym, prev, repeat, rlen, space);
    AddToken(ts, size, x);
    Stable(ts, x, |ts|);
    ValuesValid(ts, |ts|);
    CountInRun(ts, x);
    var newLength := if x.Again? then prev else 0;
    assert newLength == AddedValue(next, |next|);
    var d := Added(next, |next|);
    if sym + d <= size {
      var m := Meaning(ts, |ts|);
      assert lengths[..sym] == m && lengths[sym + d..] == Copies(0, size - sym - d);
    }
  }

  lemma NewRun(ts: seq<Token>, x: Token)
    requires ValidTokens(ts) && !x.Length? && (ts == [] || !SameKind(ts[|ts| - 1], x))
    ensures RunCount(ts + [x], |ts| + 1) == NextCount(0, x) == Added(ts + [x], |ts| + 1)
    ensures RunCount(ts, |ts|) > 0 ==> AddedValue(ts, |ts|) != AddedValue(ts + [x], |ts| + 1)
  {
    var next, n := ts + [x], |ts| + 1;
    if |ts| > 0 {
      assert next[n - 2] == ts[|ts| - 1] && next[n - 1] == x;
      ValuesValid(ts, |ts| - 1);
      Stable(ts, x, |ts|);
      if !ts[|ts| - 1].Length? {
        LastLengthInRun(ts, |ts|);
      }
    }
  }

  lemma SameRun(ts: seq<Token>, x: Token)
    requires ValidTokens(ts) && ts != [] && SameKind(ts[|ts| - 1], x)
    ensures RunCount(ts, |ts|) >= 3 && AddedValue(ts, |ts|) == AddedValue(ts + [x], |ts| + 1)
    ensures RunCount(ts + [x], |ts| + 1) == NextCount(RunCount(ts, |ts|), x)
    ensures Added(ts + [x], |ts| + 1) == RunCount(ts + [x], |ts| + 1) - RunCount(ts, |ts|)
  {
    var next, n := ts + [x], |ts| + 1;
    assert next[n - 2] == ts[|ts| - 1] && next[n - 1] == x;
    RunIsRepeats(ts, |ts|);
    Stable(ts, x, |ts|);
    LastLengthInRun(ts, |ts|);
    RunIsRepeats(next, n);
    StableTotal(ts, x, RunStart(ts, |ts|), |ts|);
  }

  /** A repeat goes on with the last run exactly when it repeats the same length. */
  lemma CountInRun(ts: seq<Token>, x: Token)
    requires !x.Length? && ValidTokens(ts)
    ensures RunCount(ts, |ts|) == 0 || RunCount(ts, |ts|) >= 3
    ensures var next, n := ts + [x], |ts| + 1;
      var goesOn := RunCount(ts, |ts|) > 0 && AddedValue(ts, |ts|) == AddedValue(next, n);
      var before := if goesOn then RunCount(ts, |ts|) else 0;
      && RunCount(next, n) == NextCount(before, x)
      && Added(next, n) == RunCount(next, n) - before
  {
    hide Added, AddedValue, NextCount;
    if ts != [] && SameKind(ts[|ts| - 1], x) {
      SameRun(ts, x);
    } else {
      NewRun(ts, x);
    }
  }

  /** Puts n copies of v at i. */
  method Fill(lengths: Lengths, i: nat, v: nat, n: nat) returns (r: Lengths)
    requires i + n <= |lengths|
    ensures r == lengths[..i] + Copies(v, n) + lengths[i + n..]
  {
    r := lengths;
    for k := 0 to n
      invariant r == lengths[..i] + Copies(v, k) + lengths[i + k..]
    {
      r := r[i + k := v];
    }
  }

  /** The count after a repeat, the length repeated and how many times it is repeated now. */
  method CountOn(x: Token, prev: nat, repeat: nat, rlen: nat) returns (count: nat, value: nat, delta: int)
    requires !x.Length? && (repeat == 0 || repeat >= 3)
    ensures value == if x.Again? then prev else 0
    ensures var before := if rlen != value then 0 else repeat; count == NextCount(before, x) && delta == count - before
  {
    value := if x.Again? then prev else 0;
    count := if rlen != value then 0 else repeat;
    var before := count;
    if count > 0 {
      count := (count - 2) * Base(x);
    }
    count := count + x.e + 3;
    delta := count - before;
  }

  method LessSpace(space: int, v: nat, n: nat) returns (r: int)
    requires v <= MAX_LENGTH
    ensures r == space - n * Weight(v)
  {
    r := if v > 0 then space - n * Pow2(MAX_LENGTH - v) else space;
  }

  /** Puts in the lengths that one token says; fails when there are not that many symbols. */
  method TakeToken(x: Token, size: nat, lengths: Lengths, sym: nat, prev: nat, repeat: nat, rlen: nat, space: int,
                   ghost ts: seq<Token>)
      returns (ok: bool, lengths': Lengths, sym': nat, prev': nat, repeat': nat, rlen': nat, space': int)
    requires After(ts, size, lengths, sym, prev, repeat, rlen, space) && sym < size && space > 0
    requires x.Length? ==> x.n <= MAX_LENGTH
    ensures OpenBefore(ts + [x], size)
    ensures ok ==> After(ts + [x], size, lengths', sym', prev', repeat', rlen', space') && sym < sym'
    ensures !ok ==> |Meaning(ts + [x], |ts| + 1)| > size
  {
    hide Kraft, Weight, Meaning, RunCount, LastLength, AddedValue, Added, OpenBefore, After;
    ok, lengths', sym', prev', repeat', rlen', space' := true, lengths, sym, prev, repeat, rlen, space;
    match x {
      case Length(v) =>
        AddLength(ts, size, lengths, sym, prev, repeat, rlen, space, v);
        AfterFacts(ts, size, lengths, sym, prev, repeat, rlen, space);
        AfterFacts(ts + [x], size, lengths[sym := v], sym + 1, if v > 0 then v else prev, 0, rlen, space - Weight(v));
        ShiftIsWeight(v);
        repeat' := 0;
        lengths' := lengths[sym := v];
        if v > 0 {
          prev', space' := v, space - FULL / Pow2(v);
        }
        sym' := sym + 1;
      case _ =>
        AddRepeat(ts, size, lengths, sym, prev, repeat, rlen, space, x);
        AfterFacts(ts, size, lengths, sym, prev, repeat, rlen, space);
        var delta;
        repeat', rlen', delta := CountOn(x, prev, repeat, rlen);
        if sym + delta > size {
          ok := false;
          return;
        }
        lengths' := Fill(lengths, sym, rlen', delta);
        sym' := sym + delta;
        space' := LessSpace(space, rlen', delta);
    }
  }

  /** The code lengths of size symbols: ts are the tokens read, up to q. Reading goes on while
      there are symbols and space left; it succeeds exactly when the lengths then fill the
      code space. */
  method ReadLengths(c: Code, b: Bits, size: nat, ghost t: Table)
      returns (r: Option<Lengths>, ghost ts: seq<Token>, ghost q: nat)
    requires b.Valid() && Represents(c, t) && Complete(t, 18)
    modifies b
    ensures b.Valid() && old(b.At()) <= q <= b.At()
    ensures TokensAt(t, b.data, old(b.At()), ts, q) && OpenBefore(ts, size)
    ensures r.Some? <==> Fills(ts, size)
    ensures r.Some? ==> q == b.At() && r.value == Meaning(ts, |ts|) + Copies(0, size - |Meaning(ts, |ts|)|)
    ensures Open(ts, |ts|, size) ==> NoToken(t, b.data, q)
  {
    hide Represents, Complete, Kraft, Weight, Meaning, RunCount, LastLength, AddedValue, Added, OpenBefore, TokensAt,
      TokenAt, NoToken, After;
    var lengths: Lengths := Copies(0, size);
    var sym: nat, prev: nat, repeat: nat, rlen: nat := 0, 8, 0, 0;
    var space: int := FULL;
    ts, q := [], b.At();
    AfterNothing(t, b.data, q, size);
    while sym < size && space > 0
      invariant b.Valid() && old(b.At()) <= q == b.At()
      invariant TokensAt(t, b.data, old(b.At()), ts, q)
      invariant After(ts, size, lengths, sym, prev, repeat, rlen, space) && sym <= size && |lengths| == size
      decreases size - sym
    {
      var x := ReadToken(c, b, t);
      if x.None? {
        AfterFacts(ts, size, lengths, sym, prev, repeat, rlen, space);
        return None, ts, q;
      }
      TokensMore(t, b.data, old(b.At()), ts, q, x.value, b.At());
      TokenValid(t, b.data, q, x.value, b.At());
      q := b.At();
      var ok;
      ok, lengths, sym, prev, repeat, rlen, space := TakeToken(x.value, size, lengths, sym, prev, repeat, rlen, space,
        ts);
      ts := ts + [x.value];
      if !ok {
        return None, ts, q;
      }
      AfterFacts(ts, size, lengths, sym, prev, repeat, rlen, space);
    }
    AfterFacts(ts, size, lengths, sym, prev, repeat, rlen, space);
    if space != 0 {
      return None, ts, q;
    }
    r := Some(lengths);
  }

  lemma ShiftIsWeight(v: nat)
    requires v <= MAX_LENGTH
    ensures Weight(v) == if v > 0 then FULL / Pow2(v) else 0
  {
    Pow2Sum(v, MAX_LENGTH - v);
    assert Pow2(MAX_LENGTH) == FULL;
    Quotient(Pow2(v), Pow2(MAX_LENGTH - v));
  }

  lemma Quotient(a: nat, b: nat)
    requires a > 0
    ensures a * b / a == b
  {
    Unique(a, b, 0, a * b / a, a * b % a);
  }
}
