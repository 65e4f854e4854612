/** Cluster values along a text and what merging a range of them does (cluster level 0, monotone
    graphemes; lib/ufont/tools/shapemodel.py). */
module BufferClusters {

  // ------------------------------------------------------------------ a merge

  /** The start of the run of equal values that a is in, as far back as lo. */
  function LeftRun(c: seq<int>, a: nat, lo: nat): (r: nat)
    requires a < |c|
    ensures r <= a
  {
    if a > lo && c[a - 1] == c[a] then LeftRun(c, a - 1, lo) else a
  }

  lemma {:induction false} LeftRunFacts(c: seq<int>, a: nat, lo: nat)
    requires a < |c|
    ensures var r := LeftRun(c, a, lo);
      && (forall k :: r <= k <= a ==> c[k] == c[a])
      && (r == 0 || r <= lo || c[r - 1] != c[a]) && (r < a ==> lo <= r)
  {
    if a > lo && c[a - 1] == c[a] {
      LeftRunFacts(c, a - 1, lo);
    }
  }

  /** The end of the run of equal values that ends at b or after. */
  function RightRun(c: seq<int>, b: nat): (r: nat)
    requires 1 <= b <= |c|
    ensures b <= r <= |c|
    decreases |c| - b
  {
    if b < |c| && c[b] == c[b - 1] then RightRun(c, b + 1) else b
  }

  lemma {:induction false} RightRunFacts(c: seq<int>, b: nat)
    requires 1 <= b <= |c|
    ensures var r := RightRun(c, b);
      (forall k :: b <= k < r ==> c[k] == c[b - 1]) && (r == |c| || c[r] != c[b - 1])
    decreases |c| - b
  {
    if b < |c| && c[b] == c[b - 1] {
      RightRunFacts(c, b + 1);
    }
  }

  /** The least value from a to b. */
  function MinOf(c: seq<int>, a: nat, b: nat): (m: int)
    requires a < b <= |c|
  {
    if b == a + 1 then c[a]
    else
      var m := MinOf(c, a, b - 1);
      if c[b - 1] < m then c[b - 1] else m
  }

  lemma {:induction false} MinFacts(c: seq<int>, a: nat, b: nat)
    requires a < b <= |c|
    ensures forall k :: a <= k < b ==> MinOf(c, a, b) <= c[k]
    ensures exists k :: a <= k < b && c[k] == MinOf(c, a, b)
    decreases b
  {
    if b == a + 1 {
      assert c[a] == MinOf(c, a, b);
    } else {
      MinFacts(c, a, b - 1);
      assert MinOf(c, a, b) == c[b - 1] || MinOf(c, a, b) == MinOf(c, a, b - 1);
    }
  }

  /** What a merge makes of the values, for all that is known of its span. */
  lemma SpanFacts(c: seq<int>, a: nat, b: nat, lo: nat)
    requires a < b <= |c|
    ensures var s, e, m := LeftRun(c, a, lo), RightRun(c, b), MinOf(c, a, b);
      && s <= a < b <= e <= |c|
      && (forall k :: s <= k <= a ==> c[k] == c[a]) && (s == 0 || s <= lo || c[s - 1] != c[a])
      && (forall k :: b <= k < e ==> c[k] == c[b - 1]) && (e == |c| || c[e] != c[b - 1])
      && (forall k :: a <= k < b ==> m <= c[k]) && (exists k :: a <= k < b && c[k] == m)
  {
    LeftRunFacts(c, a, lo);
    RightRunFacts(c, b);
    MinFacts(c, a, b);
  }

  function Filled(c: seq<int>, a: nat, b: nat, m: int): (r: seq<int>)
    requires a <= b <= |c|
    ensures |r| == |c| && forall k :: 0 <= k < |c| ==> r[k] == if a <= k < b then m else c[k]
  {
    seq(|c|, k requires 0 <= k < |c| => if a <= k < b then m else c[k])
  }

  /** Values a to b, and all that share a value with the first (as far back as lo) or the last of
      them, become the least of them. */
  function Merged(c: seq<int>, a: nat, b: nat, lo: nat): (r: seq<int>)
    requires a <= b <= |c|
    ensures |r| == |c|
  {
    if b - a < 2 then c else Filled(c, LeftRun(c, a, lo), RightRun(c, b), MinOf(c, a, b))
  }

  lemma MergedShort(c: seq<int>, a: nat, b: nat, lo: nat)
    requires a <= b <= |c|
    ensures b - a < 2 ==> Merged(c, a, b, lo) == c
  {
  }

  /** A run found by looking back value by value. */
  lemma {:induction false} LeftRunIs(c: seq<int>, a: nat, lo: nat, r: nat)
    requires r <= a < |c| && (forall k :: r <= k <= a ==> c[k] == c[a])
    requires (r == 0 || r <= lo || c[r - 1] != c[a]) && (r < a ==> lo <= r)
    ensures r == LeftRun(c, a, lo)
  {
    if a > lo && c[a - 1] == c[a] {
      LeftRunIs(c, a - 1, lo, r);
    }
  }

  lemma {:induction false} LeftRunStart(c: seq<int>, o: seq<int>, a: nat, lo: nat)
    requires o <= c && a < |o|
    ensures LeftRun(c, a, lo) == LeftRun(o, a, lo)
  {
    if a > lo && c[a - 1] == c[a] {
      LeftRunStart(c, o, a - 1, lo);
    }
  }

  lemma {:induction false} RightRunIs(c: seq<int>, b: nat, r: nat)
    requires 1 <= b <= r <= |c| && (forall k :: b <= k < r ==> c[k] == c[b - 1]) && (r == |c| || c[r] != c[b - 1])
    ensures r == RightRun(c, b)
    decreases |c| - b
  {
    if b < |c| && c[b] == c[b - 1] {
      RightRunIs(c, b + 1, r);
    }
  }

  /** Where a range already has the least value at an end, the run there need not be looked for. */
  lemma MergedSpan(c: seq<int>, a: nat, b: nat, lo: nat, s: nat, e: nat)
    requires a + 2 <= b <= |c| && s <= a && b <= e <= |c|
    requires var m := MinOf(c, a, b);
      && (s == LeftRun(c, a, lo) || (s == a && c[a] == m))
      && (e == RightRun(c, b) || (e == b && c[b - 1] == m))
    ensures Filled(c, s, e, MinOf(c, a, b)) == Merged(c, a, b, lo)
  {
    hide LeftRun, RightRun, MinOf;
    SpanFacts(c, a, b, lo);
  }

  // ------------------------------------------------- a text in two parts

  /** d from q on is c from p on. */
  ghost predicate Same(c: seq<int>, p: nat, d: seq<int>, q: nat) {
    p <= |c| && q <= |d| && c[p..] == d[q..]
  }

  lemma SameAt(c: seq<int>, p: nat, d: seq<int>, q: nat, k: nat)
    requires Same(c, p, d, q) && q <= k < |d|
    ensures p + k - q < |c| && c[p + k - q] == d[k]
  {
    assert c[p..][k - q] == d[q..][k - q];
  }

  lemma {:induction false} MinSame(c: seq<int>, p: nat, d: seq<int>, q: nat, a: nat, b: nat)
    requires Same(c, p, d, q) && q <= a < b <= |d|
    ensures p + b - q <= |c| && MinOf(c, p + a - q, p + b - q) == MinOf(d, a, b)
    decreases b
  {
    SameAt(c, p, d, q, b - 1);
    if a + 1 < b {
      MinSame(c, p, d, q, a, b - 1);
    }
  }

  lemma {:induction false} RightSame(c: seq<int>, p: nat, d: seq<int>, q: nat, b: nat)
    requires Same(c, p, d, q) && q < b <= |d|
    ensures p + b - q <= |c| && RightRun(c, p + b - q) == p + RightRun(d, b) - q
    decreases |d| - b
  {
    SameAt(c, p, d, q, b - 1);
    assert |c| - p == |d| - q;
    if b < |d| {
      SameAt(c, p, d, q, b);
      if d[b] == d[b - 1] {
        RightSame(c, p, d, q, b + 1);
      }
    }
  }

  lemma {:induction false} LeftSame(c: seq<int>, p: nat, d: seq<int>, q: nat, a: nat)
    requires Same(c, p, d, q) && q <= a < |d|
    ensures p + a - q < |c| && q <= LeftRun(d, a, q) && LeftRun(c, p + a - q, p) == p + LeftRun(d, a, q) - q
    decreases a
  {
    SameAt(c, p, d, q, a);
    if a > q {
      SameAt(c, p, d, q, a - 1);
      if d[a - 1] == d[a] {
        LeftSame(c, p, d, q, a - 1);
      }
    }
  }

  /** Looking back to lo is looking back to mid and then on from there. */
  lemma {:induction false} LeftFarther(c: seq<int>, a: nat, mid: nat, lo: nat)
    requires lo <= mid <= a < |c|
    ensures var s := LeftRun(c, a, mid); s >= mid && LeftRun(c, a, lo) == if s > mid then s else LeftRun(c, mid, lo)
    decreases a
  {
    if a > mid && c[a - 1] == c[a] {
      LeftFarther(c, a - 1, mid, lo);
    }
  }

  /** Filling the end of one part and a range of the other, right after it if any, fills one range
      of both. */
  lemma FilledInBoth(o: seq<int>, d: seq<int>, idx: nat, i: nat, s: nat, e: nat, m: int)
    requires i <= |o| && idx <= s <= e <= |d| && (i < |o| ==> s == idx)
    ensures Filled(o, i, |o|, m) + Filled(d, s, e, m)[idx..]
         == Filled(o + d[idx..], if i < |o| then i else |o| + s - idx, |o| + e - idx, m)
  {
    var l := Filled(o, i, |o|, m) + Filled(d, s, e, m)[idx..];
    var r := Filled(o + d[idx..], if i < |o| then i else |o| + s - idx, |o| + e - idx, m);
    forall k: nat | k < |l| ensures l[k] == r[k] {
      if k >= |o| {
        assert l[k] == Filled(d, s, e, m)[k - |o| + idx] && (o + d[idx..])[k] == d[k - |o| + idx];
      }
    }
  }

  /** The run found back to the start of the second part, and on in the first one from there. */
  lemma LeftInBoth(o: seq<int>, d: seq<int>, idx: nat, a: nat, s: nat, i: nat)
    requires idx <= a < |d| && i <= |o| && s == LeftRun(d, a, idx)
    requires if s == idx then (forall k :: i <= k < |o| ==> o[k] == d[a]) && (i == 0 || o[i - 1] != d[a]) else i == |o|
    ensures LeftRun(o + d[idx..], |o| + a - idx, 0) == if i < |o| then i else |o| + s - idx
  {
    hide LeftRun;
    var c, p := o + d[idx..], |o|;
    LeftSame(c, p, d, idx, a);
    LeftFarther(c, p + a - idx, p, 0);
    if s == idx {
      assert c[p] == d[idx] == d[a] by {
        SameAt(c, p, d, idx, idx);
        LeftRunFacts(d, a, idx);
      }
      assert forall k :: 0 <= k < p ==> c[k] == o[k];
      LeftRunIs(c, p, 0, i);
    }
  }

  /** The runs that are found in the two parts one after the other are the runs of the text. */
  lemma MergedInBoth(o: seq<int>, d: seq<int>, idx: nat, a: nat, b: nat, s: nat, e: nat, i: nat)
    requires idx <= a && a + 2 <= b <= |d| && i <= |o|
    requires var m := MinOf(d, a, b);
      && s == (if m != d[a] then LeftRun(d, a, idx) else a)
      && e == (if m != d[b - 1] then RightRun(d, b) else b)
      && (if s == idx && m != d[a] then (forall k :: i <= k < |o| ==> o[k] == d[a]) && (i == 0 || o[i - 1] != d[a])
         else i == |o|)
    ensures idx <= s <= e <= |d|
    ensures Filled(o, i, |o|, MinOf(d, a, b)) + Filled(d, s, e, MinOf(d, a, b))[idx..]
         == Merged(o + d[idx..], |o| + a - idx, |o| + b - idx, 0)
  {
    hide Filled, Merged, MinOf, LeftRun, RightRun;
    var c, m, p := o + d[idx..], MinOf(d, a, b), |o|;
    assert Same(c, p, d, idx);
    MinSame(c, p, d, idx, a, b);
    RightSame(c, p, d, idx, b);
    SameAt(c, p, d, idx, a);
    SameAt(c, p, d, idx, b - 1);
    if m != d[a] {
      LeftInBoth(o, d, idx, a, s, i);
      LeftSame(c, p, d, idx, a);
    }
    hide Same;
    FilledInBoth(o, d, idx, i, s, e, m);
    MergedSpan(c, p + a - idx, p + b - idx, 0, if i < p then i else p + s - idx, p + e - idx);
  }

  lemma {:induction false} MinStart(c: seq<int>, o: seq<int>, a: nat, b: nat)
    requires o <= c && a < b <= |o|
    ensures MinOf(c, a, b) == MinOf(o, a, b)
    decreases b
  {
    if a + 1 < b {
      MinStart(c, o, a, b - 1);
    }
  }

  lemma FilledFromOut(o: seq<int>, d: seq<int>, idx: nat, s: nat, e: nat, j: nat, m: int)
    requires idx <= j <= |d| && s <= e <= |o| && (e < |o| ==> j == idx)
    ensures Filled(o, s, e, m) + Filled(d, idx, j, m)[idx..] == Filled(o + d[idx..], s, e + j - idx, m)
  {
    var l, r := Filled(o, s, e, m) + Filled(d, idx, j, m)[idx..], Filled(o + d[idx..], s, e + j - idx, m);
    forall k: nat | k < |l| ensures l[k] == r[k] {
      if k >= |o| {
        assert l[k] == Filled(d, idx, j, m)[k - |o| + idx] && (o + d[idx..])[k] == d[k - |o| + idx];
      }
    }
  }

  /** The run that starts in the first part and goes on in the other. */
  lemma RightInBoth(o: seq<int>, d: seq<int>, idx: nat, b: nat, j: nat)
    requires 1 <= b <= |o| && idx <= j <= |d|
    requires var e := RightRun(o, b);
      if e == |o| then (forall k :: idx <= k < j ==> d[k] == o[e - 1]) && (j == |d| || d[j] != o[e - 1]) else j == idx
    ensures RightRun(o + d[idx..], b) == RightRun(o, b) + j - idx
  {
    hide RightRun;
    var c, e := o + d[idx..], RightRun(o, b);
    RightRunFacts(o, b);
    forall k | b <= k < e + j - idx ensures c[k] == c[b - 1] {
      if k >= |o| {
        assert c[k] == d[k - |o| + idx];
      }
    }
    if e == |o| && j < |d| {
      assert c[e + j - idx] == d[j];
    }
    RightRunIs(c, b, e + j - idx);
  }

  lemma MergedFromOut(o: seq<int>, d: seq<int>, idx: nat, a: nat, b: nat, s: nat, e: nat, j: nat)
    requires a + 2 <= b <= |o| && idx <= j <= |d| && s == LeftRun(o, a, 0) && e == RightRun(o, b)
    requires if e == |o| then (forall k :: idx <= k < j ==> d[k] == o[e - 1]) && (j == |d| || d[j] != o[e - 1])
      else j == idx
    ensures Filled(o, s, e, MinOf(o, a, b)) + Filled(d, idx, j, MinOf(o, a, b))[idx..] == Merged(o + d[idx..], a, b, 0)
  {
    hide Filled, Merged, MinOf, LeftRun, RightRun;
    var c := o + d[idx..];
    MinStart(c, o, a, b);
    LeftRunStart(c, o, a, 0);
    RightInBoth(o, d, idx, b, j);
    FilledFromOut(o, d, idx, s, e, j, MinOf(o, a, b));
    MergedSpan(c, a, b, 0, s, e + j - idx);
  }

  // ---------------------------------------------------------------- taking a glyph away

  /** What taking away the glyph at k does to the values: where the glyph after it does not share
      its value, the run before it gets it if it is less, and with nothing before it the glyph
      after it is merged with it. */
  function Kept(c: seq<int>, k: nat): (r: seq<int>)
    requires k < |c|
    ensures |r| == |c|
  {
    if k + 1 < |c| && c[k + 1] == c[k] then c
    else if k > 0 then (if c[k] < c[k - 1] then Filled(c, LeftRun(c, k - 1, 0), k, c[k]) else c)
    else if k + 1 < |c| then Merged(c, k, k + 2, 0)
    else c
  }

  function Without<T>(s: seq<T>, k: nat): seq<T>
    requires k < |s|
  {
    s[..k] + s[k + 1..]
  }

  /** Without output the glyph is not taken away, but it is merged with the one after it. */
  function PassedOver(c: seq<int>, k: nat): (r: seq<int>)
    requires k < |c|
    ensures |r| == |c|
  {
    if k + 1 < |c| && c[k + 1] != c[k] then Merged(c, k, k + 2, k) else c
  }

  /** Both then have the lesser value, and so does all that shared one of their values, from the
      glyph on; the last glyph has nothing to be merged with. */
  lemma PassedOverShares(c: seq<int>, k: nat)
    requires k < |c|
    ensures k + 1 == |c| ==> PassedOver(c, k) == c
    ensures k + 1 < |c| ==>
      var m := if c[k] < c[k + 1] then c[k] else c[k + 1];
      && PassedOver(c, k)[k] == PassedOver(c, k)[k + 1] == m
      && (forall x :: 0 <= x < k ==> PassedOver(c, k)[x] == c[x])
      && forall x :: k + 1 < x < |c| ==>
           PassedOver(c, k)[x] == if forall y :: k + 1 <= y <= x ==> c[y] == c[k + 1] then m else c[x]
  {
    if k + 1 < |c| {
      SpanFacts(c, k, k + 2, k);
    }
  }

  function Deleted(c: seq<int>, k: nat): (r: seq<int>)
    requires k < |c|
    ensures |r| == |c| - 1
  {
    Without(Kept(c, k), k)
  }

  /** Two values that stay away from the glyph, one of them the least of all. */
  ghost predicate LeastStays(c: seq<int>, d: seq<int>, k: nat) {
    |d| == |c| && (|c| > 0 ==> MinOf(d, 0, |c|) == MinOf(c, 0, |c|)
                               && (|c| > 1 ==> exists i :: 0 <= i < |c| && i != k && d[i] == MinOf(c, 0, |c|)))
  }

  lemma KeptBefore(c: seq<int>, k: nat, up: bool)
    requires 0 < k < |c| && c[k] < c[k - 1] && Monotone(c, up)
    ensures var d := Filled(c, LeftRun(c, k - 1, 0), k, c[k]);
      Monotone(d, up) && !Separates(c, d) && LeastStays(c, d, k)
  {
    hide LeftRun, MinOf, Monotone, LeastStays;
    var s := LeftRun(c, k - 1, 0);
    var d := Filled(c, s, k, c[k]);
    LeftRunFacts(c, k - 1, 0);
    assert Monotone(d, up) by {
      FilledMonotone(c, s, k, up);
    }
    forall x, y | 0 <= x < y < |c| ensures c[x] == c[y] ==> d[x] == d[y] {
      if x < s <= y {
        DifferAcross(c, x, y, s, up);
      }
      if x < k <= y {
        DifferAcross(c, x, y, k, up);
      }
    }
    FilledLeast(c, s, k);
  }

  /** A run before a smaller value takes that value: still monotone. */
  lemma FilledMonotone(c: seq<int>, s: nat, k: nat, up: bool)
    requires s < k < |c| && c[k] < c[k - 1] && Monotone(c, up)
    ensures Monotone(Filled(c, s, k, c[k]), up)
  {
    assert !up;
  }

  lemma FilledLeast(c: seq<int>, s: nat, k: nat)
    requires s < k < |c| && forall x :: s <= x < k ==> c[x] > c[k]
    ensures LeastStays(c, Filled(c, s, k, c[k]), k)
  {
    hide MinOf;
    var d := Filled(c, s, k, c[k]);
    MinFacts(c, 0, |c|);
    MinFacts(d, 0, |c|);
    var i :| 0 <= i < |c| && c[i] == MinOf(c, 0, |c|);
    assert d[k - 1] == c[k] && d[i] == c[i];
  }

  lemma DifferAcross(c: seq<int>, x: nat, y: nat, k: nat, up: bool)
    requires Monotone(c, up) && x < k <= y < |c| && c[k - 1] != c[k]
    ensures c[x] != c[y]
  {
  }

  lemma KeptByNeighbour(c: seq<int>, k: nat, j: nat)
    requires k < |c| && j < |c| && j != k && c[j] <= c[k]
    ensures LeastStays(c, c, k)
  {
    hide MinOf;
    MinFacts(c, 0, |c|);
    var i :| 0 <= i < |c| && c[i] == MinOf(c, 0, |c|);
    assert c[if i == k then j else i] == MinOf(c, 0, |c|);
  }

  lemma KeptByMerge(c: seq<int>, up: bool)
    requires 1 < |c| && Monotone(c, up)
    ensures var d := Merged(c, 0, 2, 0); Monotone(d, up) && !Separates(c, d) && LeastStays(c, d, 0)
  {
    hide Merged, MinOf;
    var d := Merged(c, 0, 2, 0);
    MergedMonotone(c, 0, 2, 0, up);
    SeparatesWhenCut(c, 0, 2, 0, up);
    NeverCutsFromStart(c, 0, 2);
    MergedLeast(c, 0, 2, 0);
    MergedShares(c, 0, 2, 0);
    KeptByNeighbour(d, 0, 1);
  }

  /** Taking a glyph away keeps values monotone, separates none that stay, and leaves the least
      value of the text what it was. */
  lemma KeptFacts(c: seq<int>, k: nat, up: bool)
    requires k < |c| && Monotone(c, up)
    ensures Monotone(Kept(c, k), up) && !Separates(c, Kept(c, k)) && LeastStays(c, Kept(c, k), k)
  {
    hide Merged, LeftRun, MinOf, Filled;
    if k + 1 < |c| && c[k + 1] == c[k] {
      KeptByNeighbour(c, k, k + 1);
    } else if k > 0 {
      if c[k] < c[k - 1] {
        KeptBefore(c, k, up);
      } else {
        KeptByNeighbour(c, k, k - 1);
      }
    } else if k + 1 < |c| {
      KeptByMerge(c, up);
    }
  }

  lemma MergedShares(c: seq<int>, a: nat, b: nat, lo: nat)
    requires a + 2 <= b <= |c|
    ensures forall k :: a <= k < b ==> Merged(c, a, b, lo)[k] == MinOf(c, a, b)
  {
  }

  /** What the text without the glyph is: monotone, with the same least value. */
  lemma DeletedFacts(c: seq<int>, k: nat, up: bool)
    requires k < |c| && Monotone(c, up)
    ensures Monotone(Deleted(c, k), up)
    ensures |c| > 1 ==> MinOf(Deleted(c, k), 0, |c| - 1) == MinOf(c, 0, |c|)
  {
    hide Kept, MinOf;
    KeptFacts(c, k, up);
    WithoutFacts(Kept(c, k), k, up);
  }

  lemma WithoutFacts(d: seq<int>, k: nat, up: bool)
    requires k < |d| && Monotone(d, up) && LeastStays(d, d, k)
    ensures Monotone(Without(d, k), up) && (|d| > 1 ==> MinOf(Without(d, k), 0, |d| - 1) == MinOf(d, 0, |d|))
  {
    if |d| > 1 {
      hide Monotone;
      LeastWithout(d, k);
    }
  }

  lemma LeastWithout(d: seq<int>, k: nat)
    requires k < |d| && |d| > 1 && LeastStays(d, d, k)
    ensures MinOf(Without(d, k), 0, |d| - 1) == MinOf(d, 0, |d|)
  {
    hide MinOf;
    var r := Without(d, k);
    var i :| 0 <= i < |d| && i != k && d[i] == MinOf(d, 0, |d|);
    assert r[if i < k then i else i - 1] == d[i];
    MinFacts(d, 0, |d|);
    MinFacts(r, 0, |r|);
    var j :| 0 <= j < |r| && r[j] == MinOf(r, 0, |r|);
    assert r[j] == d[if j < k then j else j + 1];
  }

  // ------------------------------------------------------------------ monotone values

  /** Never going down, or never going up. */
  ghost predicate Monotone(c: seq<int>, up: bool) {
    forall i, j :: 0 <= i < j < |c| ==> if up then c[i] <= c[j] else c[i] >= c[j]
  }

  /** Merging keeps values monotone, whichever way. */
  lemma MergedMonotone(c: seq<int>, a: nat, b: nat, lo: nat, up: bool)
    requires a <= b <= |c| && Monotone(c, up)
    ensures Monotone(Merged(c, a, b, lo), up)
  {
    if b - a >= 2 {
      hide LeftRun, RightRun, MinOf;
      SpanFacts(c, a, b, lo);
      var s, e, m := LeftRun(c, a, lo), RightRun(c, b), MinOf(c, a, b);
      assert m == if up then c[a] else c[b - 1];
      assert c[s] == c[a] && c[e - 1] == c[b - 1];
      assert forall k :: 0 <= k < s ==> if up then c[k] <= m else c[k] >= m;
      assert forall k :: e <= k < |c| ==> if up then c[k] >= m else c[k] <= m;
    }
  }

  /** Two entries that shared a value and no longer do. */
  ghost predicate Separates(c: seq<int>, d: seq<int>)
    requires |c| == |d|
  {
    exists i, j :: 0 <= i < j < |c| && c[i] == c[j] && d[i] != d[j]
  }

  /** The merge stops looking back inside a run. */
  ghost predicate CutsRun(c: seq<int>, a: nat, b: nat, lo: nat)
    requires a <= b <= |c|
  {
    && b - a >= 2
    && var s := LeftRun(c, a, lo);
      s > 0 && c[s - 1] == c[s] && MinOf(c, a, b) != c[s]
  }

  /** Along monotone values a merge separates two entries that shared one exactly when it stops
      looking back inside a run. */
  lemma SeparatesWhenCut(c: seq<int>, a: nat, b: nat, lo: nat, up: bool)
    requires a <= b <= |c| && Monotone(c, up)
    ensures Separates(c, Merged(c, a, b, lo)) <==> CutsRun(c, a, b, lo)
  {
    if b - a >= 2 {
      var d := Merged(c, a, b, lo);
      hide LeftRun, RightRun, MinOf;
      SpanFacts(c, a, b, lo);
      var s, e, m := LeftRun(c, a, lo), RightRun(c, b), MinOf(c, a, b);
      if CutsRun(c, a, b, lo) {
        assert c[s - 1] == c[s] && d[s - 1] != d[s];
      } else {
        forall i, j | 0 <= i < j < |c| && c[i] == c[j] ensures d[i] == d[j] {
          if i < s <= j {
            EqualAcross(c, i, j, s - 1, up);
          }
          if i < e <= j {
            EqualAcross(c, i, j, e - 1, up);
          }
        }
      }
    }
  }

  /** Along monotone values equal ones have nothing else between them. */
  lemma EqualAcross(c: seq<int>, i: nat, j: nat, k: nat, up: bool)
    requires Monotone(c, up) && i <= k < j < |c| && c[i] == c[j]
    ensures c[k] == c[k + 1] == c[i]
  {
  }

  /** Looking back without a bound no run is cut. */
  lemma NeverCutsFromStart(c: seq<int>, a: nat, b: nat)
    requires a <= b <= |c|
    ensures !CutsRun(c, a, b, 0)
  {
    if a < b {
      SpanFacts(c, a, b, 0);
    }
  }

  /** A merge that may not look back past the second entry, of an entry that shares the value of
      the first: the two come apart. */
  lemma CutExample()
    ensures Merged([5, 5, 3], 1, 3, 1) == [5, 3, 3] && Separates([5, 5, 3], Merged([5, 5, 3], 1, 3, 1))
  {
    var c := [5, 5, 3];
    assert MinOf(c, 1, 2) == 5 && MinOf(c, 1, 3) == 3;
    var d := Merged(c, 1, 3, 1);
    assert d == [5, 3, 3];
    assert c[0] == c[1] && d[0] != d[1];
  }

  /** A merge brings no value in, and takes away none below the least it meets: the least value of
      the whole text stays. */
  lemma MergedLeast(c: seq<int>, a: nat, b: nat, lo: nat)
    requires a <= b <= |c| && |c| > 0
    ensures MinOf(Merged(c, a, b, lo), 0, |c|) == MinOf(c, 0, |c|)
  {
    if b - a >= 2 {
      hide LeftRun, RightRun, MinOf;
      SpanFacts(c, a, b, lo);
      var d, s, e, m := Merged(c, a, b, lo), LeftRun(c, a, lo), RightRun(c, b), MinOf(c, a, b);
      MinFacts(c, 0, |c|);
      MinFacts(d, 0, |d|);
      var k :| a <= k < b && c[k] == m;
      var i :| 0 <= i < |c| && c[i] == MinOf(c, 0, |c|);
      assert forall x :: s <= x < a ==> c[x] == c[a];
      assert forall x :: b <= x < e ==> c[x] == c[b - 1];
      assert forall x :: s <= x < e ==> c[x] >= m;
      assert d[i] <= c[i];
      var j :| 0 <= j < |d| && d[j] == MinOf(d, 0, |d|);
      assert d[j] == if s <= j < e then c[k] else c[j];
    }
  }
}
