/** When the sort of a range separates glyphs that shared a cluster: exactly when the cursor stops
    its merges inside of a run and a glyph moves into that run from behind it. */
module BufferSortCuts {
  import opened BufferClusters
  import opened StableSort
  import opened BufferSort

  /** A glyph from e on has to go before one that is before e. */
  ghost predicate Crosses<T>(s: seq<T>, start: nat, e: nat, end: nat, key: T -> int) {
    exists p, q :: start <= p < e <= q < end <= |s| && key(s[p]) > key(s[q])
  }

  /** The cursor stands inside of the run of equal values that the range starts in. */
  ghost predicate Inside(c: seq<int>, lo: nat, start: nat) {
    0 < lo <= start < |c| && c[lo - 1] == c[lo] == c[start]
  }

  /** What can be told before the sort: the cursor stands inside of that run, the run ends before a
      smaller value, and the sort moves a glyph from behind the run into it. */
  ghost predicate SortCuts<T>(c: seq<int>, s: seq<T>, lo: nat, start: nat, end: nat, key: T -> int) {
    && Inside(c, lo, start)
    && var e := RightRun(c, start + 1);
      e < |c| && c[e] < c[start] && Crosses(s, start, e, end, key)
  }

  // ------------------------------------------------------------------- values on the way

  /** Values only go down, those before the cursor stay, and they stay monotone. */
  ghost predicate Lowered(c: seq<int>, d: seq<int>, lo: nat, up: bool) {
    |d| == |c| && Monotone(d, up) && (forall k :: 0 <= k < |c| ==> d[k] <= c[k])
    && forall k :: 0 <= k < |c| && k < lo ==> d[k] == c[k]
  }

  lemma LoweredMore(c: seq<int>, d: seq<int>, a: nat, b: nat, lo: nat, up: bool)
    requires Lowered(c, d, lo, up) && lo <= a <= b <= |d|
    ensures Lowered(c, Merged(d, a, b, lo), lo, up)
  {
    MergedMonotone(d, a, b, lo, up);
    if b - a >= 2 {
      SpanFacts(d, a, b, lo);
      hide LeftRun, RightRun, MinOf;
      MergedFloor(d, a, b, lo);
      var m := MinOf(d, a, b);
      forall k | 0 <= k < |d| ensures Merged(d, a, b, lo)[k] <= d[k] {
        if LeftRun(d, a, lo) <= k <= a {
          assert d[k] == d[a];
        } else if b <= k < RightRun(d, b) {
          assert d[k] == d[b - 1];
        }
      }
    }
  }

  /** A merge from lo on changes nothing before lo. */
  lemma MergedFloor(d: seq<int>, a: nat, b: nat, lo: nat)
    requires lo <= a < b <= |d|
    ensures LeftRun(d, a, lo) >= lo
  {
    LeftRunFacts(d, a, lo);
  }

  lemma {:induction false} LoweredTo<T>(c: seq<int>, s: seq<T>, start: nat, i: nat, key: T -> int, lo: nat, up: bool)
    requires lo <= start <= i <= |s| == |c| && Monotone(c, up)
    ensures Lowered(c, ValuesTo(c, s, start, i, key, lo), lo, up)
    decreases i
  {
    hide Monotone, Merged, PlaceFor, SortedTo, Lowered;
    if i > start + 1 {
      LoweredTo(c, s, start, i - 1, key, lo, up);
      LoweredMore(c, ValuesTo(c, s, start, i - 1, key, lo),
                  PlaceFor(SortedTo(s, start, i - 1, key), start, i - 1, i - 1, key), i, lo, up);
    } else {
      LoweredSelf(c, lo, up);
    }
  }

  lemma LoweredSelf(c: seq<int>, lo: nat, up: bool)
    requires Monotone(c, up)
    ensures Lowered(c, c, lo, up)
  {
  }

  // ------------------------------------------------------------- only one place to cut

  /** A merge cuts only a run that goes on across lo, up to where the merge starts. */
  lemma CutAtFloor(d: seq<int>, a: nat, b: nat, lo: nat)
    requires lo <= a <= b <= |d| && CutsRun(d, a, b, lo)
    ensures a + 2 <= b && 0 < lo && LeftRun(d, a, lo) == lo && d[lo - 1] == d[lo] == d[a] && MinOf(d, a, b) < d[lo]
    ensures forall k :: lo <= k <= a ==> d[k] == d[a]
  {
    hide MinOf;
    LeftRunFacts(d, a, lo);
    MinFacts(d, a, b);
    assert MinOf(d, a, b) <= d[a];
  }

  /** Rising values are never cut: the first of a range is the least. */
  lemma RisingNotCut(d: seq<int>, a: nat, b: nat, lo: nat)
    requires lo <= a <= b <= |d| && Monotone(d, true)
    ensures !CutsRun(d, a, b, lo)
  {
    if CutsRun(d, a, b, lo) {
      CutAtFloor(d, a, b, lo);
      MinFacts(d, a, b);
    }
  }

  /** A cut on the way is one inside of the run that the range starts in to begin with. */
  lemma CutIsInside(c: seq<int>, d: seq<int>, a: nat, b: nat, lo: nat, start: nat)
    requires Monotone(c, false) && Lowered(c, d, lo, false) && lo <= start <= a <= b <= |d| && CutsRun(d, a, b, lo)
    ensures Inside(c, lo, start)
  {
    hide CutsRun, MinOf, LeftRun;
    CutAtFloor(d, a, b, lo);
    assert d[start] == d[a] && d[lo - 1] == c[lo - 1];
    assert c[start] >= d[start] && c[lo] >= d[lo] && c[lo - 1] >= c[lo] >= c[start];
  }

  // ------------------------------------------------- the run that the cursor stands in

  /** d is like c along the run from lo to e, and less after it. */
  ghost predicate Whole(c: seq<int>, d: seq<int>, lo: nat, e: nat) {
    && lo < e <= |c| == |d| && (forall k :: lo <= k < e ==> d[k] == c[lo])
    && (e < |c| ==> d[e] < c[lo])
  }

  /** A merge inside of the run changes nothing. */
  lemma MergeInside(c: seq<int>, d: seq<int>, a: nat, b: nat, lo: nat, e: nat)
    requires Whole(c, d, lo, e) && lo <= a <= b <= e
    ensures Merged(d, a, b, lo) == d
  {
    if b - a >= 2 {
      SpanFacts(d, a, b, lo);
      MergedFloor(d, a, b, lo);
      hide LeftRun, RightRun, MinOf;
      var m := MinOf(d, a, b);
      assert m == c[lo];
      forall k | 0 <= k < |d| ensures Merged(d, a, b, lo)[k] == d[k] {
        if LeftRun(d, a, lo) <= k <= a {
          assert d[k] == d[a];
        } else if b <= k < RightRun(d, b) {
          assert d[k] == d[b - 1];
        }
      }
    }
  }

  /** A merge after the run leaves it alone, and does not cut. */
  lemma MergeAfter(c: seq<int>, d: seq<int>, a: nat, b: nat, lo: nat, e: nat)
    requires Whole(c, d, lo, e) && e <= a <= b <= |d| && Monotone(d, false)
    ensures Whole(c, Merged(d, a, b, lo), lo, e) && !CutsRun(d, a, b, lo)
  {
    if b - a >= 2 {
      SpanFacts(d, a, b, lo);
      hide LeftRun, RightRun, MinOf;
      var l, m := LeftRun(d, a, lo), MinOf(d, a, b);
      assert d[a] <= d[e] < d[e - 1];
      assert l >= e;
      assert Merged(d, a, b, lo)[e] <= d[e] by {
        assert m <= d[a] <= d[e];
      }
      if CutsRun(d, a, b, lo) {
        CutAtFloor(d, a, b, lo);
      }
    }
  }

  /** A merge from inside of the run to behind it takes down the run back to lo. */
  lemma MergeAcross(c: seq<int>, d: seq<int>, a: nat, b: nat, lo: nat, e: nat)
    requires Whole(c, d, lo, e) && lo <= a < e < b <= |d|
    ensures Merged(d, a, b, lo)[lo] < c[lo]
  {
    SpanFacts(d, a, b, lo);
    MergedFloor(d, a, b, lo);
    hide LeftRun, RightRun, MinOf;
    var l := LeftRun(d, a, lo);
    assert l == lo;
    assert MinOf(d, a, b) <= d[e];
  }

  // ----------------------------------------------------------------- which glyphs cross

  /** Once sorted, the glyph before e has the greatest key of those before it. */
  lemma LastIsGreatest<T>(s: seq<T>, start: nat, e: nat, key: T -> int)
    requires start < e <= |s|
    ensures var r := SortedTo(s, start, e, key);
      && (forall p :: start <= p < e ==> key(s[p]) <= key(r[e - 1]))
      && exists p :: start <= p < e && key(s[p]) == key(r[e - 1])
  {
    hide SortedTo, Pick;
    var r := SortedTo(s, start, e, key);
    SortIsStable(s, start, e, key);
    var a, b := s[start..e], r[start..e];
    forall p | start <= p < e ensures key(s[p]) <= key(r[e - 1]) {
      var k := key(s[p]);
      PickHas(a, p - start, key);
      assert Pick(b, k, key) == Pick(a, k, key);
      PickSome(b, k, key);
      var x :| 0 <= x < |b| && key(b[x]) == k;
      assert key(r[start + x]) <= key(r[e - 1]);
    }
    var k := key(r[e - 1]);
    assert b[e - 1 - start] == r[e - 1];
    PickHas(b, e - 1 - start, key);
    assert Pick(b, k, key) == Pick(a, k, key);
    PickSome(a, k, key);
    var x :| 0 <= x < |a| && key(a[x]) == k;
    assert s[start + x] == a[x];
  }

  /** The glyph at q goes before e exactly when a glyph before e has a greater key. */
  lemma PlaceAcross<T>(s: seq<T>, r: seq<T>, start: nat, e: nat, q: nat, key: T -> int)
    requires start < e <= q < |s| && StablySorted(s, r, start, q, key)
    requires r[..e] == SortedTo(s, start, e, key)[..e]
    ensures PlaceFor(r, start, q, q, key) < e <==> exists p :: start <= p < e && key(s[p]) > key(s[q])
  {
    hide SortedTo, PlaceFor, Pick;
    var j := PlaceFor(r, start, q, q, key);
    PlaceFacts(r, start, q, q, key);
    LastIsGreatest(s, start, e, key);
    assert r[e - 1] == r[..e][e - 1] == SortedTo(s, start, e, key)[e - 1];
    assert r[q] == r[q..][0] == s[q..][0] == s[q];
    if j < e {
      assert key(r[e - 1]) > key(s[q]);
    } else if j > start {
      assert key(r[e - 1]) <= key(r[j - 1]) <= key(s[q]);
    }
  }

  lemma CrossesMore<T>(s: seq<T>, start: nat, e: nat, i: nat, key: T -> int)
    requires start < i <= |s|
    ensures Crosses(s, start, e, i, key)
            <==> Crosses(s, start, e, i - 1, key)
                 || (e <= i - 1 && exists p :: start <= p < e && key(s[p]) > key(s[i - 1]))
  {
  }

  // ------------------------------------------------------------------------ the whole sort

  /** What holds after the first glyphs are sorted: the run is cut, or it is whole, no glyph has
      gone into it from behind, and nothing is separated. */
  ghost predicate Until<T>(c: seq<int>, d: seq<int>, s: seq<T>, r: seq<T>, lo: nat, start: nat, e: nat, i: nat,
                           key: T -> int) {
    && lo < |c| == |d| && |r| == |s|
    && if Crosses(s, start, e, i, key) then d[lo] < c[lo]
       else Whole(c, d, lo, e) && !Separates(c, d) && (e <= i && e <= |s| ==> r[..e] == SortedTo(s, start, e, key)[..e])
  }

  /** One more glyph. */
  lemma UntilMore<T>(c: seq<int>, d: seq<int>, s: seq<T>, r: seq<T>, lo: nat, start: nat, e: nat, i: nat, key: T -> int)
    requires Monotone(c, false) && Lowered(c, d, lo, false) && 0 < lo <= start < e <= |c| == |s|
    requires start + 1 < i <= |s| && r == SortedTo(s, start, i - 1, key)
    requires Until(c, d, s, r, lo, start, e, i - 1, key)
    ensures var j := PlaceFor(r, start, i - 1, i - 1, key);
      Until(c, Merged(d, j, i, lo), s, Inserted(r, j, i - 1), lo, start, e, i, key)
  {
    hide Merged, PlaceFor, Crosses, Whole, Separates, Monotone, Lowered, CutsRun;
    var q := i - 1;
    var j := PlaceFor(r, start, q, q, key);
    var d1, r1 := Merged(d, j, i, lo), Inserted(r, j, q);
    LoweredMore(c, d, j, i, lo, false);
    CrossesMore(s, start, e, i, key);
    if Crosses(s, start, e, q, key) {
      StaysLow(c, d, d1, j, i, lo);
    } else if q < e {
      MergeInside(c, d, j, i, lo, e);
      if i == e {
        SortedStep(s, start, i, key);
      }
    } else {
      SortIsStable(s, start, q, key);
      PlaceAcross(s, r, start, e, q, key);
      if j < e {
        MergeAcross(c, d, j, i, lo, e);
      } else {
        LoweredMonotone(c, d, lo);
        MergeAfter(c, d, j, i, lo, e);
        SeparatesWhenCut(d, j, i, lo, false);
        SeparatesNeither(c, d, d1);
        assert r1[..e] == r[..e];
      }
    }
  }

  lemma LoweredMonotone(c: seq<int>, d: seq<int>, lo: nat)
    requires Lowered(c, d, lo, false)
    ensures Monotone(d, false)
  {
  }

  lemma SortedStep<T>(s: seq<T>, start: nat, i: nat, key: T -> int)
    requires start + 1 < i <= |s|
    ensures var r := SortedTo(s, start, i - 1, key);
      SortedTo(s, start, i, key) == Inserted(r, PlaceFor(r, start, i - 1, i - 1, key), i - 1)
  {
  }

  lemma StaysLow(c: seq<int>, d: seq<int>, d1: seq<int>, a: nat, b: nat, lo: nat)
    requires lo < |c| && lo <= a <= b <= |d| && d1 == Merged(d, a, b, lo) && |c| == |d| && d[lo] < c[lo]
    ensures d1[lo] < c[lo]
  {
    if b - a >= 2 {
      SpanFacts(d, a, b, lo);
      hide LeftRun, RightRun, MinOf;
      if LeftRun(d, a, lo) <= lo {
        assert MinOf(d, a, b) <= d[a] == d[lo];
      }
    }
  }

  lemma SeparatesNeither(c: seq<int>, d: seq<int>, e: seq<int>)
    requires |c| == |d| == |e| && !Separates(c, d) && !Separates(d, e)
    ensures !Separates(c, e)
  {
  }

  lemma {:induction false} UntilSorted<T>(c: seq<int>, s: seq<T>, lo: nat, start: nat, e: nat, i: nat, key: T -> int)
    requires Monotone(c, false) && Inside(c, lo, start) && |c| == |s| && e == RightRun(c, start + 1) && start < i <= |s|
    ensures Until(c, ValuesTo(c, s, start, i, key, lo), s, SortedTo(s, start, i, key), lo, start, e, i, key)
    decreases i
  {
    hide Merged, PlaceFor, Crosses, Monotone, Until;
    RightRunFacts(c, start + 1);
    if i == start + 1 {
      UntilStart(c, s, lo, start, e, key);
    } else {
      UntilSorted(c, s, lo, start, e, i - 1, key);
      LoweredTo(c, s, start, i - 1, key, lo, false);
      UntilMore(c, ValuesTo(c, s, start, i - 1, key, lo), s, SortedTo(s, start, i - 1, key), lo, start, e, i, key);
    }
  }

  lemma UntilStart<T>(c: seq<int>, s: seq<T>, lo: nat, start: nat, e: nat, key: T -> int)
    requires Monotone(c, false) && Inside(c, lo, start) && |c| == |s| && e == RightRun(c, start + 1)
    ensures Until(c, c, s, s, lo, start, e, start + 1, key)
  {
    RightRunFacts(c, start + 1);
    hide RightRun, MinOf;
    assert !Crosses(s, start, e, start + 1, key);
    forall k | lo <= k < e ensures c[k] == c[lo] {
      if k <= start {
        assert c[lo] >= c[k] >= c[start];
      } else {
        assert c[k] == c[start];
      }
    }
  }

  lemma {:induction false} NeverCut<T>(c: seq<int>, s: seq<T>, lo: nat, start: nat, i: nat, key: T -> int, up: bool)
    requires Monotone(c, up) && lo <= start <= i <= |s| == |c| && (up || !Inside(c, lo, start))
    ensures !Separates(c, ValuesTo(c, s, start, i, key, lo))
    decreases i
  {
    hide Monotone, Merged, PlaceFor, SortedTo, Lowered, CutsRun, Inside, Separates;
    if i > start + 1 {
      NeverCut(c, s, lo, start, i - 1, key, up);
      var d := ValuesTo(c, s, start, i - 1, key, lo);
      var j := PlaceFor(SortedTo(s, start, i - 1, key), start, i - 1, i - 1, key);
      LoweredTo(c, s, start, i - 1, key, lo, up);
      if up {
        RisingValues(c, d, lo);
        RisingNotCut(d, j, i, lo);
      } else if CutsRun(d, j, i, lo) {
        CutIsInside(c, d, j, i, lo, start);
      }
      StillMonotone(c, d, lo, up);
      SeparatesWhenCut(d, j, i, lo, up);
      SeparatesNeither(c, d, Merged(d, j, i, lo));
    } else {
      SelfTogether(c);
    }
  }

  lemma RisingValues(c: seq<int>, d: seq<int>, lo: nat)
    requires Lowered(c, d, lo, true)
    ensures Monotone(d, true)
  {
  }

  lemma StillMonotone(c: seq<int>, d: seq<int>, lo: nat, up: bool)
    requires Lowered(c, d, lo, up)
    ensures Monotone(d, up)
  {
  }

  lemma SelfTogether(c: seq<int>)
    ensures !Separates(c, c)
  {
  }

  /** A sort from the cursor on or after it separates glyphs that shared a cluster exactly when it
      cuts the run that the cursor stands in. */
  lemma SortSeparates<T>(c: seq<int>, s: seq<T>, lo: nat, start: nat, end: nat, key: T -> int, up: bool)
    requires Monotone(c, up) && lo <= start <= end <= |s| == |c|
    ensures Separates(c, ValuesTo(c, s, start, end, key, lo)) <==> SortCuts(c, s, lo, start, end, key)
  {
    hide Monotone, ValuesTo, RightRun, SortedTo;
    if start == end {
      NothingSorted(c, s, lo, start, key);
    } else if up || !Inside(c, lo, start) {
      NeverCut(c, s, lo, start, end, key, up);
      if up {
        RisingNotCrossed(c, s, lo, start, end, key);
      }
    } else {
      var e, d := RightRun(c, start + 1), ValuesTo(c, s, start, end, key, lo);
      UntilSorted(c, s, lo, start, e, end, key);
      LoweredTo(c, s, start, end, key, lo, false);
      RunEndsLower(c, start);
      if Crosses(s, start, e, end, key) {
        assert d[lo - 1] == c[lo - 1] == c[lo] > d[lo];
      }
    }
  }

  lemma NothingSorted<T>(c: seq<int>, s: seq<T>, lo: nat, start: nat, key: T -> int)
    requires start <= |s| == |c|
    ensures !Separates(c, ValuesTo(c, s, start, start, key, lo)) && !SortCuts(c, s, lo, start, start, key)
  {
    if start < |c| {
      RightRunFacts(c, start + 1);
    }
  }

  lemma RisingNotCrossed<T>(c: seq<int>, s: seq<T>, lo: nat, start: nat, end: nat, key: T -> int)
    requires Monotone(c, true)
    ensures !SortCuts(c, s, lo, start, end, key)
  {
  }

  lemma RunEndsLower(c: seq<int>, start: nat)
    requires Monotone(c, false) && start < |c|
    ensures var e := RightRun(c, start + 1); e < |c| ==> c[e] < c[start]
  {
    RightRunFacts(c, start + 1);
    hide RightRun;
  }
}
