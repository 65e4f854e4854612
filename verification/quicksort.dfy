/** HarfBuzz's quicksort as hb_qsort of lib/ufont/tools/shapemodel.py has it: insertion sort of
    short ranges, and otherwise a partition in three about the median of three. */
module Quicksort {
  import opened StableSort

  // ------------------------------------------------------- rearrangements of a range

  /** r is s with the entries from lo to hi in some order. */
  ghost predicate Shuffled<T>(s: seq<T>, r: seq<T>, lo: nat, hi: nat) {
    && lo <= hi <= |s| == |r|
    && r[..lo] == s[..lo] && r[hi..] == s[hi..]
    && multiset(r[lo..hi]) == multiset(s[lo..hi])
  }

  function Swapped<T>(s: seq<T>, i: nat, j: nat): (r: seq<T>)
    requires i < |s| && j < |s|
    ensures |r| == |s|
  {
    s[i := s[j]][j := s[i]]
  }

  lemma ShuffledSelf<T>(s: seq<T>, lo: nat, hi: nat)
    requires lo <= hi <= |s|
    ensures Shuffled(s, s, lo, hi)
  {
  }

  lemma ShuffledTwice<T>(s: seq<T>, r: seq<T>, q: seq<T>, lo: nat, hi: nat)
    requires Shuffled(s, r, lo, hi) && Shuffled(r, q, lo, hi)
    ensures Shuffled(s, q, lo, hi)
  {
  }

  lemma ShuffledWider<T>(s: seq<T>, r: seq<T>, lo: nat, hi: nat, from: nat, to: nat)
    requires Shuffled(s, r, lo, hi) && from <= lo && hi <= to <= |s|
    ensures Shuffled(s, r, from, to)
  {
    assert r[from..to] == r[..lo][from..] + r[lo..hi] + r[hi..][..to - hi];
    assert s[from..to] == s[..lo][from..] + s[lo..hi] + s[hi..][..to - hi];
    assert r[..from] == r[..lo][..from] && s[..from] == s[..lo][..from];
    assert r[to..] == r[hi..][to - hi..] && s[to..] == s[hi..][to - hi..];
  }

  lemma SwapShuffles<T>(s: seq<T>, i: nat, j: nat, lo: nat, hi: nat)
    requires lo <= i < hi <= |s| && lo <= j < hi
    ensures Shuffled(s, Swapped(s, i, j), lo, hi)
  {
    var r := Swapped(s, i, j);
    var x, y := s[lo..hi], r[lo..hi];
    assert y == x[i - lo := x[j - lo]][j - lo := x[i - lo]];
  }

  /** Any entry of the range was in it before. */
  lemma ShuffledFrom<T>(s: seq<T>, r: seq<T>, lo: nat, hi: nat, k: nat)
    requires Shuffled(s, r, lo, hi) && lo <= k < hi
    ensures exists j :: lo <= j < hi && s[j] == r[k]
  {
    assert r[k] == r[lo..hi][k - lo];
    assert r[k] in multiset(r[lo..hi]);
    assert r[k] in s[lo..hi];
  }

  /** What all entries of a range satisfy they satisfy in any order. */
  lemma ShuffledAll<T>(s: seq<T>, r: seq<T>, lo: nat, hi: nat, p: T -> bool)
    requires Shuffled(s, r, lo, hi) && All(s, lo, hi, p)
    ensures All(r, lo, hi, p)
  {
    forall k: nat | lo <= k < hi ensures p(r[k]) {
      ShuffledFrom(s, r, lo, hi, k);
    }
  }

  ghost predicate All<T>(s: seq<T>, lo: nat, hi: nat, p: T -> bool) {
    hi <= |s| && forall k: nat :: lo <= k < hi ==> p(s[k])
  }

  ghost predicate Sorted<T>(s: seq<T>, lo: nat, hi: nat, key: T -> int) {
    hi <= |s| && forall i, j :: lo <= i < j < hi ==> key(s[i]) <= key(s[j])
  }

  method Swap<T>(a: array<T>, i: nat, j: nat)
    requires i < a.Length && j < a.Length
    modifies a
    ensures a[..] == Swapped(old(a[..]), i, j)
  {
    a[i], a[j] := a[j], a[i];
  }

  /** A swap inside of a range; none of an entry with itself. */
  method SwapIn<T>(a: array<T>, i: nat, j: nat, lo: nat, hi: nat, ghost s: seq<T>)
    requires lo <= i <= j < hi <= a.Length && Shuffled(s, a[..], lo, hi)
    modifies a
    ensures a[..] == Swapped(old(a[..]), i, j) && Shuffled(s, a[..], lo, hi)
  {
    hide Shuffled;
    SwapShuffles(a[..], i, j, lo, hi);
    ShuffledTwice(s, a[..], Swapped(a[..], i, j), lo, hi);
    if i < j {
      Swap(a, i, j);
    } else {
      assert a[..] == Swapped(a[..], i, j);
    }
  }

  /** The first i entries at x and at y have changed places. */
  ghost predicate RunsSwapped<T>(s: seq<T>, r: seq<T>, x: nat, y: nat, i: nat) {
    && x + i <= y && y + i <= |s| == |r|
    && forall k: nat :: k < |s| ==>
         r[k] == s[if x <= k < x + i then k + (y - x) else if y <= k < y + i then k - (y - x) else k]
  }

  lemma NoneSwapped<T>(s: seq<T>, x: nat, y: nat)
    requires x <= y <= |s|
    ensures RunsSwapped(s, s, x, y, 0)
  {
  }

  lemma OneMoreSwapped<T>(s: seq<T>, r: seq<T>, x: nat, y: nat, i: nat)
    requires RunsSwapped(s, r, x, y, i) && x + i < y && y + i < |s|
    ensures RunsSwapped(s, Swapped(r, x + i, y + i), x, y, i + 1)
  {
  }

  /** Swaps n entries at x with n at y, after them. */
  method SwapRuns<T>(a: array<T>, x: nat, y: nat, n: nat)
    requires x + n <= y && y + n <= a.Length
    modifies a
    ensures Shuffled(old(a[..]), a[..], x, y + n) && RunsSwapped(old(a[..]), a[..], x, y, n)
  {
    hide Shuffled, Swapped, RunsSwapped;
    ghost var s := a[..];
    ShuffledSelf(s, x, y + n);
    NoneSwapped(s, x, y);
    for i := 0 to n
      invariant Shuffled(s, a[..], x, y + n) && RunsSwapped(s, a[..], x, y, i)
    {
      OneMoreSwapped(s, a[..], x, y, i);
      SwapIn(a, x + i, y + i, x, y + n, s);
    }
  }

  /** Two runs side by side, the first of entries that satisfy p and the second of others, change
      places; only as many entries are swapped as the shorter has. */
  method SwapBlocks<T>(a: array<T>, at: nat, na: nat, nb: nat, ghost p: T -> bool)
    requires at + na + nb <= a.Length
    requires All(a[..], at, at + na, p) && All(a[..], at + na, at + na + nb, x => !p(x))
    modifies a
    ensures Shuffled(old(a[..]), a[..], at, at + na + nb)
    ensures All(a[..], at, at + nb, x => !p(x)) && All(a[..], at + nb, at + na + nb, p)
  {
    hide Shuffled;
    ghost var s := a[..];
    ShuffledSelf(s, at, at + na + nb);
    if na > 0 && nb > 0 {
      if na > nb {
        SwapRuns(a, at, at + na, nb);
      } else {
        SwapRuns(a, at, at + nb, na);
      }
    }
  }

  // ------------------------------------------------------------------ insertion sort

  /** In order but for the entry at j, which may have to go further down. */
  ghost predicate SortedBut<T>(s: seq<T>, lo: nat, hi: nat, j: nat, key: T -> int) {
    hi <= |s| && forall x, y :: lo <= x < y < hi && y != j ==> key(s[x]) <= key(s[y])
  }

  method InsertionSort<T>(a: array<T>, lo: nat, hi: nat, key: T -> int)
    requires lo <= hi <= a.Length
    modifies a
    ensures Shuffled(old(a[..]), a[..], lo, hi) && Sorted(a[..], lo, hi, key)
    ensures PicksSame(old(a[..]), a[..], key)
  {
    hide Shuffled, PicksSame;
    ghost var s := a[..];
    ShuffledSelf(s, lo, hi);
    PicksSelf(s, key);
    var i := lo + 1;
    while i < hi
      invariant lo + 1 <= i && (i <= hi || i == lo + 1) && PicksSame(s, a[..], key)
      invariant Shuffled(s, a[..], lo, hi) && Sorted(a[..], lo, if i <= hi then i else hi, key)
    {
      Insert(a, lo, i, hi, key, s);
      i := i + 1;
    }
  }

  method Insert<T>(a: array<T>, lo: nat, i: nat, hi: nat, key: T -> int, ghost s: seq<T>)
    requires lo < i < hi <= a.Length && Shuffled(s, a[..], lo, hi) && Sorted(a[..], lo, i, key)
    requires PicksSame(s, a[..], key)
    modifies a
    ensures Shuffled(s, a[..], lo, hi) && Sorted(a[..], lo, i + 1, key) && PicksSame(s, a[..], key)
  {
    hide Shuffled, SortedBut, Sorted, Swapped, PicksSame;
    var j := i;
    SortedButLast(a[..], lo, i, key);
    while j > lo && key(a[j - 1]) > key(a[j])
      invariant lo <= j <= i && Shuffled(s, a[..], lo, hi) && SortedBut(a[..], lo, i + 1, j, key)
      invariant PicksSame(s, a[..], key)
    {
      PicksSwapped(s, a[..], j, key);
      SortedDown(a[..], lo, i + 1, j, key);
      SwapIn(a, j - 1, j, lo, hi, s);
      j := j - 1;
    }
    SortedNow(a[..], lo, i + 1, j, key);
  }

  lemma PicksSelf<T>(s: seq<T>, key: T -> int)
    ensures PicksSame(s, s, key)
  {
  }

  /** Two neighbours with different keys may change places. */
  lemma PicksSwapped<T>(s: seq<T>, r: seq<T>, j: nat, key: T -> int)
    requires PicksSame(s, r, key) && 0 < j < |r| && key(r[j - 1]) != key(r[j])
    ensures PicksSame(s, Swapped(r, j - 1, j), key)
  {
    hide Pick;
    var x, y := r[..j - 1], r[j + 1..];
    var before, after := x + [r[j - 1]] + [r[j]], x + [r[j]] + [r[j - 1]];
    assert r == before + y && Swapped(r, j - 1, j) == after + y;
    forall k: int ensures Pick(after + y, k, key) == Pick(before + y, k, key) {
      PickSwap(x, [r[j - 1]], r[j], k, key);
      PickBoth(before, y, k, key);
      PickBoth(after, y, k, key);
    }
  }

  lemma SortedButLast<T>(s: seq<T>, lo: nat, i: nat, key: T -> int)
    requires Sorted(s, lo, i, key) && i < |s|
    ensures SortedBut(s, lo, i + 1, i, key)
  {
  }

  lemma SortedNow<T>(s: seq<T>, lo: nat, hi: nat, j: nat, key: T -> int)
    requires SortedBut(s, lo, hi, j, key) && lo <= j < hi && (j == lo || key(s[j - 1]) <= key(s[j]))
    ensures Sorted(s, lo, hi, key)
  {
  }

  lemma SortedDown<T>(s: seq<T>, lo: nat, hi: nat, j: nat, key: T -> int)
    requires SortedBut(s, lo, hi, j, key) && lo < j < hi && key(s[j - 1]) > key(s[j])
    ensures SortedBut(Swapped(s, j - 1, j), lo, hi, j - 1, key)
  {
  }

  // -------------------------------------------------------------------- the partition

  /** During the partition: equal entries at both ends, lesser ones and greater ones next to
      them, and the rest between. */
  ghost predicate Parts<T>(s: seq<T>, lo: nat, ple: nat, pl: nat, pr: nat, pre: nat, hi: nat, v: int, key: T -> int) {
    && lo <= ple <= pl <= pr <= pre < hi <= |s|
    && (forall k: nat :: lo <= k < ple ==> key(s[k]) == v)
    && (forall k: nat :: ple <= k < pl ==> key(s[k]) < v)
    && (forall k: nat :: pr <= k < pre ==> key(s[k]) > v)
    && (forall k: nat :: pre <= k < hi ==> key(s[k]) == v)
  }

  lemma PartsOrder<T>(s: seq<T>, lo: nat, ple: nat, pl: nat, pr: nat, pre: nat, hi: nat, v: int, key: T -> int)
    requires Parts(s, lo, ple, pl, pr, pre, hi, v, key)
    ensures lo <= ple <= pl <= pr <= pre < hi <= |s| && key(s[hi - 1]) == v
  {
  }

  lemma PartsStart<T>(s: seq<T>, lo: nat, hi: nat, key: T -> int)
    requires lo < hi <= |s|
    ensures Parts(s, lo, lo, lo, hi - 1, hi - 1, hi, key(s[hi - 1]), key)
  {
  }

  /** An equal entry on the left goes to the start. */
  lemma LeftEqual<T>(s: seq<T>, lo: nat, ple: nat, pl: nat, pr: nat, pre: nat, hi: nat, v: int, key: T -> int)
    requires Parts(s, lo, ple, pl, pr, pre, hi, v, key) && pl < pr && key(s[pl]) == v
    ensures Parts(Swapped(s, ple, pl), lo, ple + 1, pl + 1, pr, pre, hi, v, key)
  {
  }

  lemma LeftLess<T>(s: seq<T>, lo: nat, ple: nat, pl: nat, pr: nat, pre: nat, hi: nat, v: int, key: T -> int)
    requires Parts(s, lo, ple, pl, pr, pre, hi, v, key) && pl < pr && key(s[pl]) < v
    ensures Parts(s, lo, ple, pl + 1, pr, pre, hi, v, key)
  {
  }

  /** An equal entry on the right goes to the end. */
  lemma RightEqual<T>(s: seq<T>, lo: nat, ple: nat, pl: nat, pr: nat, pre: nat, hi: nat, v: int, key: T -> int)
    requires Parts(s, lo, ple, pl, pr, pre, hi, v, key) && pl < pr && key(s[pr - 1]) == v
    ensures Parts(Swapped(s, pr - 1, pre - 1), lo, ple, pl, pr - 1, pre - 1, hi, v, key)
  {
  }

  lemma RightGreater<T>(s: seq<T>, lo: nat, ple: nat, pl: nat, pr: nat, pre: nat, hi: nat, v: int, key: T -> int)
    requires Parts(s, lo, ple, pl, pr, pre, hi, v, key) && pl < pr && key(s[pr - 1]) > v
    ensures Parts(s, lo, ple, pl, pr - 1, pre, hi, v, key)
  {
  }

  /** A greater entry on the left and a lesser one on the right change places. */
  lemma BothWrong<T>(s: seq<T>, lo: nat, ple: nat, pl: nat, pr: nat, pre: nat, hi: nat, v: int, key: T -> int)
    requires Parts(s, lo, ple, pl, pr, pre, hi, v, key) && pl < pr - 1 && key(s[pl]) > v && key(s[pr - 1]) < v
    ensures Parts(Swapped(s, pl, pr - 1), lo, ple, pl + 1, pr - 1, pre, hi, v, key)
  {
  }

  method ScanLeft<T>(a: array<T>, lo: nat, ple0: nat, pl0: nat, pr: nat, pre: nat, hi: nat, ghost v: int, key: T -> int)
      returns (ple: nat, pl: nat)
    requires hi <= a.Length && Parts(a[..], lo, ple0, pl0, pr, pre, hi, v, key)
    modifies a
    ensures Shuffled(old(a[..]), a[..], lo, hi) && Parts(a[..], lo, ple, pl, pr, pre, hi, v, key) && pl0 <= pl
    ensures pl < pr ==> key(a[pl]) > v
  {
    hide Parts, Shuffled;
    ghost var s := a[..];
    ple, pl := ple0, pl0;
    PartsOrder(a[..], lo, ple, pl, pr, pre, hi, v, key);
    ShuffledSelf(s, lo, hi);
    while pl < pr
      invariant lo <= ple <= pl <= pr < hi && pl0 <= pl
      invariant Shuffled(s, a[..], lo, hi) && Parts(a[..], lo, ple, pl, pr, pre, hi, v, key)
    {
      PartsOrder(a[..], lo, ple, pl, pr, pre, hi, v, key);
      if key(a[pl]) > key(a[hi - 1]) {
        return;
      }
      if key(a[pl]) == key(a[hi - 1]) {
        LeftEqual(a[..], lo, ple, pl, pr, pre, hi, v, key);
        SwapIn(a, ple, pl, lo, hi, s);
        ple := ple + 1;
      } else {
        LeftLess(a[..], lo, ple, pl, pr, pre, hi, v, key);
      }
      pl := pl + 1;
    }
  }

  method ScanRight<T>(a: array<T>, lo: nat, ple: nat, pl0: nat, pr0: nat, pre0: nat, hi: nat, ghost v: int,
                      key: T -> int)
      returns (pl: nat, pr: nat, pre: nat)
    requires hi <= a.Length && Parts(a[..], lo, ple, pl0, pr0, pre0, hi, v, key) && pl0 < pr0 && key(a[pl0]) > v
    modifies a
    ensures Shuffled(old(a[..]), a[..], lo, hi) && Parts(a[..], lo, ple, pl, pr, pre, hi, v, key)
    ensures pl0 <= pl <= pr < pr0
  {
    hide Parts, Shuffled;
    ghost var s := a[..];
    pl, pr, pre := pl0, pr0, pre0;
    PartsOrder(a[..], lo, ple, pl, pr, pre, hi, v, key);
    ShuffledSelf(s, lo, hi);
    while pl < pr
      invariant lo <= pl == pl0 <= pr <= pre < hi && pr <= pr0 && (pl < pr ==> key(a[pl]) > v)
      invariant Shuffled(s, a[..], lo, hi) && Parts(a[..], lo, ple, pl, pr, pre, hi, v, key)
      decreases pr - pl
    {
      PartsOrder(a[..], lo, ple, pl, pr, pre, hi, v, key);
      pr := pr - 1;
      if key(a[pr]) == key(a[hi - 1]) {
        RightEqual(a[..], lo, ple, pl, pr + 1, pre, hi, v, key);
        pre := pre - 1;
        SwapIn(a, pr, pre, lo, hi, s);
      } else if key(a[pr]) < key(a[hi - 1]) {
        BothWrong(a[..], lo, ple, pl, pr + 1, pre, hi, v, key);
        SwapIn(a, pl, pr, lo, hi, s);
        pl := pl + 1;
        return;
      } else {
        RightGreater(a[..], lo, ple, pl, pr + 1, pre, hi, v, key);
      }
    }
  }

  /** The middle one of three places, by their keys. */
  method Median<T>(a: array<T>, x: nat, y: nat, z: nat, key: T -> int) returns (m: nat)
    requires x < a.Length && y < a.Length && z < a.Length
    ensures m == x || m == y || m == z
    ensures (key(a[x]) <= key(a[m]) && key(a[y]) <= key(a[m])) || (key(a[x]) <= key(a[m]) && key(a[z]) <= key(a[m]))
            || (key(a[y]) <= key(a[m]) && key(a[z]) <= key(a[m]))
    ensures (key(a[x]) >= key(a[m]) && key(a[y]) >= key(a[m])) || (key(a[x]) >= key(a[m]) && key(a[z]) >= key(a[m]))
            || (key(a[y]) >= key(a[m]) && key(a[z]) >= key(a[m]))
  {
    var l0, l1, l2 := x, y, z;
    if key(a[l0]) > key(a[l1]) {
      l0, l1 := l1, l0;
    }
    if key(a[l1]) > key(a[l2]) {
      l1, l2 := l2, l1;
      if key(a[l0]) > key(a[l1]) {
        l0, l1 := l1, l0;
      }
    }
    m := l1;
  }

  /** Lesser entries first, greater ones last, and between them those equal to the median of the
      second, the middle and the last but one: at least one is. */
  method Partition<T>(a: array<T>, lo: nat, hi: nat, key: T -> int) returns (less: nat, greater: nat, ghost v: int)
    requires lo + 10 <= hi <= a.Length
    modifies a
    ensures Shuffled(old(a[..]), a[..], lo, hi)
    ensures lo + less + greater < hi
    ensures All(a[..], lo, lo + less, x => key(x) < v)
    ensures All(a[..], lo + less, hi - greater, x => key(x) == v)
    ensures All(a[..], hi - greater, hi, x => key(x) > v)
  {
    hide Parts, Shuffled;
    ghost var s := a[..];
    var last := hi - 1;
    var m := Median(a, lo + 1, lo + (hi - lo) / 2, last - 1, key);
    SwapShuffles(s, m, last, lo, hi);
    Swap(a, m, last);
    v := key(a[last]);
    var ple: nat, pl: nat, pr: nat, pre: nat := lo, lo, last, last;
    PartsStart(a[..], lo, hi, key);
    while pl < pr
      invariant lo <= pl <= pr < hi && Shuffled(s, a[..], lo, hi) && Parts(a[..], lo, ple, pl, pr, pre, hi, v, key)
      decreases pr - pl
    {
      ghost var before := a[..];
      ple, pl := ScanLeft(a, lo, ple, pl, pr, pre, hi, v, key);
      ShuffledTwice(s, before, a[..], lo, hi);
      PartsOrder(a[..], lo, ple, pl, pr, pre, hi, v, key);
      if pl >= pr {
        break;
      }
      before := a[..];
      pl, pr, pre := ScanRight(a, lo, ple, pl, pr, pre, hi, v, key);
      ShuffledTwice(s, before, a[..], lo, hi);
    }
    less, greater := Gather(a, lo, ple, pr, pre, hi, v, key, s);
  }

  /** The equal entries at the ends go to the middle. */
  method Gather<T>(a: array<T>, lo: nat, ple: nat, pr: nat, pre: nat, hi: nat, ghost v: int, key: T -> int,
                   ghost s: seq<T>)
      returns (less: nat, greater: nat)
    requires hi <= a.Length && Parts(a[..], lo, ple, pr, pr, pre, hi, v, key) && Shuffled(s, a[..], lo, hi)
    modifies a
    ensures Shuffled(s, a[..], lo, hi)
    ensures lo + less + greater < hi
    ensures All(a[..], lo, lo + less, x => key(x) < v)
    ensures All(a[..], lo + less, hi - greater, x => key(x) == v)
    ensures All(a[..], hi - greater, hi, x => key(x) > v)
  {
    hide Shuffled;
    ghost var s1 := a[..];
    SwapBlocks(a, lo, ple - lo, pr - ple, x => key(x) == v);
    ghost var s2 := a[..];
    ShuffledOutside(s1, s2, lo, pr);
    ShuffledAll(s1, s2, lo, pr, x => key(x) <= v);
    ShuffledWider(s1, s2, lo, pr, lo, hi);
    ShuffledTwice(s, s1, s2, lo, hi);
    SwapBlocks(a, pr, pre - pr, hi - pre, x => key(x) > v);
    ghost var s3 := a[..];
    ShuffledOutside(s2, s3, pr, hi);
    ShuffledAll(s2, s3, pr, hi, x => key(x) >= v);
    ShuffledWider(s2, s3, pr, hi, lo, hi);
    ShuffledTwice(s, s2, s3, lo, hi);
    less, greater := pr - ple, pre - pr;
  }

  lemma ShuffledOutside<T>(s: seq<T>, r: seq<T>, lo: nat, hi: nat)
    requires Shuffled(s, r, lo, hi)
    ensures |r| == |s| && forall k: nat :: k < lo || hi <= k < |s| ==> r[k] == s[k]
  {
    forall k: nat | k < lo || hi <= k < |s| ensures r[k] == s[k] {
      if k < lo {
        assert r[k] == r[..lo][k] && s[k] == s[..lo][k];
      } else {
        assert r[k] == r[hi..][k - hi] && s[k] == s[hi..][k - hi];
      }
    }
  }

  // ------------------------------------------------------------------------ the sort

  method SortRange<T>(a: array<T>, lo: nat, hi: nat, key: T -> int)
    requires lo <= hi <= a.Length
    modifies a
    ensures Shuffled(old(a[..]), a[..], lo, hi) && Sorted(a[..], lo, hi, key)
    ensures hi - lo < 10 ==> PicksSame(old(a[..]), a[..], key)
    decreases hi - lo
  {
    hide Shuffled, Sorted, All, PicksSame;
    if hi - lo < 10 {
      InsertionSort(a, lo, hi, key);
      return;
    }
    ghost var s := a[..];
    ghost var v;
    var less, greater;
    less, greater, v := Partition(a, lo, hi, key);
    ghost var s1 := a[..];
    SortRange(a, lo, lo + less, key);
    ghost var s2 := a[..];
    SortRange(a, hi - greater, hi, key);
    ghost var s3 := a[..];
    Sides(s1, s2, s3, lo, lo + less, hi - greater, hi, v, key);
    ShuffledTwice(s, s1, s3, lo, hi);
  }

  /** The sides sorted each for itself, the whole is sorted. */
  lemma Sides<T>(s1: seq<T>, s2: seq<T>, s3: seq<T>, lo: nat, l: nat, g: nat, hi: nat, v: int, key: T -> int)
    requires lo <= l <= g <= hi <= |s1|
    requires All(s1, lo, l, x => key(x) < v) && All(s1, l, g, x => key(x) == v) && All(s1, g, hi, x => key(x) > v)
    requires Shuffled(s1, s2, lo, l) && Sorted(s2, lo, l, key)
    requires Shuffled(s2, s3, g, hi) && Sorted(s3, g, hi, key)
    ensures Shuffled(s1, s3, lo, hi) && Sorted(s3, lo, hi, key)
  {
    hide Shuffled;
    ShuffledOutside(s1, s2, lo, l);
    ShuffledOutside(s2, s3, g, hi);
    ShuffledAll(s1, s2, lo, l, x => key(x) < v);
    ShuffledAll(s2, s3, g, hi, x => key(x) > v);
    ShuffledWider(s1, s2, lo, l, lo, hi);
    ShuffledWider(s2, s3, g, hi, lo, hi);
    ShuffledTwice(s1, s2, s3, lo, hi);
  }

  /** The whole list in order, with the same entries as before; a list of less than 10 is sorted
      stably. */
  method Sort<T>(a: array<T>, key: T -> int)
    modifies a
    ensures multiset(a[..]) == multiset(old(a[..]))
    ensures forall i, j :: 0 <= i < j < a.Length ==> key(a[i]) <= key(a[j])
    ensures a.Length < 10 ==> PicksSame(old(a[..]), a[..], key)
  {
    hide PicksSame;
    ghost var s := a[..];
    SortRange(a, 0, a.Length, key);
    assert a[0..a.Length] == a[..] && s[0..|s|] == s;
  }
}
