/** The insertion sort of a range of glyphs that merges clusters as it moves them (Buffer.sort of
    lib/ufont/tools/shapemodel.py), as functions, and what they come to. */
module BufferSort {
  import opened BufferClusters
  import opened StableSort

  /** Where the glyph at i goes: before all that are after it in order, back to start. */
  function PlaceFor<T>(s: seq<T>, start: nat, j: nat, i: nat, key: T -> int): (r: nat)
    requires start <= j <= i < |s|
    ensures start <= r <= j
  {
    if j > start && key(s[j - 1]) > key(s[i]) then PlaceFor(s, start, j - 1, i, key) else j
  }

  lemma {:induction false} PlaceFacts<T>(s: seq<T>, start: nat, j: nat, i: nat, key: T -> int)
    requires start <= j <= i < |s|
    ensures var r := PlaceFor(s, start, j, i, key);
      (forall k :: r <= k < j ==> key(s[k]) > key(s[i])) && (r == start || key(s[r - 1]) <= key(s[i]))
  {
    if j > start && key(s[j - 1]) > key(s[i]) {
      PlaceFacts(s, start, j - 1, i, key);
    }
  }

  /** The place is the same one in a list whose end is the end of another. */
  lemma {:induction false} PlaceShift<T>(c: seq<T>, p: nat, d: seq<T>, q: nat, start: nat, j: nat, i: nat,
                                         key: T -> int)
    requires p <= |c| && q <= |d| && c[p..] == d[q..] && q <= start <= j <= i < |d|
    ensures p + i - q < |c| && PlaceFor(c, p + start - q, p + j - q, p + i - q, key)
      == p + PlaceFor(d, start, j, i, key) - q
    decreases j
  {
    assert c[p..][i - q] == d[q..][i - q];
    if j > start {
      assert c[p..][j - 1 - q] == d[q..][j - 1 - q];
      if key(d[j - 1]) > key(d[i]) {
        PlaceShift(c, p, d, q, start, j - 1, i, key);
      }
    }
  }

  /** The entry at i put in at j. */
  function Inserted<T>(s: seq<T>, j: nat, i: nat): (r: seq<T>)
    requires j <= i < |s|
    ensures |r| == |s|
  {
    s[..j] + [s[i]] + s[j..i] + s[i + 1..]
  }

  /** The glyphs once those from start to i are in order. */
  function SortedTo<T>(s: seq<T>, start: nat, i: nat, key: T -> int): (r: seq<T>)
    requires i <= |s|
    ensures |r| == |s|
  {
    if i <= start + 1 then s
    else
      var r := SortedTo(s, start, i - 1, key);
      Inserted(r, PlaceFor(r, start, i - 1, i - 1, key), i - 1)
  }

  /** The cluster values by then: where a glyph is moved, it and those it moves over are merged. */
  function ValuesTo<T>(c: seq<int>, s: seq<T>, start: nat, i: nat, key: T -> int, lo: nat): (r: seq<int>)
    requires i <= |s| == |c|
    ensures |r| == |c|
  {
    if i <= start + 1 then c
    else
      Merged(ValuesTo(c, s, start, i - 1, key, lo),
             PlaceFor(SortedTo(s, start, i - 1, key), start, i - 1, i - 1, key), i, lo)
  }

  // ---------------------------------------------------------- the sort is stable

  lemma InsertedParts<T>(s: seq<T>, start: nat, j: nat, i: nat)
    requires start <= j <= i < |s|
    ensures var r := Inserted(s, j, i);
      && r[..start] == s[..start] && r[i + 1..] == s[i + 1..]
      && r[start..i + 1] == s[start..j] + [s[i]] + s[j..i]
      && s[start..i + 1] == s[start..j] + s[j..i] + [s[i]]
  {
  }

  lemma InsertedInOrder<T>(s: seq<T>, start: nat, j: nat, i: nat, key: T -> int)
    requires start <= j <= i < |s| && InOrder(s, start, i, key)
    requires (forall k :: j <= k < i ==> key(s[k]) > key(s[i])) && (j == start || key(s[j - 1]) <= key(s[i]))
    ensures InOrder(Inserted(s, j, i), start, i + 1, key)
  {
    var r := Inserted(s, j, i);
    assert forall k :: start <= k <= i ==> r[k] == if k < j then s[k] else if k == j then s[i] else s[k - 1];
  }

  lemma PicksStep<T>(s: seq<T>, r: seq<T>, start: nat, j: nat, i: nat, k: int, key: T -> int)
    requires start <= j <= i < |s| == |r| && r[i] == s[i] && Pick(r[start..i], k, key) == Pick(s[start..i], k, key)
    requires forall x :: j <= x < i ==> key(r[x]) > key(r[i])
    ensures Pick(Inserted(r, j, i)[start..i + 1], k, key) == Pick(s[start..i + 1], k, key)
  {
    hide Pick, Inserted;
    InsertedParts(r, start, j, i);
    PickSwap(r[start..j], r[j..i], r[i], k, key);
    PickBoth(r[start..i], [r[i]], k, key);
    PickBoth(s[start..i], [s[i]], k, key);
    assert r[start..j] + r[j..i] == r[start..i];
    assert s[start..i + 1] == s[start..i] + [s[i]];
  }

  lemma StableStep<T>(s: seq<T>, r: seq<T>, start: nat, i: nat, key: T -> int)
    requires start < i < |s| && StablySorted(s, r, start, i, key)
    ensures StablySorted(s, Inserted(r, PlaceFor(r, start, i, i, key), i), start, i + 1, key)
  {
    hide InOrder, Inserted, PlaceFor, Pick;
    var j := PlaceFor(r, start, i, i, key);
    PlaceFacts(r, start, i, i, key);
    InsertedParts(r, start, j, i);
    InsertedInOrder(r, start, j, i, key);
    assert r[i..][1..] == r[i + 1..] && s[i..][1..] == s[i + 1..];
    assert r[i] == r[i..][0] == s[i..][0] == s[i];
    var after, before := Inserted(r, j, i)[start..i + 1], s[start..i + 1];
    forall k: int ensures Pick(after, k, key) == Pick(before, k, key) {
      PicksStep(s, r, start, j, i, k, key);
    }
  }

  lemma {:induction false} SortIsStable<T>(s: seq<T>, start: nat, i: nat, key: T -> int)
    requires start <= i <= |s|
    ensures StablySorted(s, SortedTo(s, start, i, key), start, i, key)
    decreases i
  {
    hide StablySorted, Inserted, PlaceFor;
    if i > start + 1 {
      SortIsStable(s, start, i - 1, key);
      StableStep(s, SortedTo(s, start, i - 1, key), start, i - 1, key);
    } else {
      StableStart(s, start, i, key);
    }
  }

  lemma StableStart<T>(s: seq<T>, start: nat, i: nat, key: T -> int)
    requires start <= i <= |s| && i <= start + 1
    ensures StablySorted(s, s, start, i, key)
  {
    hide Pick;
  }

  // -------------------------------------------------------------- clusters meanwhile

  /** The sort keeps cluster values monotone; and merging with all that went out in sight, it
      separates no two entries that shared one. */
  lemma {:induction false} SortValues<T>(c: seq<int>, s: seq<T>, start: nat, i: nat, key: T -> int, lo: nat, up: bool)
    requires i <= |s| == |c| && Monotone(c, up)
    ensures var r := ValuesTo(c, s, start, i, key, lo); Monotone(r, up) && (lo == 0 ==> !Separates(c, r))
    decreases i
  {
    hide Monotone, Merged, PlaceFor, SortedTo;
    if i > start + 1 {
      SortValues(c, s, start, i - 1, key, lo, up);
      var r := ValuesTo(c, s, start, i - 1, key, lo);
      var j := PlaceFor(SortedTo(s, start, i - 1, key), start, i - 1, i - 1, key);
      MergedMonotone(r, j, i, lo, up);
      SeparatesWhenCut(r, j, i, lo, up);
      NeverCutsFromStart(r, j, i);
    }
  }

  /** A glyph moved over a range that shares one value takes no other value with it. */
  lemma MovedAmongEqual(c: seq<int>, j: nat, i: nat)
    requires j <= i < |c| && forall k :: j <= k <= i ==> c[k] == c[i]
    ensures Inserted(c, j, i) == c
  {
  }
}
