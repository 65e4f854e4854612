/** What a stable sort of a range is: order, and entries with one key as they were. */
module StableSort {

  /** The entries with key k, in order. */
  function Pick<T>(s: seq<T>, k: int, key: T -> int): seq<T> {
    if s == [] then []
    else
      var last := s[|s| - 1];
      Pick(s[..|s| - 1], k, key) + if key(last) == k then [last] else []
  }

  lemma {:induction false} PickBoth<T>(a: seq<T>, b: seq<T>, k: int, key: T -> int)
    ensures Pick(a + b, k, key) == Pick(a, k, key) + Pick(b, k, key)
    decreases |b|
  {
    if b == [] {
      assert a + b == a;
    } else {
      var b0 := b[..|b| - 1];
      assert (a + b)[..|a + b| - 1] == a + b0;
      PickBoth(a, b0, k, key);
    }
  }

  lemma {:induction false} PickNone<T>(s: seq<T>, k: int, key: T -> int)
    requires forall x :: 0 <= x < |s| ==> key(s[x]) != k
    ensures Pick(s, k, key) == []
  {
    if s != [] {
      PickNone(s[..|s| - 1], k, key);
    }
  }

  /** An entry may go before entries with other keys. */
  lemma PickSwap<T>(a: seq<T>, m: seq<T>, x: T, k: int, key: T -> int)
    requires forall i :: 0 <= i < |m| ==> key(m[i]) != key(x)
    ensures Pick(a + [x] + m, k, key) == Pick(a + m + [x], k, key)
  {
    PickBoth(a + [x], m, k, key);
    PickBoth(a, [x], k, key);
    PickBoth(a + m, [x], k, key);
    PickBoth(a, m, k, key);
    assert Pick([x], k, key) == if key(x) == k then [x] else [] by { assert [x][..0] == []; }
    if key(x) == k {
      PickNone(m, k, key);
    }
  }

  ghost predicate InOrder<T>(s: seq<T>, start: nat, end: nat, key: T -> int) {
    end <= |s| && forall i, j :: start <= i < j < end ==> key(s[i]) <= key(s[j])
  }

  /** Entries with one key are in the same order in both. */
  ghost predicate PicksSame<T>(a: seq<T>, b: seq<T>, key: T -> int) {
    forall k: int :: Pick(a, k, key) == Pick(b, k, key)
  }

  /** Nothing moves outside of the range, the range is in order, and entries with the same key
      keep their order: what a stable sort is. */
  ghost predicate StablySorted<T>(s: seq<T>, r: seq<T>, start: nat, end: nat, key: T -> int) {
    && start <= end <= |s| == |r|
    && r[..start] == s[..start] && r[end..] == s[end..]
    && InOrder(r, start, end, key)
    && PicksSame(s[start..end], r[start..end], key)
  }

  /** Two stable sorts of one range are the same: order and the order of equal keys leave no choice. */
  lemma {:induction false} StableSortUnique<T>(a: seq<T>, b: seq<T>, key: T -> int)
    requires InOrder(a, 0, |a|, key) && InOrder(b, 0, |b|, key) && PicksSame(a, b, key)
    ensures a == b
    decreases |a|
  {
    if a == [] {
      assert forall k: int :: Pick(a, k, key) == [];
      NothingToPick(b, key);
    } else {
      SameLast(a, b, key);
      StableSortUnique(a[..|a| - 1], b[..|b| - 1], key);
      assert a == a[..|a| - 1] + [a[|a| - 1]] && b == b[..|b| - 1] + [b[|b| - 1]];
    }
  }

  /** They end with the same entry, and are the same stable sort without it. */
  lemma SameLast<T>(a: seq<T>, b: seq<T>, key: T -> int)
    requires a != [] && InOrder(a, 0, |a|, key) && InOrder(b, 0, |b|, key) && PicksSame(a, b, key)
    ensures b != [] && a[|a| - 1] == b[|b| - 1] && PicksSame(a[..|a| - 1], b[..|b| - 1], key)
  {
    hide Pick;
    var x := a[|a| - 1];
    PickLast(a, key);
    assert Pick(a, key(x), key) == Pick(b, key(x), key);
    GreatestKey(a, b, key);
    GreatestKey(b, a, key);
    var y := b[|b| - 1];
    PickLast(b, key);
    var a0, b0 := a[..|a| - 1], b[..|b| - 1];
    forall k: int ensures Pick(a0, k, key) == Pick(b0, k, key) {
      assert Pick(a, k, key) == Pick(b, k, key);
      PickFront(a, k, key);
      PickFront(b, k, key);
    }
  }

  lemma GreatestKey<T>(a: seq<T>, b: seq<T>, key: T -> int)
    requires a != [] && InOrder(b, 0, |b|, key) && PicksSame(a, b, key)
    ensures b != [] && key(a[|a| - 1]) <= key(b[|b| - 1])
  {
    hide Pick;
    var x := a[|a| - 1];
    PickLast(a, key);
    assert Pick(a, key(x), key) == Pick(b, key(x), key);
    PickSome(b, key(x), key);
  }

  lemma NothingToPick<T>(s: seq<T>, key: T -> int)
    requires forall k: int :: Pick(s, k, key) == []
    ensures s == []
  {
    if s != [] {
      PickLast(s, key);
    }
  }

  lemma PickLast<T>(s: seq<T>, key: T -> int)
    requires s != []
    ensures var x := s[|s| - 1]; var p := Pick(s, key(x), key); p != [] && p[|p| - 1] == x
  {
  }

  lemma PickFront<T>(s: seq<T>, k: int, key: T -> int)
    requires s != []
    ensures var p := Pick(s, k, key);
      Pick(s[..|s| - 1], k, key) == if key(s[|s| - 1]) == k then (if p == [] then [] else p[..|p| - 1]) else p
  {
  }

  /** A key that is picked is there. */
  lemma PickSome<T>(s: seq<T>, k: int, key: T -> int)
    requires Pick(s, k, key) != []
    ensures exists i :: 0 <= i < |s| && key(s[i]) == k
  {
    if forall i :: 0 <= i < |s| ==> key(s[i]) != k {
      PickNone(s, k, key);
    }
  }

  /** And a key that is there is picked. */
  lemma {:induction false} PickHas<T>(s: seq<T>, x: nat, key: T -> int)
    requires x < |s|
    ensures Pick(s, key(s[x]), key) != []
  {
    if x < |s| - 1 {
      PickHas(s[..|s| - 1], x, key);
    }
  }
}
