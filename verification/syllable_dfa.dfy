/** From a grammar's automaton to one deterministic machine over category classes. */
module SyllableDfa {
  import opened Patterns
  import opened SyllableNfa
  import opened SyllableBuild

  /** classes: category to class (0 for categories not listed); trans[state][class]: the
      next state or -1; accept[state]: the type of a match that ends there, or -1. */
  datatype Machine = Machine(classes: map<int, nat>, trans: seq<seq<int>>, accept: seq<int>) {
    function ClassOf(c: int): nat { if c in classes then classes[c] else 0 }
  }

  /** What a class stands for: a listed category, or all categories not listed. */
  datatype Rep = Unlisted | Category(c: int)

  predicate Reads(cats: Cats, rep: Rep) { cats.AnyCat? || (rep.Category? && rep.c in cats.cats) }

  // -------------------------------------------------------- category classes

  function Key(labels: seq<Cats>, rep: Rep): (key: seq<bool>)
    ensures |key| == |labels|
  {
    seq(|labels|, i requires 0 <= i < |labels| => Reads(labels[i], rep))
  }

  ghost predicate Ascending(s: seq<int>) { forall i, j :: 0 <= i < j < |s| ==> s[i] <= s[j] }

  function Insert(x: int, s: seq<int>): (r: seq<int>)
    requires Ascending(s)
    ensures Ascending(r) && forall y :: y in r <==> y == x || y in s
  {
    if s == [] then [x]
    else if x <= s[0] then [x] + s
    else var t := Insert(x, s[1..]);
         assert forall j :: 0 <= j < |t| ==> t[j] in t;
         [s[0]] + t
  }

  function Sorted(s: seq<int>): (r: seq<int>)
    ensures Ascending(r) && forall y :: y in r <==> y in s
  {
    if s == [] then [] else Insert(s[0], Sorted(s[1..]))
  }

  /** The index of a key, or |keys|. */
  function Find(keys: seq<seq<bool>>, key: seq<bool>): (i: nat)
    ensures i <= |keys|
    ensures if i < |keys| then keys[i] == key else key !in keys
  {
    if keys == [] then 0
    else if keys[0] == key then 0
    else 1 + Find(keys[1..], key)
  }

  /** The categories seen, grouped by the set of edge labels that read them. */
  ghost predicate Grouped(labels: seq<Cats>, seen: seq<Rep>, keys: seq<seq<bool>>, groups: seq<seq<Rep>>) {
    && |keys| == |groups|
    && (forall i, j :: 0 <= i < j < |keys| ==> keys[i] != keys[j])
    && (forall k :: 0 <= k < |keys| ==> groups[k] != [])
    && (forall k, c :: 0 <= k < |keys| ==> (c in groups[k] <==> c in seen && Key(labels, c) == keys[k]))
    && (forall c :: c in seen ==> Key(labels, c) in keys)
  }

  /** The groups in order: the unlisted categories' first, the others by their smallest
      member. */
  ghost predicate InOrder(groups: seq<seq<Rep>>) {
    && (forall k :: 0 <= k < |groups| ==> groups[k] != [])
    && (groups != [] ==> groups[0][0] == Unlisted)
    && (forall k :: 0 < k < |groups| ==> groups[k][0].Category?)
    && (forall i, j :: 0 < i < j < |groups| ==> groups[i][0].c < groups[j][0].c)
  }

  /** Unlisted, then the categories in ascending order. */
  ghost predicate Listing(listed: seq<Rep>) {
    && listed != [] && listed[0] == Unlisted
    && (forall i :: 0 < i < |listed| ==> listed[i].Category?)
    && (forall i, j :: 0 < i < j < |listed| ==> listed[i].c <= listed[j].c)
  }

  lemma NewGroup(labels: seq<Cats>, seen: seq<Rep>, c: Rep, keys: seq<seq<bool>>, groups: seq<seq<Rep>>)
    requires Grouped(labels, seen, keys, groups) && Key(labels, c) !in keys
    ensures Grouped(labels, seen + [c], keys + [Key(labels, c)], groups + [[c]])
  {
  }

  lemma NewLast(labels: seq<Cats>, listed: seq<Rep>, n: nat, keys: seq<seq<bool>>, groups: seq<seq<Rep>>)
    requires Listing(listed) && n < |listed| && Grouped(labels, listed[..n], keys, groups)
    requires InOrder(groups) && (n == 0 <==> groups == []) && Key(labels, listed[n]) !in keys
    ensures InOrder(groups + [[listed[n]]])
  {
    forall k | 0 <= k < |groups| ensures groups[k][0] in listed[..n] && groups[k][0] != listed[n] {
      assert groups[k][0] in groups[k];
    }
  }

  lemma OldGroup(labels: seq<Cats>, listed: seq<Rep>, n: nat, keys: seq<seq<bool>>, groups: seq<seq<Rep>>, k: nat)
    requires n < |listed| && Grouped(labels, listed[..n], keys, groups) && InOrder(groups)
    requires k < |keys| && Key(labels, listed[n]) == keys[k]
    ensures Grouped(labels, listed[..n + 1], keys, groups[k := groups[k] + [listed[n]]])
    ensures InOrder(groups[k := groups[k] + [listed[n]]])
  {
    assert listed[..n + 1] == listed[..n] + [listed[n]];
  }

  method Group(labels: seq<Cats>, listed: seq<Rep>) returns (ghost keys: seq<seq<bool>>, groups: seq<seq<Rep>>)
    requires Listing(listed)
    ensures Grouped(labels, listed, keys, groups) && InOrder(groups) && groups != []
  {
    var found: seq<seq<bool>> := [];
    groups := [];
    for n := 0 to |listed|
      invariant Grouped(labels, listed[..n], found, groups) && InOrder(groups) && (n == 0 <==> groups == [])
    {
      assert listed[..n + 1] == listed[..n] + [listed[n]];
      var c := listed[n];
      var key := Key(labels, c);
      var k := Find(found, key);
      if k == |found| {
        NewGroup(labels, listed[..n], c, found, groups);
        NewLast(labels, listed, n, found, groups);
        found, groups := found + [key], groups + [[c]];
      } else {
        OldGroup(labels, listed, n, found, groups, k);
        groups := groups[k := groups[k] + [c]];
      }
    }
    keys := found;
    assert listed[..|listed|] == listed;
  }

  /** The class numbering is right: each listed category's class stands for what reads it. */
  ghost predicate Classified(labels: seq<Cats>, categories: seq<int>, classes: map<int, nat>, reps: seq<Rep>) {
    && reps != [] && reps[0] == Unlisted
    && (forall c :: c in classes <==> c in categories)
    && (forall c :: c in classes ==>
          classes[c] < |reps| && Key(labels, reps[classes[c]]) == Key(labels, Category(c)))
  }

  /** Classes of categories that no edge tells apart; different classes are told apart. */
  method Classes(labels: seq<Cats>, categories: seq<int>) returns (classes: map<int, nat>, reps: seq<Rep>)
    ensures Classified(labels, categories, classes, reps)
    ensures forall i, j :: 0 <= i < j < |reps| ==> Key(labels, reps[i]) != Key(labels, reps[j])
    ensures forall i, j :: 0 < i < j < |reps| ==> reps[i].Category? && reps[j].Category? && reps[i].c < reps[j].c
  {
    var listed := List(categories);
    ghost var keys;
    var groups;
    keys, groups := Group(labels, listed);
    reps := seq(|groups|, k requires 0 <= k < |groups| && groups[k] != [] => groups[k][0]);
    forall k | 0 <= k < |groups| ensures Key(labels, reps[k]) == keys[k] {
      assert reps[k] in groups[k];
    }
    classes := Number(labels, listed, keys, groups);
    assert Classified(labels, categories, classes, reps) by {
      forall c | c in classes ensures Key(labels, reps[classes[c]]) == Key(labels, Category(c)) {
        assert Category(c) in groups[classes[c]];
      }
    }
  }

  function List(categories: seq<int>): (listed: seq<Rep>)
    ensures Listing(listed)
    ensures forall c :: Category(c) in listed <==> c in categories
  {
    var sorted := Sorted(categories);
    var listed := [Unlisted] + seq(|sorted|, i requires 0 <= i < |sorted| => Category(sorted[i]));
    assert forall i :: 0 <= i < |sorted| ==> listed[i + 1] == Category(sorted[i]);
    listed
  }

  /** Numbers the groups' members. */
  method Number(ghost labels: seq<Cats>, ghost listed: seq<Rep>, ghost keys: seq<seq<bool>>, groups: seq<seq<Rep>>)
    returns (classes: map<int, nat>)
    requires Grouped(labels, listed, keys, groups)
    ensures forall c :: c in classes <==> Category(c) in listed
    ensures forall c :: c in classes ==> classes[c] < |groups| && Category(c) in groups[classes[c]]
  {
    classes := map[];
    for k := 0 to |groups|
      invariant Members(groups, classes)
      invariant forall j, c :: 0 <= j < k && Category(c) in groups[j] ==> c in classes
    {
      classes := NumberGroup(groups, k, classes);
    }
    forall c ensures c in classes <==> Category(c) in listed {
      if Category(c) in listed {
        assert Key(labels, Category(c)) in keys;
      }
    }
  }

  ghost predicate Members(groups: seq<seq<Rep>>, classes: map<int, nat>) {
    forall c :: c in classes ==> classes[c] < |groups| && Category(c) in groups[classes[c]]
  }

  method NumberGroup(groups: seq<seq<Rep>>, k: nat, was: map<int, nat>) returns (classes: map<int, nat>)
    requires k < |groups| && Members(groups, was)
    ensures Members(groups, classes)
    ensures forall c :: c in classes <==> c in was || Category(c) in groups[k]
  {
    classes := was;
    var g := groups[k];
    for i := 0 to |g|
      invariant Members(groups, classes)
      invariant forall c :: c in classes <==> c in was || Category(c) in g[..i]
    {
      assert g[..i + 1] == g[..i] + [g[i]];
      assert g[i] in g;
      if g[i].Category? {
        classes := classes[g[i].c := k];
      }
    }
    assert g[..|g|] == g;
  }
}
