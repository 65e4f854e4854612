/** The lookups of each stage of a plan (MapBuilder.compile of lib/ufont/tools/shapemodel.py):
    those that features ask for, sorted by index, with the requests for one lookup merged. */
module LookupMerge {
  import Quicksort
  import opened StableSort

  datatype Lookup = Lookup(index: nat, mask: bv32, autoZwnj: bool, autoZwj: bool, random: bool, perSyllable: bool)

  /** A lookup applies to glyphs whose mask m has a bit in common with its own. */
  predicate Tests(mask: bv32, m: bv32) { mask & m != 0 }

  function Or(a: bv32, b: bv32): bv32 { a | b }

  lemma TestsBoth(a: bv32, b: bv32, m: bv32)
    ensures Tests(Or(a, b), m) <==> Tests(a, m) || Tests(b, m)
  {
    assert (a | b) & m == (a & m) | (b & m);
  }

  // ------------------------------------------------------------------- what is asked for

  ghost predicate Asked(xs: seq<Lookup>, i: nat) { exists k :: 0 <= k < |xs| && xs[k].index == i }

  ghost predicate AskedFor(xs: seq<Lookup>, i: nat, m: bv32) {
    exists k :: 0 <= k < |xs| && xs[k].index == i && Tests(xs[k].mask, m)
  }

  /** Nobody who asks for lookup i wants a joiner not to be skipped automatically. */
  ghost predicate AllZwnj(xs: seq<Lookup>, i: nat) { forall k :: 0 <= k < |xs| && xs[k].index == i ==> xs[k].autoZwnj }

  ghost predicate AllZwj(xs: seq<Lookup>, i: nat) { forall k :: 0 <= k < |xs| && xs[k].index == i ==> xs[k].autoZwj }

  ghost predicate SomeFlags(xs: seq<Lookup>, o: Lookup) {
    exists k :: 0 <= k < |xs| && xs[k].index == o.index && xs[k].random == o.random
      && xs[k].perSyllable == o.perSyllable
  }

  /** A merged lookup: it is asked for, applies to the glyphs that anyone asks it to apply to, and
      skips joiners when all who ask for it do. */
  ghost predicate Merges(xs: seq<Lookup>, o: Lookup) {
    && Asked(xs, o.index) && SomeFlags(xs, o)
    && (forall m: bv32 :: Tests(o.mask, m) <==> AskedFor(xs, o.index, m))
    && (o.autoZwnj <==> AllZwnj(xs, o.index)) && (o.autoZwj <==> AllZwj(xs, o.index))
  }

  /** Which lookup a request is for. */
  function Index(x: Lookup): int { x.index }

  /** The random and per-syllable flags are those of the first request for the lookup. */
  ghost predicate Led(xs: seq<Lookup>, o: Lookup) {
    var p := Pick(xs, o.index, Index);
    p != [] && o.random == p[0].random && o.perSyllable == p[0].perSyllable
  }

  ghost predicate AllLed(xs: seq<Lookup>, out: seq<Lookup>) { forall j :: 0 <= j < |out| ==> Led(xs, out[j]) }

  ghost predicate Increasing(out: seq<Lookup>) { forall i, j :: 0 <= i < j < |out| ==> out[i].index < out[j].index }

  /** The lookups of a stage: each index that is asked for once, in order. */
  ghost predicate Combines(xs: seq<Lookup>, out: seq<Lookup>) {
    && Increasing(out)
    && (forall j :: 0 <= j < |out| ==> Merges(xs, out[j]))
    && (forall k :: 0 <= k < |xs| ==> Asked(out, xs[k].index))
  }

  // ------------------------------------------------------------- one request at a time

  lemma AskedMore(xs: seq<Lookup>, x: Lookup, i: nat)
    ensures Asked(xs + [x], i) <==> Asked(xs, i) || x.index == i
    ensures AllZwnj(xs + [x], i) <==> AllZwnj(xs, i) && (x.index == i ==> x.autoZwnj)
    ensures AllZwj(xs + [x], i) <==> AllZwj(xs, i) && (x.index == i ==> x.autoZwj)
  {
    var ys := xs + [x];
    assert ys[|xs|] == x && forall k :: 0 <= k < |xs| ==> ys[k] == xs[k];
  }

  lemma AskedForMore(xs: seq<Lookup>, x: Lookup, i: nat, m: bv32)
    ensures AskedFor(xs + [x], i, m) <==> AskedFor(xs, i, m) || (x.index == i && Tests(x.mask, m))
  {
    hide Tests;
    var ys := xs + [x];
    assert ys[|xs|] == x && forall k :: 0 <= k < |xs| ==> ys[k] == xs[k];
  }

  lemma FlagsMore(xs: seq<Lookup>, x: Lookup, o: Lookup)
    requires SomeFlags(xs, o)
    ensures SomeFlags(xs + [x], o)
  {
    var k :| 0 <= k < |xs| && xs[k].index == o.index && xs[k].random == o.random && xs[k].perSyllable == o.perSyllable;
    assert (xs + [x])[k] == xs[k];
  }

  /** A request for another lookup changes nothing. */
  lemma MergesOther(xs: seq<Lookup>, x: Lookup, o: Lookup)
    requires Merges(xs, o) && x.index != o.index
    ensures Merges(xs + [x], o)
  {
    hide Tests, Asked, AskedFor, AllZwnj, AllZwj, SomeFlags;
    AskedMore(xs, x, o.index);
    FlagsMore(xs, x, o);
    forall m: bv32 ensures Tests(o.mask, m) <==> AskedFor(xs + [x], o.index, m) {
      AskedForMore(xs, x, o.index, m);
    }
  }

  function Joined(o: Lookup, x: Lookup): Lookup {
    o.(mask := Or(o.mask, x.mask), autoZwnj := o.autoZwnj && x.autoZwnj, autoZwj := o.autoZwj && x.autoZwj)
  }

  lemma MergesSame(xs: seq<Lookup>, x: Lookup, o: Lookup)
    requires Merges(xs, o) && x.index == o.index
    ensures Merges(xs + [x], Joined(o, x))
  {
    hide Tests, Or, Asked, AskedFor, AllZwnj, AllZwj;
    AskedMore(xs, x, o.index);
    FlagsMore(xs, x, o);
    forall m: bv32 ensures Tests(Or(o.mask, x.mask), m) <==> AskedFor(xs + [x], o.index, m) {
      AskedForMore(xs, x, o.index, m);
      TestsBoth(o.mask, x.mask, m);
    }
  }

  lemma MergesFirst(xs: seq<Lookup>, x: Lookup)
    requires !Asked(xs, x.index)
    ensures Merges(xs + [x], x)
  {
    hide Tests;
    assert (xs + [x])[|xs|] == x;
    AskedMore(xs, x, x.index);
    forall m: bv32 ensures Tests(x.mask, m) <==> AskedFor(xs + [x], x.index, m) {
      AskedForMore(xs, x, x.index, m);
    }
  }

  /** One request more, for the last lookup or for one after it. */
  lemma CombinesMore(xs: seq<Lookup>, x: Lookup, out: seq<Lookup>)
    requires Combines(xs, out) && (out != [] ==> out[|out| - 1].index <= x.index)
    ensures var n := |out|;
      Combines(xs + [x], if n > 0 && out[n - 1].index == x.index then out[n - 1 := Joined(out[n - 1], x)]
        else out + [x])
  {
    hide Merges;
    var n, ys := |out|, xs + [x];
    var same := n > 0 && out[n - 1].index == x.index;
    var next := if same then out[n - 1 := Joined(out[n - 1], x)] else out + [x];
    forall j | 0 <= j < |next| ensures Merges(ys, next[j]) {
      if j < n - 1 || (j < n && !same) {
        MergesOther(xs, x, out[j]);
      } else if same {
        MergesSame(xs, x, out[n - 1]);
      } else {
        AskedIsThere(xs, x.index, out);
        MergesFirst(xs, x);
      }
    }
    forall k | 0 <= k < |ys| ensures Asked(next, ys[k].index) {
      if k < |xs| {
        assert Asked(out, xs[k].index);
        var j :| 0 <= j < n && out[j].index == xs[k].index;
        assert next[j].index == xs[k].index;
      } else {
        assert next[|next| - 1].index == x.index;
      }
    }
  }

  lemma AskedIsThere(xs: seq<Lookup>, i: nat, out: seq<Lookup>)
    requires Combines(xs, out)
    ensures Asked(xs, i) ==> Asked(out, i)
  {
    hide Merges;
    if Asked(xs, i) {
      var k :| 0 <= k < |xs| && xs[k].index == i;
      assert Asked(out, xs[k].index);
    }
  }

  // --------------------------------------------------------- requests in any order

  /** Whatever order the requests are in, the same lookups combine them. */
  lemma AnyOrder(xs: seq<Lookup>, ys: seq<Lookup>, out: seq<Lookup>)
    requires multiset(xs) == multiset(ys) && Combines(xs, out)
    ensures Combines(ys, out)
  {
    hide Tests;
    forall k | 0 <= k < |ys| ensures Asked(out, ys[k].index) {
      assert ys[k] in multiset(xs);
      var i :| 0 <= i < |xs| && xs[i] == ys[k];
    }
    forall j | 0 <= j < |out| ensures Merges(ys, out[j]) {
      SameAsked(xs, ys, out[j]);
      SameAsked(ys, xs, out[j]);
      forall m: bv32 ensures AskedFor(xs, out[j].index, m) <==> AskedFor(ys, out[j].index, m) {
        if AskedFor(xs, out[j].index, m) {
          SameAskedFor(xs, ys, out[j].index, m);
        } else if AskedFor(ys, out[j].index, m) {
          SameAskedFor(ys, xs, out[j].index, m);
        }
      }
    }
  }

  lemma SameAsked(xs: seq<Lookup>, ys: seq<Lookup>, o: Lookup)
    requires multiset(xs) == multiset(ys)
    ensures Asked(xs, o.index) ==> Asked(ys, o.index)
    ensures SomeFlags(xs, o) ==> SomeFlags(ys, o)
    ensures AllZwnj(xs, o.index) ==> AllZwnj(ys, o.index)
    ensures AllZwj(xs, o.index) ==> AllZwj(ys, o.index)
  {
    forall k | 0 <= k < |xs| ensures exists i :: 0 <= i < |ys| && ys[i] == xs[k] {
      assert xs[k] in multiset(ys);
    }
    forall k | 0 <= k < |ys| ensures exists i :: 0 <= i < |xs| && xs[i] == ys[k] {
      assert ys[k] in multiset(xs);
    }
  }

  lemma SameAskedFor(xs: seq<Lookup>, ys: seq<Lookup>, i: nat, m: bv32)
    requires multiset(xs) == multiset(ys) && AskedFor(xs, i, m)
    ensures AskedFor(ys, i, m)
  {
    hide Tests;
    var k :| 0 <= k < |xs| && xs[k].index == i && Tests(xs[k].mask, m);
    assert xs[k] in multiset(ys);
    var j :| 0 <= j < |ys| && ys[j] == xs[k];
  }

  // ------------------------------------------------------------------- the stages

  lemma NothingCombined()
    ensures Combines([], []) && AllLed([], [])
  {
  }

  lemma LedMore(xs: seq<Lookup>, x: Lookup, o: Lookup)
    requires Led(xs, o)
    ensures Led(xs + [x], o)
  {
    assert (xs + [x])[..|xs|] == xs;
  }

  /** The first request for a lookup leads it. */
  lemma LedFirst(xs: seq<Lookup>, x: Lookup)
    requires !Asked(xs, x.index)
    ensures Led(xs + [x], x)
  {
    assert (xs + [x])[..|xs|] == xs;
    PickNone(xs, x.index, Index);
  }

  lemma AllLedMore(xs: seq<Lookup>, x: Lookup, out: seq<Lookup>)
    requires Combines(xs, out) && AllLed(xs, out) && (out != [] ==> out[|out| - 1].index <= x.index)
    ensures var n := |out|;
      AllLed(xs + [x], if n > 0 && out[n - 1].index == x.index then out[n - 1 := Joined(out[n - 1], x)]
                       else out + [x])
  {
    hide Merges, Led, Or;
    var n := |out|;
    forall j | 0 <= j < n ensures Led(xs + [x], out[j]) {
      LedMore(xs, x, out[j]);
    }
    if n > 0 && out[n - 1].index == x.index {
      LedJoined(xs + [x], out[n - 1], x);
    } else {
      if Asked(xs, x.index) {
        AskedIsThere(xs, x.index, out);
      }
      LedFirst(xs, x);
    }
  }

  lemma LedJoined(xs: seq<Lookup>, o: Lookup, x: Lookup)
    requires Led(xs, o)
    ensures Led(xs, Joined(o, x))
  {
  }

  /** One more of the sorted requests of a stage. */
  method Add(lookups0: seq<Lookup>, last: nat, x: Lookup, ghost xs: seq<Lookup>) returns (lookups: seq<Lookup>)
    requires last <= |lookups0| && Combines(xs, lookups0[last..]) && AllLed(xs, lookups0[last..])
    requires |lookups0| > last ==> lookups0[|lookups0| - 1].index <= x.index
    ensures last < |lookups| && lookups[..last] == lookups0[..last]
    ensures Combines(xs + [x], lookups[last..]) && AllLed(xs + [x], lookups[last..])
    ensures lookups[|lookups| - 1].index == x.index
  {
    hide Combines, AllLed, Or;
    ghost var out := lookups0[last..];
    assert out != [] ==> out[|out| - 1] == lookups0[|lookups0| - 1];
    CombinesMore(xs, x, out);
    AllLedMore(xs, x, out);
    var n := |lookups0|;
    if n > last && lookups0[n - 1].index == x.index {
      lookups := lookups0[n - 1 := Joined(lookups0[n - 1], x)];
      assert lookups[last..] == out[|out| - 1 := Joined(out[|out| - 1], x)];
    } else {
      lookups := lookups0 + [x];
      assert lookups[last..] == out + [x];
    }
  }

  /** The requests from last on are sorted and merged; those before are as they were. Of less than
      10 requests the first for each lookup leads it. */
  method MergeStage(lookups0: seq<Lookup>, last: nat) returns (lookups: seq<Lookup>)
    requires last <= |lookups0|
    ensures last <= |lookups| && lookups[..last] == lookups0[..last]
    ensures Combines(lookups0[last..], lookups[last..])
    ensures |lookups0| - last < 10 ==> AllLed(lookups0[last..], lookups[last..])
  {
    hide Combines, AllLed, PicksSame;
    var part := lookups0[last..];
    var sorted := SortByIndex(part);
    lookups := lookups0[..last];
    NothingCombined();
    assert lookups[last..] == [];
    for i := 0 to |sorted|
      invariant last <= |lookups| && lookups[..last] == lookups0[..last]
      invariant Combines(sorted[..i], lookups[last..]) && AllLed(sorted[..i], lookups[last..])
      invariant |lookups| > last ==> i > 0 && lookups[|lookups| - 1].index == sorted[i - 1].index
    {
      assert sorted[..i + 1] == sorted[..i] + [sorted[i]];
      lookups := Add(lookups, last, sorted[i], sorted[..i]);
    }
    assert sorted[..|sorted|] == sorted;
    AnyOrder(sorted, part, lookups[last..]);
    if |part| < 10 {
      SameLed(part, sorted, lookups[last..]);
    }
  }

  /** A stable sort leaves the first request for each lookup the first. */
  lemma SameLed(xs: seq<Lookup>, ys: seq<Lookup>, out: seq<Lookup>)
    requires PicksSame(xs, ys, Index) && AllLed(ys, out)
    ensures AllLed(xs, out)
  {
    hide Pick;
    forall j | 0 <= j < |out| ensures Led(xs, out[j]) {
      assert Led(ys, out[j]);
      assert Pick(xs, out[j].index, Index) == Pick(ys, out[j].index, Index);
    }
  }

  method SortByIndex(part: seq<Lookup>) returns (sorted: seq<Lookup>)
    ensures multiset(sorted) == multiset(part)
    ensures forall i, j :: 0 <= i < j < |sorted| ==> sorted[i].index <= sorted[j].index
    ensures |part| < 10 ==> PicksSame(part, sorted, Index)
  {
    hide PicksSame;
    var a := new Lookup[|part|](i requires 0 <= i < |part| => part[i]);
    assert a[..] == part;
    Quicksort.Sort(a, Index);
    sorted := a[..];
  }

  /** Where the lookups of stage s start. */
  function StartOf(ends: seq<nat>, s: nat): nat
    requires s <= |ends|
  {
    if s == 0 then 0 else ends[s - 1]
  }

  /** The lookups of each stage one after another. */
  ghost predicate Staged(requests: seq<seq<Lookup>>, lookups: seq<Lookup>, ends: seq<nat>) {
    && |ends| <= |requests| && StartOf(ends, |ends|) == |lookups|
    && forall s: nat :: s < |ends| ==> StageAt(requests, lookups, ends, s)
  }

  ghost predicate StageAt(requests: seq<seq<Lookup>>, lookups: seq<Lookup>, ends: seq<nat>, s: nat)
    requires s < |ends| <= |requests|
  {
    && StartOf(ends, s) <= ends[s] <= |lookups|
    && var out := lookups[StartOf(ends, s)..ends[s]];
      Combines(requests[s], out) && (|requests[s]| < 10 ==> AllLed(requests[s], out))
  }

  lemma StagedMore(requests: seq<seq<Lookup>>, before: seq<Lookup>, ends: seq<nat>, after: seq<Lookup>)
    requires Staged(requests, before, ends) && |ends| < |requests| && before <= after
    requires Combines(requests[|ends|], after[|before|..])
    requires |requests[|ends|]| < 10 ==> AllLed(requests[|ends|], after[|before|..])
    ensures Staged(requests, after, ends + [|after|])
  {
    hide Combines, AllLed;
    var next := ends + [|after|];
    forall s: nat | s < |next| ensures StageAt(requests, after, next, s) {
      if s < |ends| {
        assert StageAt(requests, before, ends, s);
        assert after[StartOf(next, s)..next[s]] == before[StartOf(ends, s)..ends[s]];
      } else {
        assert after[|before|..|after|] == after[|before|..];
      }
    }
  }
}
