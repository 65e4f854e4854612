/** The shaping buffer (class Buffer of lib/ufont/tools/shapemodel.py): glyphs go from info to out
    at a cursor, and clusters are merged along both. */
module Buffers {
  import opened BufferClusters
  import opened BufferSort

  /** A glyph: its cluster value, and everything else there is of it. */
  datatype Info<+T> = Info(cluster: int, rest: T)

  function Values<T>(s: seq<Info<T>>): (r: seq<int>)
    ensures |r| == |s| && forall k :: 0 <= k < |s| ==> r[k] == s[k].cluster
  {
    seq(|s|, k requires 0 <= k < |s| => s[k].cluster)
  }

  function Rests<T>(s: seq<Info<T>>): (r: seq<T>)
    ensures |r| == |s| && forall k :: 0 <= k < |s| ==> r[k] == s[k].rest
  {
    seq(|s|, k requires 0 <= k < |s| => s[k].rest)
  }

  /** The least cluster value from a to b. */
  method Least<T>(s: seq<Info<T>>, a: nat, b: nat) returns (m: int)
    requires a < b <= |s|
    ensures m == MinOf(Values(s), a, b)
  {
    m := s[a].cluster;
    for k := a + 1 to b
      invariant m == MinOf(Values(s), a, k)
    {
      if s[k].cluster < m {
        m := s[k].cluster;
      }
    }
  }

  method SpanRight<T>(s: seq<Info<T>>, b: nat) returns (e: nat)
    requires 1 <= b <= |s|
    ensures e == RightRun(Values(s), b)
  {
    e := b;
    while e < |s| && s[e - 1].cluster == s[e].cluster
      invariant b <= e <= |s| && RightRun(Values(s), e) == RightRun(Values(s), b)
    {
      e := e + 1;
    }
  }

  method SpanLeft<T>(s: seq<Info<T>>, a: nat, lo: nat) returns (r: nat)
    requires a < |s|
    ensures r == LeftRun(Values(s), a, lo)
  {
    r := a;
    while lo < r && s[r - 1].cluster == s[r].cluster
      invariant r <= a && LeftRun(Values(s), r, lo) == LeftRun(Values(s), a, lo)
    {
      r := r - 1;
    }
  }

  method Relabel<T>(s: seq<Info<T>>, a: nat, b: nat, m: int) returns (r: seq<Info<T>>)
    requires a <= b <= |s|
    ensures Values(r) == Filled(Values(s), a, b, m) && Rests(r) == Rests(s)
    ensures |r| == |s| && forall k :: 0 <= k < |s| && !(a <= k < b) ==> r[k] == s[k]
  {
    r := s;
    for k := a to b
      invariant |r| == |s| && forall j :: 0 <= j < |s| ==> r[j] == if a <= j < k then s[j].(cluster := m) else s[j]
    {
      r := r[k := r[k].(cluster := m)];
    }
  }

  /** Gives the entries at the end that have the value v the value m instead. */
  method RelabelTail<T>(s: seq<Info<T>>, v: int, m: int) returns (r: seq<Info<T>>, ghost i: nat)
    requires v != m
    ensures i <= |s| && Values(r) == Filled(Values(s), i, |s|, m) && Rests(r) == Rests(s)
    ensures (forall k :: i <= k < |s| ==> s[k].cluster == v) && (i == 0 || s[i - 1].cluster != v)
  {
    r := s;
    var j: nat := |s|;
    while j > 0 && r[j - 1].cluster == v
      invariant j <= |s| == |r|
      invariant forall k :: 0 <= k < |s| ==> r[k] == if j <= k then s[k].(cluster := m) else s[k]
      invariant forall k :: j <= k < |s| ==> s[k].cluster == v
    {
      r := r[j - 1 := r[j - 1].(cluster := m)];
      j := j - 1;
    }
    i := j;
  }

  /** Takes the entry at i out and puts it in at j. */
  method Move<T>(s: seq<T>, j: nat, i: nat) returns (r: seq<T>)
    requires j <= i < |s|
    ensures r == Inserted(s, j, i)
  {
    var t := s[i];
    r := s[..i] + s[i + 1..];
    r := r[..j] + [t] + r[j..];
  }

  lemma InsertedInText<T>(out: seq<T>, info: seq<T>, idx: nat, j: nat, i: nat)
    requires idx <= j <= i < |info|
    ensures out + Inserted(info, j, i)[idx..] == Inserted(out + info[idx..], |out| + j - idx, |out| + i - idx)
  {
    var l, r := out + Inserted(info, j, i)[idx..], Inserted(out + info[idx..], |out| + j - idx, |out| + i - idx);
    assert |l| == |r|;
    forall k: nat | k < |l| ensures l[k] == r[k] {
      if k >= |out| {
        assert l[k] == Inserted(info, j, i)[k - |out| + idx];
      }
    }
  }

  method FindPlace<T>(s: seq<Info<T>>, start: nat, i: nat, key: T -> int) returns (j: nat)
    requires start <= i < |s|
    ensures start <= j <= i && j == PlaceFor(Rests(s), start, i, i, key)
  {
    j := i;
    while j > start && key(s[j - 1].rest) > key(s[i].rest)
      invariant start <= j <= i && PlaceFor(Rests(s), start, i, i, key) == PlaceFor(Rests(s), start, j, i, key)
    {
      j := j - 1;
    }
  }

  lemma PlaceInText<T>(out: seq<Info<T>>, info: seq<Info<T>>, idx: nat, haveOutput: bool, start: nat, i: nat,
                       key: T -> int)
    requires start <= i < |info| && idx <= |info| && (haveOutput ==> idx <= start)
    ensures haveOutput ==>
      PlaceFor(Rests(out + info[idx..]), |out| + start - idx, |out| + i - idx, |out| + i - idx, key)
      == |out| + PlaceFor(Rests(info), start, i, i, key) - idx
  {
    hide Values, Rests, PlaceFor;
    if haveOutput {
      ValuesInBoth(out, info, idx);
      assert (Rests(out) + Rests(info)[idx..])[|out|..] == Rests(info)[idx..];
      PlaceShift(Rests(out + info[idx..]), |out|, Rests(info), idx, start, i, i, key);
    }
  }

  lemma NotMoved<T>(s: seq<T>, i: nat)
    requires i < |s|
    ensures Inserted(s, i, i) == s
  {
  }

  lemma InsertedValues<T>(s: seq<Info<T>>, j: nat, i: nat)
    requires j <= i < |s|
    ensures Values(Inserted(s, j, i)) == Inserted(Values(s), j, i)
      && Rests(Inserted(s, j, i)) == Inserted(Rests(s), j, i)
  {
  }

  /** A glyph that is moved after its merge takes no value with it. */
  lemma MovedMerged<T>(text: seq<Info<T>>, now: seq<Info<T>>, q: nat, p: nat, lo: nat)
    requires q < p < |text| && Values(now) == Merged(Values(text), q, p + 1, lo) && Rests(now) == Rests(text)
    ensures |now| == |text| && Values(Inserted(now, q, p)) == Values(now)
    ensures Rests(Inserted(now, q, p)) == Inserted(Rests(text), q, p)
  {
    hide Merged, Inserted;
    MergedShares(Values(text), q, p + 1, lo);
    InsertedValues(now, q, p);
    MovedAmongEqual(Values(now), q, p);
  }

  /** Gives the entries from idx on that have the value v the value m instead. */
  method RelabelHead<T>(s: seq<Info<T>>, idx: nat, v: int, m: int) returns (r: seq<Info<T>>, ghost j: nat)
    requires idx <= |s|
    ensures idx <= j <= |s| && Values(r) == Filled(Values(s), idx, j, m) && Rests(r) == Rests(s)
    ensures (forall k :: idx <= k < j ==> s[k].cluster == v) && (j == |s| || s[j].cluster != v)
  {
    r := s;
    var i: nat := idx;
    while i < |r| && r[i].cluster == v
      invariant idx <= i <= |s| == |r|
      invariant forall k :: 0 <= k < |s| ==> r[k] == if idx <= k < i then s[k].(cluster := m) else s[k]
      invariant forall k :: idx <= k < i ==> s[k].cluster == v
    {
      r := r[i := r[i].(cluster := m)];
      i := i + 1;
    }
    j := i;
  }

  /** The merge on the lists of a buffer. */
  method MergeParts<T>(info0: seq<Info<T>>, out0: seq<Info<T>>, idx: nat, haveOutput: bool, start: nat, end: nat)
      returns (info: seq<Info<T>>, out: seq<Info<T>>)
    requires idx <= |info0| && start + 2 <= end <= |info0| && (if haveOutput then idx <= start else out0 == [])
    ensures |info| == |info0| && |out| == |out0| && Rests(info) == Rests(info0) && Rests(out) == Rests(out0)
    ensures haveOutput ==> Values(out) + Values(info)[idx..]
                           == Merged(Values(out0) + Values(info0)[idx..], |out0| + start - idx, |out0| + end - idx, 0)
    ensures !haveOutput ==> Values(info) == Merged(Values(info0), start, end, idx) && out == out0
  {
    hide Merged, LeftRun, RightRun, MinOf, Filled, Values, Rests;
    info, out := info0, out0;
    ghost var values, outValues := Values(info), Values(out);
    var cluster := Least(info, start, end);
    var s, e := start, end;
    if cluster != info[end - 1].cluster {
      e := SpanRight(info, end);
    }
    if cluster != info[start].cluster {
      s := SpanLeft(info, start, idx);
      LeftRunFacts(values, start, idx);
    }
    ghost var i := |out|;
    if idx == s && info[s].cluster != cluster && haveOutput {
      out, i := RelabelTail(out, info[s].cluster, cluster);
    }
    info := Relabel(info, s, e, cluster);
    if haveOutput {
      if i == |out| {
        NothingFilled(outValues, i, cluster);
      }
      MergedInBoth(outValues, values, idx, start, end, s, e, i);
    } else {
      MergedSpan(values, start, end, idx, s, e);
    }
  }

  lemma NothingFilled(c: seq<int>, i: nat, m: int)
    requires i <= |c|
    ensures Filled(c, i, i, m) == c
  {
  }

  lemma ValuesInBoth<T>(out: seq<Info<T>>, info: seq<Info<T>>, idx: nat)
    requires idx <= |info|
    ensures Values(out + info[idx..]) == Values(out) + Values(info)[idx..]
    ensures Rests(out + info[idx..]) == Rests(out) + Rests(info)[idx..]
  {
  }

  class Buffer<T> {
    var info: seq<Info<T>>
    var out: seq<Info<T>>
    var idx: nat
    var haveOutput: bool

    ghost predicate Valid()
      reads this
    {
      idx <= |info| && (!haveOutput ==> out == [])
    }

    /** The text: what has gone out and what is yet to go. */
    ghost function Contents(): (r: seq<Info<T>>)
      requires Valid()
      reads this
    {
      if haveOutput then out + info[idx..] else info
    }

    /** Where info[i] is in the text. */
    ghost function Place(i: nat): nat
      requires Valid() && (haveOutput ==> idx <= i)
      reads this
    {
      if haveOutput then |out| + i - idx else i
    }

    /** How far back in the text merging may look. */
    ghost function Floor(): nat
      reads this
    {
      if haveOutput then 0 else idx
    }

    constructor (infos: seq<Info<T>>)
      ensures Valid() && !haveOutput && idx == 0 && Contents() == infos
    {
      info, out, idx, haveOutput := infos, [], 0, false;
    }

    method ClearOutput()
      requires Valid()
      modifies this
      ensures Valid() && haveOutput && out == [] && idx == old(idx) && info == old(info)
      ensures Contents() == old(info[idx..])
    {
      out, haveOutput := [], true;
    }

    /** The output becomes the text. */
    method Sync()
      requires Valid() && haveOutput
      modifies this
      ensures Valid() && !haveOutput && idx == 0 && Contents() == old(Contents())
    {
      out := out + info[idx..];
      info := out;
      out, haveOutput, idx := [], false, 0;
    }

    method NextGlyph()
      requires Valid() && idx < |info|
      modifies this
      ensures Valid() && haveOutput == old(haveOutput) && idx == old(idx) + 1 && info == old(info)
      ensures Contents() == old(Contents()) && |out| == old(|out|) + if haveOutput then 1 else 0
    {
      if haveOutput {
        out := out + [info[idx]];
      }
      idx := idx + 1;
    }

    /** Goes to place i of the text, forward or back: the text stays the same. */
    method MoveTo(i: nat)
      requires Valid() && i <= |Contents()|
      modifies this
      ensures Valid() && haveOutput == old(haveOutput) && Contents() == old(Contents())
      ensures if haveOutput then |out| == i else idx == i
    {
      ghost var text := Contents();
      if !haveOutput {
        idx := i;
      } else if i > |out| {
        var count := i - |out|;
        out := out + info[idx..idx + count];
        idx := idx + count;
      } else if i < |out| {
        var count := |out| - i;
        if idx < count {
          // what is put in here is all written over below
          var shift, filler := count - idx, out[i];
          info := info[..idx] + seq(shift, _ => filler) + info[idx..];
          idx := idx + shift;
        }
        ghost var kept, moved, rest := out[..i], out[i..], info[idx..];
        assert text == kept + (moved + rest);
        idx := idx - count;
        info := info[..idx] + out[i..] + info[idx + count..];
        out := out[..i];
        assert info[idx..] == moved + rest;
      }
    }

    /** Glyphs start to end come to share one cluster, and with them all that shared one with the
        first or the last of them. */
    method MergeClusters(start: nat, end: nat)
      requires Valid() && start <= end <= |info| && (haveOutput ==> idx <= start)
      modifies this`info, this`out
      ensures Valid() && |info| == old(|info|) && |out| == old(|out|)
      ensures Values(Contents()) == Merged(old(Values(Contents())), old(Place(start)), old(Place(end)), Floor())
      ensures Rests(Contents()) == old(Rests(Contents()))
    {
      hide Merged, Values, Rests;
      ValuesInBoth(out, info, idx);
      MergedShort(Values(Contents()), Place(start), Place(end), Floor());
      if end - start < 2 {
        return;
      }
      info, out := MergeParts(info, out, idx, haveOutput, start, end);
      ValuesInBoth(out, info, idx);
    }

    /** Sorts glyphs start to end by key; glyphs with the same key keep their order, and where one
        is moved it is merged with those it moves over. */
    method Sort(start: nat, end: nat, key: T -> int)
      requires Valid() && start <= end <= |info| && (haveOutput ==> idx <= start)
      modifies this`info, this`out
      ensures Valid() && |info| == old(|info|) && |out| == old(|out|)
      ensures Rests(Contents()) == SortedTo(old(Rests(Contents())), old(Place(start)), old(Place(end)), key)
      ensures Values(Contents()) == ValuesTo(old(Values(Contents())), old(Rests(Contents())), old(Place(start)),
        old(Place(end)), key, Floor())
    {
      hide Merged, PlaceFor, Inserted, Values, Rests;
      ghost var values, rests, first := Values(Contents()), Rests(Contents()), Place(start);
      var i := start + 1;
      while i < end
        invariant Valid() && |info| == old(|info|) && |out| == old(|out|) && (i <= end || i == start + 1)
        invariant Rests(Contents()) == SortedTo(rests, first, if i <= end then Place(i) else Place(end), key)
        invariant Values(Contents())
               == ValuesTo(values, rests, first, if i <= end then Place(i) else Place(end), key, Floor())
      {
        SortStep(start, i, key);
        i := i + 1;
      }
    }

    /** Puts the glyph at i in its place among those from start. */
    method SortStep(start: nat, i: nat, key: T -> int)
      requires Valid() && start <= i < |info| && (haveOutput ==> idx <= start)
      modifies this`info, this`out
      ensures Valid() && |info| == old(|info|) && |out| == old(|out|)
      ensures var p := old(Place(i));
        var j := PlaceFor(old(Rests(Contents())), old(Place(start)), p, p, key);
        && Rests(Contents()) == Inserted(old(Rests(Contents())), j, p)
        && Values(Contents()) == Merged(old(Values(Contents())), j, p + 1, Floor())
    {
      hide Merged, Inserted, PlaceFor, Values, Rests;
      ghost var text, p := Contents(), Place(i);
      var j := FindPlace(info, start, i, key);
      PlaceInText(out, info, idx, haveOutput, start, i, key);
      ghost var q := Place(j);
      if i == j {
        MergedShort(Values(text), p, p + 1, Floor());
        NotMoved(Rests(text), p);
        return;
      }
      MergeClusters(j, i + 1);
      ghost var now := Contents();
      MoveGlyph(j, i);
      MovedMerged(text, now, q, p, Floor());
    }

    method MoveGlyph(j: nat, i: nat)
      requires Valid() && j <= i < |info| && (haveOutput ==> idx <= j)
      modifies this`info
      ensures Valid() && |info| == old(|info|)
      ensures Contents() == Inserted(old(Contents()), old(Place(j)), old(Place(i)))
    {
      hide Inserted;
      ghost var was := info;
      info := Move(info, j, i);
      if haveOutput {
        InsertedInText(out, was, idx, j, i);
      }
    }

    /** The same in what has gone out; the merge goes on into what is yet to go. */
    method MergeOutClusters(start: nat, end: nat)
      requires Valid() && haveOutput && start <= end <= |out|
      modifies this`info, this`out
      ensures Valid() && |info| == old(|info|) && |out| == old(|out|)
      ensures Values(Contents()) == Merged(old(Values(Contents())), start, end, 0)
      ensures Rests(Contents()) == old(Rests(Contents()))
    {
      hide Merged, Values, Rests, LeftRun, RightRun, MinOf, Filled;
      ValuesInBoth(out, info, idx);
      MergedShort(Values(Contents()), start, end, 0);
      if end - start < 2 {
        return;
      }
      ghost var values, outValues := Values(info), Values(out);
      var cluster := Least(out, start, end);
      var s := SpanLeft(out, start, 0);
      var e := SpanRight(out, end);
      ghost var j := idx;
      if e == |out| {
        info, j := RelabelHead(info, idx, out[e - 1].cluster, cluster);
      } else {
        NothingFilled(values, idx, cluster);
      }
      out := Relabel(out, s, e, cluster);
      ValuesInBoth(out, info, idx);
      MergedFromOut(outValues, values, idx, start, end, s, e, j);
    }

    /** The cluster of the glyph at the cursor stays when the glyph goes away: a neighbour shares
        it already, or what went out last gets it if it is less, or the glyph after it is merged
        with it. */
    method KeepCluster()
      requires Valid() && idx < |info|
      modifies this`info, this`out
      ensures Valid() && |out| == old(|out|) && |info| == old(|info|)
      ensures Values(Contents()) == if haveOutput then Kept(old(Values(Contents())), |out|)
                                    else PassedOver(old(Values(Contents())), idx)
      ensures Rests(Contents()) == old(Rests(Contents()))
    {
      if haveOutput && out != [] && !(idx + 1 < |info| && info[idx].cluster == info[idx + 1].cluster) {
        KeepInOutput();
        return;
      }
      hide Merged, LeftRun, MinOf, Filled, Rests;
      ghost var c := Values(Contents());
      assert idx + 1 < |info| ==> c[Place(idx)] == info[idx].cluster && c[Place(idx) + 1] == info[idx + 1].cluster;
      if idx + 1 < |info| && info[idx].cluster != info[idx + 1].cluster {
        MergeClusters(idx, idx + 2);
      }
    }

    /** What went out last, and all that share its cluster, get the cluster if it is less. */
    method KeepInOutput()
      requires Valid() && haveOutput && out != [] && idx < |info|
      requires idx + 1 < |info| ==> info[idx].cluster != info[idx + 1].cluster
      modifies this`info, this`out
      ensures Valid() && |out| == old(|out|) && |info| == old(|info|)
      ensures Values(Contents()) == Kept(old(Values(Contents())), |out|)
      ensures Rests(Contents()) == old(Rests(Contents()))
    {
      hide Merged, LeftRun, MinOf, Filled, Values, Rests;
      ghost var k, c := |out|, Values(Contents());
      ValuesInBoth(out, info, idx);
      var cluster := info[idx].cluster;
      assert c[k] == cluster && (idx + 1 < |info| <==> k + 1 < |c|);
      assert idx + 1 < |info| ==> c[k + 1] == info[idx + 1].cluster;
      ghost var was, rest := Values(out), Values(info);
      assert c[k - 1] == was[k - 1] == out[k - 1].cluster;
      if cluster < out[|out| - 1].cluster {
        ghost var i;
        out, i := RelabelTail(out, out[|out| - 1].cluster, cluster);
        ValuesInBoth(out, info, idx);
        TailRun(was, rest, idx, i);
        NothingFilled(rest, idx, cluster);
        FilledFromOut(was, rest, idx, i, k, idx, cluster);
      }
    }

    /** The glyph at the cursor goes away; without output it is only passed over. */
    method DeleteGlyph()
      requires Valid() && idx < |info|
      modifies this`info, this`out, this`idx
      ensures Valid() && |out| == old(|out|) && idx == old(idx) + 1
      ensures Values(Contents()) == if haveOutput then Deleted(old(Values(Contents())), |out|)
                                    else PassedOver(old(Values(Contents())), old(idx))
      ensures Rests(Contents()) == if haveOutput then Without(old(Rests(Contents())), |out|) else old(Rests(Contents()))
    {
      hide Kept, PassedOver, Values, Rests;
      KeepCluster();
      ghost var now := Contents();
      idx := idx + 1;
      if haveOutput {
        assert Contents() == Without(now, |out|);
        ValuesWithout(now, |out|);
      }
    }
  }

  lemma ValuesWithout<T>(s: seq<Info<T>>, k: nat)
    requires k < |s|
    ensures Values(Without(s, k)) == Without(Values(s), k) && Rests(Without(s, k)) == Without(Rests(s), k)
  {
  }

  lemma TailRun(o: seq<int>, d: seq<int>, idx: nat, i: nat)
    requires idx < |d| && i <= |o| && |o| > 0
    requires (forall k :: i <= k < |o| ==> o[k] == o[|o| - 1]) && (i == 0 || o[i - 1] != o[|o| - 1])
    ensures i == LeftRun(o + d[idx..], |o| - 1, 0)
  {
    hide LeftRun;
    LeftRunIs(o, |o| - 1, 0, i);
    LeftRunStart(o + d[idx..], o, |o| - 1, 0);
  }
}
