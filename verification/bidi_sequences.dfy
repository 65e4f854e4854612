/** Isolating run sequences (rules X9, X10): level runs chained through matched isolates,
    and the proof that they share out the kept characters. */
module BidiSequences {
  import opened Wrappers
  import opened BidiTypes
  import opened BidiIsolates
  import opened BidiExplicit

  predicate IsKept(cs: seq<Class>, i: nat) { i < |cs| && !Removed(cs[i]) }

  /** The first kept index from k on, or |cs|. */
  ghost function FirstKept(cs: seq<Class>, k: nat): (i: nat)
    requires k <= |cs|
    ensures k <= i <= |cs| && (i < |cs| ==> IsKept(cs, i))
    ensures forall x :: k <= x < i ==> Removed(cs[x])
    decreases |cs| - k
  {
    if k == |cs| || !Removed(cs[k]) then k else FirstKept(cs, k + 1)
  }

  /** The last kept index before k. */
  ghost function LastKept(cs: seq<Class>, k: nat): (r: Option<nat>)
    requires k <= |cs|
    ensures r.Some? ==> r.value < k && IsKept(cs, r.value)
    ensures forall x :: (if r.Some? then r.value + 1 else 0) <= x < k ==> Removed(cs[x])
  {
    if k == 0 then None
    else if !Removed(cs[k - 1]) then Some(k - 1)
    else LastKept(cs, k - 1)
  }

  lemma LastKeptStep(cs: seq<Class>, k: nat)
    requires k <= |cs|
    ensures LastKept(cs, k) == if k == 0 then None else if !Removed(cs[k - 1]) then Some(k - 1) else LastKept(cs, k - 1)
  {
  }

  /** lev holds the explicit levels. */
  ghost predicate Leveled(cs: seq<Class>, para: nat, lev: seq<nat>) {
    |lev| == |cs| && para <= 1 && forall k :: 0 <= k < |cs| ==> lev[k] == LevelAt(cs, para, k)
  }

  /** What follows i in its isolating run sequence: the next kept character if it has the
      same level, else the PDI of i. */
  ghost function Next(cs: seq<Class>, lev: seq<nat>, i: nat): Option<nat>
    requires i < |cs| == |lev|
  {
    var n := FirstKept(cs, i + 1);
    if n < |cs| && lev[n] == lev[i] then Some(n)
    else if Isolate(cs[i]) && Match(cs, i) < |cs| then Some(Match(cs, i))
    else None
  }

  /** i starts a level run. */
  ghost predicate RunFirst(cs: seq<Class>, lev: seq<nat>, i: nat)
    requires |lev| == |cs|
  {
    IsKept(cs, i) && (LastKept(cs, i).None? || lev[LastKept(cs, i).value] != lev[i])
  }

  /** i starts a sequence. */
  ghost predicate Head(cs: seq<Class>, lev: seq<nat>, i: nat)
    requires |lev| == |cs|
  {
    RunFirst(cs, lev, i) && !Matched(cs, i)
  }

  ghost function Chain(cs: seq<Class>, lev: seq<nat>, i: nat): (r: seq<nat>)
    requires i < |cs| == |lev|
    ensures r != [] && r[0] == i
    decreases |cs| - i
  {
    match Next(cs, lev, i)
    case None => [i]
    case Some(n) => [i] + Chain(cs, lev, n)
  }

  // --------------------------------------------------------- facts about Next

  lemma FirstLast(cs: seq<Class>, i: nat, n: nat)
    requires IsKept(cs, i) && i < n && IsKept(cs, n)
    ensures FirstKept(cs, i + 1) == n <==> LastKept(cs, n) == Some(i)
  {
  }

  /** A matched isolate: its first kept content follows it exactly when the isolate is
      empty or overflowed; otherwise its PDI starts a level run and follows it. */
  lemma PairNext(cs: seq<Class>, para: nat, lev: seq<nat>, i: nat)
    requires Leveled(cs, para, lev)
    requires i < |cs| && Isolate(cs[i]) && Match(cs, i) < |cs|
    ensures var j, n := Match(cs, i), FirstKept(cs, i + 1);
      && IsKept(cs, j) && Matched(cs, j) && lev[j] == lev[i] && i < n <= j
      && (n < j && Entered(cs, para, i) ==> lev[n] > lev[i] && RunFirst(cs, lev, j) && LastKept(cs, j).value > i)
      && (n == j || !Entered(cs, para, i) ==> lev[n] == lev[i] && !RunFirst(cs, lev, j))
  {
    hide MatchFrom, LevelAt, Opens, FirstKept, LastKept, Entered;
    var j, n := Match(cs, i), FirstKept(cs, i + 1);
    assert Pair(cs, i, j);
    PairLevels(cs, para, i);
    MatchBalanced(cs, i, j);
    assert n <= j;
    if n == j {
      FirstLast(cs, i, j);
    } else {
      InnerPrefix(cs, i + 1, n + 1, j);
      ContentLevels(cs, para, i, n);
      var l := LastKept(cs, j);
      assert l.Some? && n <= l.value;
      InnerPrefix(cs, i + 1, l.value + 1, j);
      ContentLevels(cs, para, i, l.value);
    }
  }

  lemma InnerPrefix(cs: seq<Class>, i: nat, k: nat, j: nat)
    requires Inner(cs, i, j) && i <= k <= j
    ensures Inner(cs, i, k)
  {
  }

  lemma NextIsKept(cs: seq<Class>, para: nat, lev: seq<nat>, i: nat)
    requires Leveled(cs, para, lev) && IsKept(cs, i) && Next(cs, lev, i).Some?
    ensures var n := Next(cs, lev, i).value; i < n && IsKept(cs, n) && lev[n] == lev[i]
  {
    if Isolate(cs[i]) && Match(cs, i) < |cs| {
      PairNext(cs, para, lev, i);
    }
  }

  /** No character follows two others. */
  lemma NextInjective(cs: seq<Class>, para: nat, lev: seq<nat>, a: nat, b: nat)
    requires Leveled(cs, para, lev) && IsKept(cs, a) && IsKept(cs, b)
    requires Next(cs, lev, a).Some? && Next(cs, lev, a) == Next(cs, lev, b)
    ensures a == b
  {
    var c := Next(cs, lev, a).value;
    NextIsKept(cs, para, lev, a);
    FirstLast(cs, a, c);
    FirstLast(cs, b, c);
    if Isolate(cs[a]) && Match(cs, a) == c {
      PairNext(cs, para, lev, a);
    }
    if Isolate(cs[b]) && Match(cs, b) == c {
      PairNext(cs, para, lev, b);
    }
    if Isolate(cs[a]) && Isolate(cs[b]) && Match(cs, a) == c == Match(cs, b) {
      MatchInjective(cs, a, b);
    }
  }

  /** A head follows nothing, and every other kept character follows one. */
  lemma HeadHasNone(cs: seq<Class>, para: nat, lev: seq<nat>, p: nat)
    requires Leveled(cs, para, lev) && IsKept(cs, p) && Next(cs, lev, p).Some?
    ensures !Head(cs, lev, Next(cs, lev, p).value)
  {
    var h := Next(cs, lev, p).value;
    NextIsKept(cs, para, lev, p);
    FirstLast(cs, p, h);
    if Isolate(cs[p]) && Match(cs, p) == h {
      PairNext(cs, para, lev, p);
    }
  }

  lemma PdiFollows(cs: seq<Class>, para: nat, lev: seq<nat>, p: nat)
    requires Leveled(cs, para, lev) && p < |cs| && Isolate(cs[p]) && Match(cs, p) < |cs|
    requires RunFirst(cs, lev, Match(cs, p))
    ensures IsKept(cs, p) && Next(cs, lev, p) == Some(Match(cs, p))
  {
    hide MatchFrom, LevelAt;
    PairNext(cs, para, lev, p);
  }

  lemma RunContinues(cs: seq<Class>, para: nat, lev: seq<nat>, i: nat)
    requires Leveled(cs, para, lev) && IsKept(cs, i) && LastKept(cs, i).Some?
    requires lev[LastKept(cs, i).value] == lev[i]
    ensures Next(cs, lev, LastKept(cs, i).value) == Some(i)
  {
    hide MatchFrom, LevelAt;
    var l := LastKept(cs, i).value;
    FirstLast(cs, l, i);
    assert FirstKept(cs, l + 1) == i;
  }

  lemma OtherHasOne(cs: seq<Class>, para: nat, lev: seq<nat>, i: nat) returns (p: nat)
    requires Leveled(cs, para, lev) && IsKept(cs, i) && !Head(cs, lev, i)
    ensures p < i && IsKept(cs, p) && Next(cs, lev, p) == Some(i)
  {
    if RunFirst(cs, lev, i) {
      p :| Pair(cs, p, i);
      PdiFollows(cs, para, lev, p);
    } else {
      p := LastKept(cs, i).value;
      RunContinues(cs, para, lev, i);
    }
  }

  // ------------------------------------------------------------ the partition

  lemma {:induction false} ChainSteps(cs: seq<Class>, para: nat, lev: seq<nat>, h: nat, k: nat)
    requires Leveled(cs, para, lev) && IsKept(cs, h) && k < |Chain(cs, lev, h)|
    ensures var x := Chain(cs, lev, h)[k];
      && h <= x && IsKept(cs, x) && lev[x] == lev[h]
      && Next(cs, lev, x) == if k + 1 < |Chain(cs, lev, h)| then Some(Chain(cs, lev, h)[k + 1]) else None
    decreases |cs| - h
  {
    if Next(cs, lev, h).Some? {
      NextIsKept(cs, para, lev, h);
      var n := Next(cs, lev, h).value;
      assert Chain(cs, lev, h) == [h] + Chain(cs, lev, n);
      if k > 0 {
        ChainSteps(cs, para, lev, n, k - 1);
      }
    }
  }

  lemma {:induction false} ChainAscends(cs: seq<Class>, para: nat, lev: seq<nat>, h: nat, k: nat, m: nat)
    requires Leveled(cs, para, lev) && IsKept(cs, h) && k < m < |Chain(cs, lev, h)|
    ensures Chain(cs, lev, h)[k] < Chain(cs, lev, h)[m]
    decreases m - k
  {
    ChainSteps(cs, para, lev, h, k);
    NextIsKept(cs, para, lev, Chain(cs, lev, h)[k]);
    if k + 1 < m {
      ChainAscends(cs, para, lev, h, k + 1, m);
    }
  }

  /** Every kept character is in the sequence of some head. */
  lemma {:induction false} EveryKeptInChain(cs: seq<Class>, para: nat, lev: seq<nat>, i: nat) returns (h: nat, k: nat)
    requires Leveled(cs, para, lev) && IsKept(cs, i)
    ensures h < |cs| && Head(cs, lev, h) && k < |Chain(cs, lev, h)| && Chain(cs, lev, h)[k] == i
    decreases i
  {
    if Head(cs, lev, i) {
      h, k := i, 0;
    } else {
      var p := OtherHasOne(cs, para, lev, i);
      h, k := EveryKeptInChain(cs, para, lev, p);
      ChainSteps(cs, para, lev, h, k);
      k := k + 1;
    }
  }

  /** x is at place k of the sequence of h. */
  ghost predicate Place(cs: seq<Class>, lev: seq<nat>, h: nat, k: nat, x: nat) {
    h < |cs| == |lev| && k < |Chain(cs, lev, h)| && Chain(cs, lev, h)[k] == x
  }

  /** A later place of a sequence follows the place before it and is no head. */
  lemma PlaceBefore(cs: seq<Class>, para: nat, lev: seq<nat>, h: nat, k: nat, x: nat) returns (p: nat)
    requires Leveled(cs, para, lev) && IsKept(cs, h) && k > 0 && Place(cs, lev, h, k, x)
    ensures Place(cs, lev, h, k - 1, p) && IsKept(cs, p) && Next(cs, lev, p) == Some(x)
    ensures x < |cs| && !Head(cs, lev, x)
  {
    p := Chain(cs, lev, h)[k - 1];
    ChainSteps(cs, para, lev, h, k - 1);
    HeadHasNone(cs, para, lev, p);
  }

  lemma FirstPlace(cs: seq<Class>, lev: seq<nat>, h: nat, x: nat)
    requires Place(cs, lev, h, 0, x)
    ensures h == x
  {
  }

  /** ... of one head only, and at one place. */
  lemma {:induction false} OneChainOnly(cs: seq<Class>, para: nat, lev: seq<nat>, h: nat, k: nat, h': nat, k': nat,
                                        x: nat)
    requires Leveled(cs, para, lev) && h < |cs| && h' < |cs| && Head(cs, lev, h) && Head(cs, lev, h')
    requires Place(cs, lev, h, k, x) && Place(cs, lev, h', k', x)
    ensures h == h' && k == k'
    decreases k
  {
    if k == 0 {
      FirstPlace(cs, lev, h, x);
      if k' > 0 {
        var p' := PlaceBefore(cs, para, lev, h', k', x);
        assert false;
      }
      FirstPlace(cs, lev, h', x);
    } else {
      var p := PlaceBefore(cs, para, lev, h, k, x);
      if k' == 0 {
        FirstPlace(cs, lev, h', x);
        assert false;
      }
      var p' := PlaceBefore(cs, para, lev, h', k', x);
      NextInjective(cs, para, lev, p, p');
      OneChainOnly(cs, para, lev, h, k - 1, h', k' - 1, p);
    }
  }
}
