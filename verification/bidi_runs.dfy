/** Level runs and their chaining into isolating run sequences, as the loops build them. */
module BidiRuns {
  import opened Wrappers
  import opened BidiTypes
  import opened BidiIsolates
  import opened BidiExplicit
  import opened BidiSequences

  // -------------------------------------------------------------- level runs

  /** The starts of level runs below n. */
  ghost function StartsBelow(cs: seq<Class>, lev: seq<nat>, n: nat): seq<nat>
    requires n <= |cs| == |lev|
  {
    if n == 0 then []
    else StartsBelow(cs, lev, n - 1) + (if RunFirst(cs, lev, n - 1) then [n - 1] else [])
  }

  /** The level run from i on. */
  ghost function RunFrom(cs: seq<Class>, lev: seq<nat>, i: nat): (r: seq<nat>)
    requires |cs| == |lev|
    ensures r != [] && r[0] == i
    decreases |cs| - i
  {
    if i >= |cs| then [i]
    else
      var n := FirstKept(cs, i + 1);
      if n < |cs| && lev[n] == lev[i] then [i] + RunFrom(cs, lev, n) else [i]
  }

  ghost function RunsFrom(cs: seq<Class>, lev: seq<nat>, starts: seq<nat>): (runs: seq<seq<nat>>)
    requires |cs| == |lev|
    ensures |runs| == |starts|
  {
    if starts == [] then []
    else RunsFrom(cs, lev, starts[..|starts| - 1]) + [RunFrom(cs, lev, starts[|starts| - 1])]
  }

  lemma {:induction false} RunsFromAt(cs: seq<Class>, lev: seq<nat>, starts: seq<nat>, k: nat)
    requires |cs| == |lev| && k < |starts|
    ensures RunsFrom(cs, lev, starts)[k] == RunFrom(cs, lev, starts[k])
  {
    if k < |starts| - 1 {
      RunsFromAt(cs, lev, starts[..|starts| - 1], k);
    }
  }

  /** cur is the run from s as far as i. */
  ghost predicate PartOf(cs: seq<Class>, lev: seq<nat>, s: nat, cur: seq<nat>, i: nat) {
    && |cs| == |lev| && cur != [] && cur[|cur| - 1] == i && i < |cs|
    && RunFrom(cs, lev, s) == cur[..|cur| - 1] + RunFrom(cs, lev, i)
  }

  lemma Regroup(a: seq<nat>, x: nat, b: seq<nat>)
    ensures a + ([x] + b) == (a + [x]) + b
  {
  }

  lemma PartMore(cs: seq<Class>, lev: seq<nat>, s: nat, cur: seq<nat>, i: nat, n: nat)
    requires PartOf(cs, lev, s, cur, i) && FirstKept(cs, i + 1) == n < |cs| && lev[n] == lev[i]
    ensures PartOf(cs, lev, s, cur + [n], n)
  {
    Regroup(cur[..|cur| - 1], i, RunFrom(cs, lev, n));
    assert cur[..|cur| - 1] + [i] == cur == (cur + [n])[..|cur|];
  }

  lemma PartWhole(cs: seq<Class>, lev: seq<nat>, s: nat, cur: seq<nat>, i: nat)
    requires PartOf(cs, lev, s, cur, i)
    requires var n := FirstKept(cs, i + 1); n < |cs| ==> lev[n] != lev[i]
    ensures cur == RunFrom(cs, lev, s)
  {
    assert cur == cur[..|cur| - 1] + [i];
  }

  /** After the characters below i: the whole runs, then cur, the last one so far. */
  ghost predicate Building(cs: seq<Class>, lev: seq<nat>, i: nat, runs: seq<seq<nat>>, cur: seq<nat>)
    requires i <= |cs| == |lev|
  {
    var starts := StartsBelow(cs, lev, i);
    match LastKept(cs, i)
    case None => starts == [] && runs == [] && cur == []
    case Some(l) => starts != [] && runs == RunsFrom(cs, lev, starts[..|starts| - 1])
                    && PartOf(cs, lev, starts[|starts| - 1], cur, l)
  }

  lemma BuildRemoved(cs: seq<Class>, lev: seq<nat>, i: nat, runs: seq<seq<nat>>, cur: seq<nat>)
    requires i < |cs| == |lev| && Building(cs, lev, i, runs, cur) && Removed(cs[i])
    ensures Building(cs, lev, i + 1, runs, cur)
  {
    assert StartsBelow(cs, lev, i + 1) == StartsBelow(cs, lev, i);
  }

  lemma BuildSame(cs: seq<Class>, lev: seq<nat>, i: nat, runs: seq<seq<nat>>, cur: seq<nat>)
    requires i < |cs| == |lev| && Building(cs, lev, i, runs, cur) && IsKept(cs, i)
    requires LastKept(cs, i).Some? && lev[LastKept(cs, i).value] == lev[i]
    ensures Building(cs, lev, i + 1, runs, cur + [i])
  {
    var l, starts := LastKept(cs, i).value, StartsBelow(cs, lev, i);
    FirstLast(cs, l, i);
    PartMore(cs, lev, starts[|starts| - 1], cur, l, i);
    assert StartsBelow(cs, lev, i + 1) == starts;
  }

  lemma StartsPush(cs: seq<Class>, lev: seq<nat>, i: nat)
    requires i < |cs| == |lev| && RunFirst(cs, lev, i)
    ensures var starts, more := StartsBelow(cs, lev, i), StartsBelow(cs, lev, i + 1);
      more == starts + [i] && more[..|more| - 1] == starts
  {
  }

  lemma BuildFirst(cs: seq<Class>, lev: seq<nat>, i: nat, runs: seq<seq<nat>>)
    requires i < |cs| == |lev| && Building(cs, lev, i, runs, []) && IsKept(cs, i)
    ensures Building(cs, lev, i + 1, runs, [i])
  {
    StartsPush(cs, lev, i);
  }

  lemma BuildNew(cs: seq<Class>, lev: seq<nat>, i: nat, runs: seq<seq<nat>>, cur: seq<nat>)
    requires i < |cs| == |lev| && Building(cs, lev, i, runs, cur) && IsKept(cs, i)
    requires LastKept(cs, i).Some? && lev[LastKept(cs, i).value] != lev[i]
    ensures Building(cs, lev, i + 1, runs + [cur], [i])
  {
    var l, starts := LastKept(cs, i).value, StartsBelow(cs, lev, i);
    StartsPush(cs, lev, i);
    FirstLast(cs, l, i);
    PartWhole(cs, lev, starts[|starts| - 1], cur, l);
  }

  method LevelRuns(cs: seq<Class>, lev: seq<nat>) returns (runs: seq<seq<nat>>)
    requires |lev| == |cs|
    ensures runs == RunsFrom(cs, lev, StartsBelow(cs, lev, |cs|))
  {
    hide Building, StartsBelow, RunsFrom, LastKept;
    BuildNone(cs, lev);
    runs := [];
    var cur: seq<nat> := [];  // the last run, still growing
    for i := 0 to |cs|
      invariant Building(cs, lev, i, runs, cur)
    {
      BuildLast(cs, lev, i, runs, cur);
      if Removed(cs[i]) {
        BuildRemoved(cs, lev, i, runs, cur);
      } else if cur != [] && lev[cur[|cur| - 1]] == lev[i] {
        BuildSame(cs, lev, i, runs, cur);
        cur := cur + [i];
      } else {
        if cur != [] {
          BuildNew(cs, lev, i, runs, cur);
          runs := runs + [cur];
        } else {
          BuildFirst(cs, lev, i, runs);
        }
        cur := [i];
      }
    }
    BuildDone(cs, lev, runs, cur);
    if cur != [] {
      runs := runs + [cur];
    }
  }

  lemma BuildNone(cs: seq<Class>, lev: seq<nat>)
    requires |lev| == |cs|
    ensures Building(cs, lev, 0, [], [])
  {
  }

  /** The last run ends with the last kept character. */
  lemma BuildLast(cs: seq<Class>, lev: seq<nat>, i: nat, runs: seq<seq<nat>>, cur: seq<nat>)
    requires i <= |cs| == |lev| && Building(cs, lev, i, runs, cur)
    ensures if cur == [] then LastKept(cs, i).None? else LastKept(cs, i) == Some(cur[|cur| - 1])
  {
  }

  lemma BuildDone(cs: seq<Class>, lev: seq<nat>, runs: seq<seq<nat>>, cur: seq<nat>)
    requires |lev| == |cs| && Building(cs, lev, |cs|, runs, cur)
    ensures (if cur == [] then runs else runs + [cur]) == RunsFrom(cs, lev, StartsBelow(cs, lev, |cs|))
  {
    hide StartsBelow, LastKept, FirstKept, RunFrom, RunsFrom, PartOf;
    var starts := StartsBelow(cs, lev, |cs|);
    BuildLast(cs, lev, |cs|, runs, cur);
    if cur == [] {
      NoRuns(cs, lev);
    } else {
      var l := LastKept(cs, |cs|).value;
      RunsFromLast(cs, lev, starts);
      NoMoreKept(cs, l);
      PartWhole(cs, lev, starts[|starts| - 1], cur, l);
    }
  }

  lemma NoRuns(cs: seq<Class>, lev: seq<nat>)
    requires |lev| == |cs|
    ensures RunsFrom(cs, lev, []) == []
  {
  }

  lemma RunsFromLast(cs: seq<Class>, lev: seq<nat>, starts: seq<nat>)
    requires |lev| == |cs| && starts != []
    ensures RunsFrom(cs, lev, starts)
         == RunsFrom(cs, lev, starts[..|starts| - 1]) + [RunFrom(cs, lev, starts[|starts| - 1])]
  {
  }

  lemma NoMoreKept(cs: seq<Class>, l: nat)
    requires LastKept(cs, |cs|) == Some(l)
    ensures FirstKept(cs, l + 1) == |cs|
  {
  }

  // --------------------------------------------------------------- sequences

  /** i ends a level run. */
  ghost predicate RunLast(cs: seq<Class>, lev: seq<nat>, i: nat) {
    IsKept(cs, i) && |lev| == |cs| && var n := FirstKept(cs, i + 1); n < |cs| ==> lev[n] != lev[i]
  }

  lemma ChainStep(cs: seq<Class>, lev: seq<nat>, i: nat, n: nat)
    requires i < |cs| == |lev| && Next(cs, lev, i) == Some(n)
    ensures i < n < |cs| && Chain(cs, lev, i) == [i] + Chain(cs, lev, n)
  {
  }

  lemma OneMore(x: nat, q: seq<nat>, c: seq<nat>)
    requires q != []
    ensures var r := [x] + q; r[|r| - 1] == q[|q| - 1] && r[..|r| - 1] + c == [x] + (q[..|q| - 1] + c)
  {
  }

  /** A sequence is the run it starts with, and then what follows the run's end. */
  lemma {:induction false} ChainOfRun(cs: seq<Class>, lev: seq<nat>, i: nat)
    requires IsKept(cs, i) && |lev| == |cs|
    ensures var r := RunFrom(cs, lev, i); var last := r[|r| - 1];
      i <= last && RunLast(cs, lev, last) && Chain(cs, lev, i) == r[..|r| - 1] + Chain(cs, lev, last)
    decreases |cs| - i
  {
    var n := FirstKept(cs, i + 1);
    if n < |cs| && lev[n] == lev[i] {
      ChainOfRun(cs, lev, n);
      var q := RunFrom(cs, lev, n);
      OneMore(i, q, Chain(cs, lev, q[|q| - 1]));
      ChainStep(cs, lev, i, n);
    }
  }

  /** The sequence of h is joined up to its last character, i, the end of a run. */
  ghost predicate Joined(cs: seq<Class>, lev: seq<nat>, h: nat, joined: seq<nat>, i: nat) {
    && h < |cs| && RunLast(cs, lev, i) && joined != [] && joined[|joined| - 1] == i
    && Chain(cs, lev, h) == joined[..|joined| - 1] + Chain(cs, lev, i)
  }

  lemma AppendRun(joined: seq<nat>, i: nat, r: seq<nat>, c: seq<nat>)
    requires joined != [] && r != [] && joined[|joined| - 1] == i
    ensures joined[..|joined| - 1] + ([i] + (r[..|r| - 1] + c)) == (joined + r)[..|joined + r| - 1] + c
  {
    assert (joined + r)[..|joined + r| - 1] == joined + r[..|r| - 1];
    assert joined == joined[..|joined| - 1] + [i];
  }

  lemma JoinRun(cs: seq<Class>, lev: seq<nat>, h: nat, joined: seq<nat>, i: nat, j: nat)
    requires Joined(cs, lev, h, joined, i) && Next(cs, lev, i) == Some(j) && IsKept(cs, j)
    ensures var r := RunFrom(cs, lev, j); j <= r[|r| - 1] && Joined(cs, lev, h, joined + r, r[|r| - 1])
  {
    ChainOfRun(cs, lev, j);
    var r := RunFrom(cs, lev, j);
    ChainStep(cs, lev, i, j);
    AppendRun(joined, i, r, Chain(cs, lev, r[|r| - 1]));
  }

  lemma JoinedWhole(cs: seq<Class>, lev: seq<nat>, h: nat, joined: seq<nat>, i: nat)
    requires Joined(cs, lev, h, joined, i) && Next(cs, lev, i).None?
    ensures joined == Chain(cs, lev, h)
  {
    assert joined == joined[..|joined| - 1] + [i];
  }

  /** The runs by their first characters. */
  ghost predicate IndexOf(cs: seq<Class>, lev: seq<nat>, runs: seq<seq<nat>>, runOf: map<nat, nat>) {
    && |lev| == |cs|
    && (forall j :: j in runOf ==> runOf[j] < |runs| && runs[runOf[j]] == RunFrom(cs, lev, j))
    && (forall j: nat :: j < |cs| && RunFirst(cs, lev, j) ==> j in runOf)
  }

  lemma {:induction false} StartsHold(cs: seq<Class>, lev: seq<nat>, n: nat, j: nat)
    requires n <= |cs| == |lev|
    ensures j in StartsBelow(cs, lev, n) <==> j < n && RunFirst(cs, lev, j)
  {
    if n > 0 {
      StartsHold(cs, lev, n - 1, j);
    }
  }

  method IndexRuns(cs: seq<Class>, lev: seq<nat>, runs: seq<seq<nat>>) returns (runOf: map<nat, nat>)
    requires |lev| == |cs| && runs == RunsFrom(cs, lev, StartsBelow(cs, lev, |cs|))
    ensures IndexOf(cs, lev, runs, runOf)
  {
    runOf := map[];
    ghost var starts := StartsBelow(cs, lev, |cs|);
    for k := 0 to |runs|
      invariant forall j :: j in runOf ==> runOf[j] < |runs| && runs[runOf[j]] == RunFrom(cs, lev, j)
      invariant forall m :: 0 <= m < k ==> starts[m] in runOf
    {
      RunsFromAt(cs, lev, starts, k);
      runOf := runOf[runs[k][0] := k];
    }
    forall j: nat | j < |cs| && RunFirst(cs, lev, j) ensures j in runOf {
      StartsHold(cs, lev, |cs|, j);
    }
  }

  /** At the end of a run: its sequence goes on exactly when the run's last character is an
      initiator whose PDI starts a run, as every PDI of such an initiator does. */
  lemma EndOfRun(cs: seq<Class>, para: nat, lev: seq<nat>, partner: map<nat, nat>, last: nat)
    requires Leveled(cs, para, lev) && Partners(cs, partner, |cs|) && RunLast(cs, lev, last)
    ensures Isolate(cs[last]) && last in partner ==>
      && Next(cs, lev, last) == Some(partner[last]) && last < partner[last]
      && Matched(cs, partner[last]) && RunFirst(cs, lev, partner[last])
    ensures !(Isolate(cs[last]) && last in partner) ==> Next(cs, lev, last).None?
  {
    if Isolate(cs[last]) && Match(cs, last) < |cs| {
      PairNext(cs, para, lev, last);
      assert Pair(cs, last, Match(cs, last));
    }
  }

  /** The runs taken by a sequence: its first, and others that a matched PDI starts. */
  ghost predicate Taken(cs: seq<Class>, runs: seq<seq<nat>>, used: set<nat>, k: nat) {
    forall u :: u in used ==> u == k || (u < |runs| && runs[u] != [] && Matched(cs, runs[u][0]))
  }

  lemma JoinStep(cs: seq<Class>, para: nat, lev: seq<nat>, runs: seq<seq<nat>>, runOf: map<nat, nat>,
                 partner: map<nat, nat>, h: nat, joined: seq<nat>, last: nat)
    requires Leveled(cs, para, lev) && Partners(cs, partner, |cs|) && IndexOf(cs, lev, runs, runOf)
    requires Joined(cs, lev, h, joined, last) && Isolate(cs[last]) && last in partner && partner[last] in runOf
    ensures var r := runs[runOf[partner[last]]];
      r != [] && last < r[|r| - 1] && Joined(cs, lev, h, joined + r, r[|r| - 1]) && Matched(cs, r[0])
  {
    EndOfRun(cs, para, lev, partner, last);
    JoinRun(cs, lev, h, joined, last, partner[last]);
  }

  /** The sequence starting with run k; used are the runs it takes. */
  method JoinRuns(cs: seq<Class>, ghost para: nat, lev: seq<nat>, runs: seq<seq<nat>>,
                  runOf: map<nat, nat>, partner: map<nat, nat>, k: nat, ghost h: nat)
      returns (joined: seq<nat>, used: set<nat>)
    requires Leveled(cs, para, lev) && Partners(cs, partner, |cs|) && IndexOf(cs, lev, runs, runOf)
    requires k < |runs| && IsKept(cs, h) && runs[k] == RunFrom(cs, lev, h)
    ensures joined == Chain(cs, lev, h) && Taken(cs, runs, used, k)
  {
    joined, used := runs[k], {k};
    ChainOfRun(cs, lev, h);
    var last := joined[|joined| - 1];
    while Isolate(cs[last]) && last in partner && partner[last] in runOf
      invariant Joined(cs, lev, h, joined, last) && Taken(cs, runs, used, k)
      decreases |cs| - last
    {
      JoinStep(cs, para, lev, runs, runOf, partner, h, joined, last);
      var k2 := runOf[partner[last]];
      used := used + {k2};
      joined := joined + runs[k2];
      last := joined[|joined| - 1];
    }
    EndOfRun(cs, para, lev, partner, last);
    JoinedWhole(cs, lev, h, joined, last);
  }

  /** The heads of sequences among the first n run starts. */
  ghost function HeadsOf(cs: seq<Class>, starts: seq<nat>, n: nat): seq<nat>
    requires n <= |starts|
  {
    if n == 0 then []
    else HeadsOf(cs, starts, n - 1) + (if Matched(cs, starts[n - 1]) then [] else [starts[n - 1]])
  }

  ghost function ChainsFrom(cs: seq<Class>, lev: seq<nat>, heads: seq<nat>): (r: seq<seq<nat>>)
    requires |lev| == |cs|
    ensures |r| == |heads|
  {
    if heads == [] then []
    else
      var h := heads[|heads| - 1];
      ChainsFrom(cs, lev, heads[..|heads| - 1]) + [if h < |cs| then Chain(cs, lev, h) else []]
  }

  lemma ChainsPush(cs: seq<Class>, lev: seq<nat>, heads: seq<nat>, h: nat)
    requires |lev| == |cs| && h < |cs|
    ensures ChainsFrom(cs, lev, heads + [h]) == ChainsFrom(cs, lev, heads) + [Chain(cs, lev, h)]
  {
    assert (heads + [h])[..|heads|] == heads;
  }

  lemma {:induction false} ChainsAt(cs: seq<Class>, lev: seq<nat>, heads: seq<nat>, s: nat)
    requires |lev| == |cs| && s < |heads| && heads[s] < |cs|
    ensures ChainsFrom(cs, lev, heads)[s] == Chain(cs, lev, heads[s])
  {
    if s < |heads| - 1 {
      ChainsAt(cs, lev, heads[..|heads| - 1], s);
    }
  }

  /** All heads of a text. */
  ghost function AllHeads(cs: seq<Class>, lev: seq<nat>): seq<nat>
    requires |lev| == |cs|
  {
    var starts := StartsBelow(cs, lev, |cs|);
    HeadsOf(cs, starts, |starts|)
  }

  lemma {:induction false} HeadsHold(cs: seq<Class>, starts: seq<nat>, n: nat, h: nat)
    requires n <= |starts|
    ensures h in HeadsOf(cs, starts, n) <==> !Matched(cs, h) && exists k :: 0 <= k < n && starts[k] == h
  {
    if n > 0 {
      HeadsHold(cs, starts, n - 1, h);
    }
  }

  /** They are the heads, ... */
  lemma AllHeadsAreHeads(cs: seq<Class>, lev: seq<nat>, h: nat)
    requires |lev| == |cs|
    ensures h in AllHeads(cs, lev) <==> h < |cs| && Head(cs, lev, h)
  {
    var starts := StartsBelow(cs, lev, |cs|);
    HeadsHold(cs, starts, |starts|, h);
    StartsHold(cs, lev, |cs|, h);
  }

  ghost predicate Ascends(xs: seq<nat>, n: nat) {
    (forall p, q :: 0 <= p < q < |xs| ==> xs[p] < xs[q]) && forall p :: 0 <= p < |xs| ==> xs[p] < n
  }

  lemma {:induction false} StartsAscend(cs: seq<Class>, lev: seq<nat>, n: nat)
    requires n <= |cs| == |lev|
    ensures Ascends(StartsBelow(cs, lev, n), n)
  {
    if n > 0 {
      StartsAscend(cs, lev, n - 1);
    }
  }

  lemma {:induction false} HeadsAscend(cs: seq<Class>, starts: seq<nat>, n: nat, m: nat)
    requires n <= |starts| && Ascends(starts, m)
    ensures Ascends(HeadsOf(cs, starts, n), if n < |starts| then starts[n] else m)
  {
    if n > 0 {
      HeadsAscend(cs, starts, n - 1, m);
    }
  }

  /** ... in order. */
  lemma AllHeadsAscend(cs: seq<Class>, lev: seq<nat>)
    requires |lev| == |cs|
    ensures Ascends(AllHeads(cs, lev), |cs|)
  {
    StartsAscend(cs, lev, |cs|);
    HeadsAscend(cs, StartsBelow(cs, lev, |cs|), |StartsBelow(cs, lev, |cs|)|, |cs|);
  }

  lemma RunAt(cs: seq<Class>, lev: seq<nat>, k: nat)
    requires |lev| == |cs| && k < |StartsBelow(cs, lev, |cs|)|
    ensures var s := StartsBelow(cs, lev, |cs|)[k];
      s < |cs| && RunFirst(cs, lev, s) && RunsFrom(cs, lev, StartsBelow(cs, lev, |cs|))[k] == RunFrom(cs, lev, s)
  {
    var starts := StartsBelow(cs, lev, |cs|);
    RunsFromAt(cs, lev, starts, k);
    StartsHold(cs, lev, |cs|, starts[k]);
  }

  /** One more run: it heads a sequence unless a matched PDI starts it. */
  lemma OneMoreHead(cs: seq<Class>, lev: seq<nat>, starts: seq<nat>, k: nat)
    requires |lev| == |cs| && k < |starts| && starts[k] < |cs|
    ensures var now := ChainsFrom(cs, lev, HeadsOf(cs, starts, k));
      ChainsFrom(cs, lev, HeadsOf(cs, starts, k + 1))
      == if Matched(cs, starts[k]) then now else now + [Chain(cs, lev, starts[k])]
  {
    if Matched(cs, starts[k]) {
      assert HeadsOf(cs, starts, k + 1) == HeadsOf(cs, starts, k);
    } else {
      ChainsPush(cs, lev, HeadsOf(cs, starts, k), starts[k]);
    }
  }

  ghost predicate UsedRuns(cs: seq<Class>, runs: seq<seq<nat>>, used: set<nat>, k: nat) {
    forall u :: u in used ==> u < k || (u < |runs| && runs[u] != [] && Matched(cs, runs[u][0]))
  }

  lemma UsedMore(cs: seq<Class>, runs: seq<seq<nat>>, used: set<nat>, taken: set<nat>, k: nat)
    requires UsedRuns(cs, runs, used, k) && Taken(cs, runs, taken, k)
    ensures UsedRuns(cs, runs, used, k + 1) && UsedRuns(cs, runs, used + taken, k + 1)
  {
  }

  lemma MatchedValues(cs: seq<Class>, partner: map<nat, nat>, j: nat)
    requires Partners(cs, partner, |cs|) && j < |cs| && cs[j] == PDI
    ensures Matched(cs, j) <==> j in set i | i in partner :: partner[i]
  {
    var matched := set i | i in partner :: partner[i];
    if j in matched {
      var i :| i in partner && partner[i] == j;
      assert Pair(cs, i, j);
    }
    if Matched(cs, j) {
      var i :| Pair(cs, i, j);
      assert i in partner && partner[i] == j;
    }
  }

  /** Whether run k continues a sequence started earlier. */
  method Continues(cs: seq<Class>, runs: seq<seq<nat>>, used: set<nat>, partner: map<nat, nat>, k: nat)
      returns (skip: bool)
    requires k < |runs| && runs[k] != [] && runs[k][0] < |cs|
    requires UsedRuns(cs, runs, used, k) && Partners(cs, partner, |cs|)
    ensures skip <==> Matched(cs, runs[k][0])
  {
    var first := runs[k][0];
    var matched := set i | i in partner :: partner[i];
    if k in used {
      return true;
    }
    if cs[first] == PDI {
      MatchedValues(cs, partner, first);
    }
    skip := cs[first] == PDI && first in matched;
  }

  /** What run k adds to the sequences. */
  method OneRun(cs: seq<Class>, ghost para: nat, lev: seq<nat>, runs: seq<seq<nat>>, runOf: map<nat, nat>,
                partner: map<nat, nat>, used0: set<nat>, k: nat, ghost h: nat)
      returns (more: seq<seq<nat>>, used: set<nat>)
    requires Leveled(cs, para, lev) && Partners(cs, partner, |cs|) && IndexOf(cs, lev, runs, runOf)
    requires k < |runs| && IsKept(cs, h) && runs[k] == RunFrom(cs, lev, h) && UsedRuns(cs, runs, used0, k)
    ensures more == if Matched(cs, h) then [] else [Chain(cs, lev, h)]
    ensures UsedRuns(cs, runs, used, k + 1)
  {
    var skip := Continues(cs, runs, used0, partner, k);
    if skip {
      UsedMore(cs, runs, used0, {}, k);
      return [], used0;
    }
    var joined, taken := JoinRuns(cs, para, lev, runs, runOf, partner, k, h);
    UsedMore(cs, runs, used0, taken, k);
    used := used0 + taken;
    more := [joined];
  }

  // --------------------------------------------------------------- the partition

  /** x is at place k of sequence s. */
  ghost predicate Stands(seqs: seq<seq<nat>>, s: nat, k: nat, x: nat) {
    s < |seqs| && k < |seqs[s]| && seqs[s][k] == x
  }

  /** The sequences share out the kept characters: each is at exactly one place of exactly one
      sequence; a sequence is ascending and at one level; and they are in order of their heads. */
  ghost predicate Partitions(cs: seq<Class>, lev: seq<nat>, seqs: seq<seq<nat>>) {
    && |lev| == |cs|
    && (forall s: nat, k: nat, x: nat :: Stands(seqs, s, k, x) ==>
          IsKept(cs, x) && seqs[s][0] < |cs| && lev[x] == lev[seqs[s][0]])
    && (forall s: nat, k: nat, m: nat, x: nat, y: nat ::
          Stands(seqs, s, k, x) && Stands(seqs, s, m, y) && k < m ==> x < y)
    && (forall x: nat :: IsKept(cs, x) ==> exists s: nat, k: nat :: Stands(seqs, s, k, x))
    && (forall s: nat, k: nat, s': nat, k': nat, x: nat ::
          Stands(seqs, s, k, x) && Stands(seqs, s', k', x) ==> s == s' && k == k')
    && (forall s: nat, s': nat, x: nat, y: nat :: Stands(seqs, s, 0, x) && Stands(seqs, s', 0, y) && s < s' ==> x < y)
  }

  /** A place of a sequence is a place of the chain of its head. */
  lemma StandsInChain(cs: seq<Class>, para: nat, lev: seq<nat>, s: nat, k: nat, x: nat) returns (h: nat)
    requires Leveled(cs, para, lev) && Stands(ChainsFrom(cs, lev, AllHeads(cs, lev)), s, k, x)
    ensures s < |AllHeads(cs, lev)| && h == AllHeads(cs, lev)[s] && h < |cs| && Head(cs, lev, h)
    ensures ChainsFrom(cs, lev, AllHeads(cs, lev))[s] == Chain(cs, lev, h)
    ensures Place(cs, lev, h, k, x) && IsKept(cs, x) && lev[x] == lev[h]
  {
    hide LevelAt, Head, Matched, AllHeads;
    h := AllHeads(cs, lev)[s];
    HeadIsKept(cs, lev, h);
    ChainsAt(cs, lev, AllHeads(cs, lev), s);
    ChainSteps(cs, para, lev, h, k);
  }

  lemma HeadIsKept(cs: seq<Class>, lev: seq<nat>, h: nat)
    requires |lev| == |cs| && h in AllHeads(cs, lev)
    ensures h < |cs| && Head(cs, lev, h) && IsKept(cs, h)
  {
    AllHeadsAreHeads(cs, lev, h);
  }

  lemma KeptStands(cs: seq<Class>, para: nat, lev: seq<nat>, x: nat) returns (s: nat, k: nat)
    requires Leveled(cs, para, lev) && IsKept(cs, x)
    ensures Stands(ChainsFrom(cs, lev, AllHeads(cs, lev)), s, k, x)
  {
    hide LevelAt, Head, Matched, AllHeads;
    var h;
    h, k := EveryKeptInChain(cs, para, lev, x);
    AllHeadsAreHeads(cs, lev, h);
    s :| 0 <= s < |AllHeads(cs, lev)| && AllHeads(cs, lev)[s] == h;
    ChainsAt(cs, lev, AllHeads(cs, lev), s);
  }

  lemma StandsOnce(cs: seq<Class>, para: nat, lev: seq<nat>, s: nat, k: nat, s': nat, k': nat, x: nat)
    requires Leveled(cs, para, lev)
    requires Stands(ChainsFrom(cs, lev, AllHeads(cs, lev)), s, k, x)
    requires Stands(ChainsFrom(cs, lev, AllHeads(cs, lev)), s', k', x)
    ensures s == s' && k == k'
  {
    hide LevelAt, Head, Matched, AllHeads, Leveled;
    var h := StandsInChain(cs, para, lev, s, k, x);
    var h' := StandsInChain(cs, para, lev, s', k', x);
    OneChainOnly(cs, para, lev, h, k, h', k', x);
    AllHeadsAscend(cs, lev);
  }

  lemma StandsAscending(cs: seq<Class>, para: nat, lev: seq<nat>, s: nat, k: nat, m: nat, x: nat, y: nat)
    requires Leveled(cs, para, lev) && k < m
    requires Stands(ChainsFrom(cs, lev, AllHeads(cs, lev)), s, k, x)
    requires Stands(ChainsFrom(cs, lev, AllHeads(cs, lev)), s, m, y)
    ensures x < y
  {
    hide LevelAt, Head, Matched, AllHeads, Leveled;
    var h := StandsInChain(cs, para, lev, s, k, x);
    HeadIsKept(cs, lev, h);
    ChainAscends(cs, para, lev, h, k, m);
  }

  lemma HeadsInOrder(cs: seq<Class>, para: nat, lev: seq<nat>, s: nat, s': nat, x: nat, y: nat)
    requires Leveled(cs, para, lev) && s < s'
    requires Stands(ChainsFrom(cs, lev, AllHeads(cs, lev)), s, 0, x)
    requires Stands(ChainsFrom(cs, lev, AllHeads(cs, lev)), s', 0, y)
    ensures x < y
  {
    hide LevelAt, Head, Matched, AllHeads, Leveled;
    var h := StandsInChain(cs, para, lev, s, 0, x);
    var h' := StandsInChain(cs, para, lev, s', 0, y);
    AllHeadsAscend(cs, lev);
  }

  /** The isolating run sequences of a text are a partition of its kept characters. */
  lemma SequencesPartition(cs: seq<Class>, para: nat, lev: seq<nat>)
    requires Leveled(cs, para, lev)
    ensures Partitions(cs, lev, ChainsFrom(cs, lev, AllHeads(cs, lev)))
  {
    hide LevelAt, AllHeads, ChainsFrom, Stands, IsKept;
    var seqs := ChainsFrom(cs, lev, AllHeads(cs, lev));
    forall s: nat, k: nat, x: nat | Stands(seqs, s, k, x)
      ensures IsKept(cs, x) && s < |seqs| && |seqs[s]| > 0 && seqs[s][0] < |cs| && x < |cs| && lev[x] == lev[seqs[s][0]]
    {
      var h := StandsInChain(cs, para, lev, s, k, x);
      KeptInText(cs, x);
    }
    forall s: nat, k: nat, m: nat, x: nat, y: nat | Stands(seqs, s, k, x) && Stands(seqs, s, m, y) && k < m
      ensures x < y
    {
      StandsAscending(cs, para, lev, s, k, m, x, y);
    }
    forall x: nat | IsKept(cs, x) ensures exists s: nat, k: nat :: Stands(seqs, s, k, x) {
      var s, k := KeptStands(cs, para, lev, x);
    }
    forall s: nat, k: nat, s': nat, k': nat, x: nat | Stands(seqs, s, k, x) && Stands(seqs, s', k', x)
      ensures s == s' && k == k'
    {
      StandsOnce(cs, para, lev, s, k, s', k', x);
    }
    forall s: nat, s': nat, x: nat, y: nat | Stands(seqs, s, 0, x) && Stands(seqs, s', 0, y) && s < s' ensures x < y {
      HeadsInOrder(cs, para, lev, s, s', x, y);
    }
  }

  lemma KeptInText(cs: seq<Class>, x: nat)
    requires IsKept(cs, x)
    ensures x < |cs|
  {
  }

  /** X10: all isolating run sequences, in order of their heads. */
  method Sequences(cs: seq<Class>, ghost para: nat, lev: seq<nat>) returns (seqs: seq<seq<nat>>)
    requires Leveled(cs, para, lev)
    ensures seqs == ChainsFrom(cs, lev, AllHeads(cs, lev)) && Partitions(cs, lev, seqs)
  {
    hide Partitions;
    var runs := LevelRuns(cs, lev);
    var partner := MatchAll(cs);
    var runOf := IndexRuns(cs, lev, runs);
    ghost var starts := StartsBelow(cs, lev, |cs|);
    seqs := [];
    var used: set<nat> := {};
    for k := 0 to |runs|
      invariant seqs == ChainsFrom(cs, lev, HeadsOf(cs, starts, k))
      invariant UsedRuns(cs, runs, used, k)
    {
      RunAt(cs, lev, k);
      OneMoreHead(cs, lev, starts, k);
      var more;
      more, used := OneRun(cs, para, lev, runs, runOf, partner, used, k, starts[k]);
      seqs := seqs + more;
    }
    SequencesPartition(cs, para, lev);
  }
}
