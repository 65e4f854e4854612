/** The method that resolves the levels of a paragraph, one loop for each
    rule, and rule L1. */
module BidiLevels {
  import opened Wrappers
  import opened BidiTypes
  import opened BidiIsolates
  import opened BidiExplicit
  import opened BidiSequences
  import opened BidiRuns
  import opened BidiWeak
  import opened BidiNeutral
  import opened BidiResolve

  // ------------------------------------------------------------ the kept list

  /** The kept indices below n. */
  function KeptBelow(cs: seq<Class>, n: nat): seq<nat>
    requires n <= |cs|
  {
    if n == 0 then [] else KeptBelow(cs, n - 1) + (if Removed(cs[n - 1]) then [] else [n - 1])
  }

  method KeptList(cs: seq<Class>) returns (kept: seq<nat>)
    ensures kept == KeptBelow(cs, |cs|)
  {
    kept := [];
    for i := 0 to |cs|
      invariant kept == KeptBelow(cs, i)
    {
      if !Removed(cs[i]) {
        kept := kept + [i];
      }
    }
  }

  lemma {:induction false} KeptPlace(cs: seq<Class>, n: nat, p: nat)
    requires n <= |cs| && p < |KeptBelow(cs, n)|
    ensures var i := KeptBelow(cs, n)[p]; i < n && IsKept(cs, i)
    ensures KeptBelow(cs, KeptBelow(cs, n)[p]) == KeptBelow(cs, n)[..p]
    decreases n
  {
    if p < |KeptBelow(cs, n - 1)| {
      KeptPlace(cs, n - 1, p);
      assert KeptBelow(cs, n)[..p] == KeptBelow(cs, n - 1)[..p];
    }
  }

  /** The last of the kept below k. */
  lemma {:induction false} LastOfKept(cs: seq<Class>, k: nat)
    requires k <= |cs|
    ensures LastKept(cs, k) == if KeptBelow(cs, k) == [] then None else Some(KeptBelow(cs, k)[|KeptBelow(cs, k)| - 1])
  {
    if k > 0 && Removed(cs[k - 1]) {
      LastOfKept(cs, k - 1);
    }
  }

  /** Where the list goes on after place p. */
  lemma KeptAfter(cs: seq<Class>, p: nat)
    requires p < |KeptBelow(cs, |cs|)|
    ensures var kept := KeptBelow(cs, |cs|);
      && IsKept(cs, kept[p]) && (p + 1 < |kept| ==> IsKept(cs, kept[p + 1]))
      && FirstKept(cs, kept[p] + 1) == if p + 1 < |kept| then kept[p + 1] else |cs|
  {
    hide KeptBelow, FirstKept, LastKept;
    var kept := KeptBelow(cs, |cs|);
    KeptPlace(cs, |cs|, p);
    if p + 1 < |kept| {
      KeptPlace(cs, |cs|, p + 1);
      LastOfKept(cs, kept[p + 1]);
      FirstLast(cs, kept[p], kept[p + 1]);
    } else {
      LastOfKept(cs, |cs|);
    }
  }

  lemma KeptBefore(cs: seq<Class>, p: nat)
    requires p < |KeptBelow(cs, |cs|)|
    ensures var kept := KeptBelow(cs, |cs|);
      && kept[p] <= |cs|
      && LastKept(cs, kept[p]) == if p == 0 then None else Some(kept[p - 1])
  {
    KeptPlace(cs, |cs|, p);
    LastOfKept(cs, KeptBelow(cs, |cs|)[p]);
  }

  /** Where each kept index is in the list. */
  ghost predicate Positions(cs: seq<Class>, pos: map<nat, nat>) {
    forall i: nat :: IsKept(cs, i) ==> i in pos && pos[i] < |KeptBelow(cs, |cs|)| && KeptBelow(cs, |cs|)[pos[i]] == i
  }

  lemma {:induction false} InKept(cs: seq<Class>, n: nat, i: nat) returns (p: nat)
    requires i < n <= |cs| && IsKept(cs, i)
    ensures p < |KeptBelow(cs, n)| && KeptBelow(cs, n)[p] == i
    decreases n
  {
    if i == n - 1 {
      p := |KeptBelow(cs, n)| - 1;
    } else {
      p := InKept(cs, n - 1, i);
    }
  }

  method IndexKept(cs: seq<Class>, kept: seq<nat>) returns (pos: map<nat, nat>)
    requires kept == KeptBelow(cs, |cs|)
    ensures Positions(cs, pos)
  {
    pos := map[];
    for p := 0 to |kept|
      invariant forall i :: i in pos ==> pos[i] < |kept| && kept[pos[i]] == i
      invariant forall q :: 0 <= q < p ==> kept[q] in pos
    {
      pos := pos[kept[p] := p];
    }
    forall i: nat | IsKept(cs, i) ensures i in pos {
      var p := InKept(cs, |cs|, i);
    }
  }

  // ------------------------------------------------------------ one sequence

  lemma SidesAre(cs: seq<Class>, para: nat, lev: seq<nat>, p0: nat, p1: nat)
    requires |lev| == |cs| && p0 < |KeptBelow(cs, |cs|)| && p1 < |KeptBelow(cs, |cs|)|
    ensures var kept := KeptBelow(cs, |cs|);
      var h, last := kept[p0], kept[p1];
      && h < |cs| && last < |cs| && (p0 > 0 ==> kept[p0 - 1] < |cs|) && (p1 + 1 < |kept| ==> kept[p1 + 1] < |cs|)
      && Sos(cs, para, lev, h) == DirectionOf(lev[h], if p0 > 0 then lev[kept[p0 - 1]] else para)
      && Eos(cs, para, lev, h, last) ==
         DirectionOf(lev[h], if Isolate(cs[last]) || p1 + 1 >= |kept| then para else lev[kept[p1 + 1]])
  {
    hide KeptBelow, LastKept, FirstKept, DirectionOf, Isolate;
    KeptAfter(cs, p0);
    KeptBefore(cs, p0);
    KeptAfter(cs, p1);
  }

  method Sides(cs: seq<Class>, para: nat, lev: seq<nat>, kept: seq<nat>, pos: map<nat, nat>, h: nat, last: nat)
    returns (sos: Class, eos: Class)
    requires |lev| == |cs| && kept == KeptBelow(cs, |cs|) && Positions(cs, pos) && IsKept(cs, h) && IsKept(cs, last)
    ensures sos == Sos(cs, para, lev, h) && eos == Eos(cs, para, lev, h, last)
  {
    hide KeptBelow, LastKept, FirstKept, DirectionOf, Sos, Eos;
    var p0, p1 := pos[h], pos[last];
    SidesAre(cs, para, lev, p0, p1);
    var prev := if p0 > 0 then lev[kept[p0 - 1]] else para;
    var next := if Isolate(cs[last]) || p1 + 1 >= |kept| then para else lev[kept[p1 + 1]];
    sos, eos := DirectionOf(lev[h], prev), DirectionOf(lev[h], next);
  }

  /** The types, classes and brackets along a sequence. */
  method Gather(cs: seq<Class>, t: seq<Class>, br: Brackets, q: seq<nat>) returns (ty: Types, orig: Types, b: Brackets)
    requires |cs| == |t| == |br| && Within(q, |cs|)
    ensures ty == Pick(t, q) && orig == Pick(cs, q) && b == Pick(br, q)
  {
    ty, orig, b := [], [], [];
    for k := 0 to |q|
      invariant |ty| == |orig| == |b| == k
      invariant forall j :: 0 <= j < k ==> ty[j] == t[q[j]] && orig[j] == cs[q[j]] && b[j] == br[q[j]]
    {
      ty, orig, b := ty + [t[q[k]]], orig + [cs[q[k]]], b + [br[q[k]]];
    }
  }

  /** The resolved types go back to their places. */
  method Scatter(t0: seq<Class>, q: seq<nat>, ty: Types) returns (t: seq<Class>)
    requires |ty| == |q| && Within(q, |t0|) && forall j, k :: 0 <= j < k < |q| ==> q[j] < q[k]
    ensures |t| == |t0| && Pick(t, q) == ty && forall x :: 0 <= x < |t| && x !in q ==> t[x] == t0[x]
  {
    t := t0;
    for k := 0 to |q|
      invariant |t| == |t0|
      invariant forall j :: 0 <= j < k ==> t[q[j]] == ty[j]
      invariant forall x :: 0 <= x < |t| && x !in q ==> t[x] == t0[x]
    {
      t := t[q[k] := ty[k]];
    }
  }

  /** t on the places of the sequence of h: resolved, or as after X1 to X8. */
  ghost predicate Done(cs: seq<Class>, br: Brackets, para: nat, h: nat, t: seq<Class>)
    requires |cs| == |br| == |t| && para <= 1 && IsKept(cs, h)
  {
    forall k: nat, x: nat :: Place(cs, Lev(cs, para), h, k, x) ==> x < |cs| && t[x] == ResultAt(cs, br, para, h, k)
  }

  ghost predicate Untouched(cs: seq<Class>, para: nat, h: nat, t: seq<Class>)
    requires |cs| == |t|
  {
    forall k: nat, x: nat :: Place(cs, Lev(cs, para), h, k, x) ==> x < |cs| && t[x] == TypeAt(cs, para, x)
  }

  method OneSequence(cs: seq<Class>, br: Brackets, para: nat, lev: seq<nat>, kept: seq<nat>, pos: map<nat, nat>,
                     t0: seq<Class>, q: seq<nat>, ghost h: nat) returns (t: seq<Class>)
    requires |cs| == |br| == |t0| && para <= 1 && lev == Lev(cs, para) && IsKept(cs, h)
    requires kept == KeptBelow(cs, |cs|) && Positions(cs, pos) && q == Chain(cs, lev, h)
    requires Untouched(cs, para, h, t0)
    ensures |t| == |cs| && Done(cs, br, para, h, t)
    ensures forall x :: 0 <= x < |t| && x !in q ==> t[x] == t0[x]
  {
    hide Resolved, Chain, LevelAt, TypeAt;
    LevLeveled(cs, para);
    ChainWithin(cs, para, lev, h);
    var last := q[|q| - 1];
    var sos, eos := Sides(cs, para, lev, kept, pos, q[0], last);
    var ty, orig, b := Gather(cs, t0, br, q);
    forall k | 0 <= k < |q| ensures t0[q[k]] == Typ(cs, para)[q[k]] && !Removed(ty[k]) {
      assert Place(cs, lev, h, k, q[k]);
      TypKept(cs, para, q[k]);
    }
    assert ty == Pick(Typ(cs, para), q);
    ty := ResolveSequence(ty, orig, b, lev[q[0]], sos, eos);
    forall j, k | 0 <= j < k < |q| ensures q[j] < q[k] {
      ChainAscends(cs, para, lev, h, j, k);
    }
    t := Scatter(t0, q, ty);
    assert Pick(t, q) == Result(cs, br, para, lev, q);
    forall k: nat, x: nat | Place(cs, lev, h, k, x) ensures x < |cs| && t[x] == ResultAt(cs, br, para, h, k) {
      assert x == q[k] && t[q[k]] == Pick(t, q)[k];
    }
  }

  // ------------------------------------------------------------ all sequences

  /** The first n sequences are resolved, the others still to be. */
  ghost predicate Progress(cs: seq<Class>, br: Brackets, para: nat, heads: seq<nat>, n: nat, t: seq<Class>) {
    && |cs| == |br| == |t| && para <= 1
    && (forall s :: 0 <= s < |heads| ==> IsKept(cs, heads[s]) && Head(cs, Lev(cs, para), heads[s]))
    && (forall s :: 0 <= s < |heads| && s < n ==> Done(cs, br, para, heads[s], t))
    && (forall s :: n <= s < |heads| ==> Untouched(cs, para, heads[s], t))
  }

  /** A change on the sequence of h' leaves the sequence of another head as it was. */
  lemma OthersKeep(cs: seq<Class>, br: Brackets, para: nat, h: nat, h': nat, t: seq<Class>, t': seq<Class>)
    requires |cs| == |br| == |t| == |t'| && para <= 1 && IsKept(cs, h) && IsKept(cs, h') && h != h'
    requires Head(cs, Lev(cs, para), h) && Head(cs, Lev(cs, para), h')
    requires forall x :: 0 <= x < |t| && x !in Chain(cs, Lev(cs, para), h') ==> t'[x] == t[x]
    ensures Done(cs, br, para, h, t) ==> Done(cs, br, para, h, t')
    ensures Untouched(cs, para, h, t) ==> Untouched(cs, para, h, t')
  {
    hide Chain, LevelAt, TypeAt, Head, ResultAt;
    forall k: nat, x: nat | Place(cs, Lev(cs, para), h, k, x) ensures x < |cs| && t'[x] == t[x] {
      OtherChain(cs, para, h, k, h', x);
    }
  }

  /** Resolving one sequence leaves the others alone. */
  lemma ProgressMore(cs: seq<Class>, br: Brackets, para: nat, heads: seq<nat>, n: nat, t: seq<Class>, t': seq<Class>)
    requires Progress(cs, br, para, heads, n, t) && n < |heads| && |t'| == |t|
    requires (forall s :: 0 <= s < |heads| && s != n ==> heads[s] != heads[n]) && Done(cs, br, para, heads[n], t')
    requires forall x :: 0 <= x < |t| && x !in Chain(cs, Lev(cs, para), heads[n]) ==> t'[x] == t[x]
    ensures Progress(cs, br, para, heads, n + 1, t')
  {
    hide Chain, LevelAt, TypeAt, Head, ResultAt, Done, Untouched, IsKept;
    forall s | 0 <= s < |heads| && s != n
      ensures Done(cs, br, para, heads[s], t) ==> Done(cs, br, para, heads[s], t')
      ensures Untouched(cs, para, heads[s], t) ==> Untouched(cs, para, heads[s], t')
    {
      OthersKeep(cs, br, para, heads[s], heads[n], t, t');
    }
  }

  lemma OtherChain(cs: seq<Class>, para: nat, h: nat, k: nat, h': nat, x: nat)
    requires para <= 1 && h < |cs| && h' < |cs| && h != h'
    requires Head(cs, Lev(cs, para), h) && Head(cs, Lev(cs, para), h') && Place(cs, Lev(cs, para), h, k, x)
    ensures x < |cs| && x !in Chain(cs, Lev(cs, para), h')
  {
    var lev := Lev(cs, para);
    LevLeveled(cs, para);
    ChainWithin(cs, para, lev, h);
    if x in Chain(cs, lev, h') {
      var k' :| 0 <= k' < |Chain(cs, lev, h')| && Chain(cs, lev, h')[k'] == x;
      OneChainOnly(cs, para, lev, h, k, h', k', x);
    }
  }

  lemma StartProgress(cs: seq<Class>, br: Brackets, para: nat, t: seq<Class>)
    requires |cs| == |br| == |t| && para <= 1 && forall x :: 0 <= x < |cs| ==> t[x] == TypeAt(cs, para, x)
    ensures Progress(cs, br, para, AllHeads(cs, Lev(cs, para)), 0, t)
  {
    var lev := Lev(cs, para);
    LevLeveled(cs, para);
    var heads := AllHeads(cs, lev);
    forall s | 0 <= s < |heads|
      ensures IsKept(cs, heads[s]) && Head(cs, lev, heads[s]) && Untouched(cs, para, heads[s], t)
    {
      AllHeadsAreHeads(cs, lev, heads[s]);
      ChainWithin(cs, para, lev, heads[s]);
    }
  }

  /** X1 to I2: the levels before L1. */
  method ResolveLevels(cs: seq<Class>, br: Brackets, para: nat) returns (levels: seq<nat>)
    requires |br| == |cs| && para <= 1
    ensures LevelsOf(cs, br, para, levels) && LevelsSuit(cs, br, para, levels)
  {
    var lev, t := Explicit(cs, para);
    assert lev == Lev(cs, para);
    LevLeveled(cs, para);
    var kept := KeptList(cs);
    var seqs := Sequences(cs, para, lev);
    var pos := IndexKept(cs, kept);
    ghost var heads := AllHeads(cs, lev);
    AllHeadsAscend(cs, lev);
    StartProgress(cs, br, para, t);
    for s := 0 to |seqs|
      invariant Progress(cs, br, para, heads, s, t)
    {
      ghost var before := t;
      ChainsAt(cs, lev, heads, s);
      t := OneSequence(cs, br, para, lev, kept, pos, t, seqs[s], heads[s]);
      ProgressMore(cs, br, para, heads, s, before, t);
    }
    levels := ImplicitLevels(cs, br, para, lev, kept, t, heads);
    LevelsOfSuit(cs, br, para, levels);
  }

  /** I1, I2 on every kept character. */
  method ImplicitLevels(cs: seq<Class>, br: Brackets, para: nat, lev: seq<nat>, kept: seq<nat>, t: seq<Class>,
                        ghost heads: seq<nat>)
    returns (levels: seq<nat>)
    requires |br| == |cs| && para <= 1 && lev == Lev(cs, para) && kept == KeptBelow(cs, |cs|)
    requires heads == AllHeads(cs, lev) && Progress(cs, br, para, heads, |heads|, t)
    ensures LevelsOf(cs, br, para, levels)
  {
    SameLengths(cs, br, para, heads, |heads|, t);
    LevLeveled(cs, para);
    hide Lev, LevelAt, Progress, AllHeads, KeptBelow, Implicit, LevelsOf, RaisedTo;
    levels := lev;
    NoneRaised(lev, t, kept);
    for p := 0 to |kept|
      invariant RaisedTo(lev, t, kept, p, levels) && |levels| == |lev|
    {
      KeptPlace(cs, |cs|, p);
      NotYet(cs, p);
      OneRaised(lev, t, kept, p, levels);
      levels := levels[kept[p] := Implicit(levels[kept[p]], t[kept[p]])];
    }
    AllRaised(lev, t, kept, levels);
    LevelsDone(cs, br, para, levels, t);
  }

  /** The first p kept characters have their implicit levels, all others the explicit ones. */
  ghost predicate RaisedTo(lev: seq<nat>, t: seq<Class>, kept: seq<nat>, p: nat, levels: seq<nat>) {
    |levels| == |lev| == |t| && p <= |kept| && forall x :: 0 <= x < |lev| ==>
      levels[x] == if x in kept[..p] then Implicit(lev[x], t[x]) else lev[x]
  }

  lemma NoneRaised(lev: seq<nat>, t: seq<Class>, kept: seq<nat>)
    requires |lev| == |t|
    ensures RaisedTo(lev, t, kept, 0, lev)
  {
  }

  lemma OneRaised(lev: seq<nat>, t: seq<Class>, kept: seq<nat>, p: nat, levels: seq<nat>)
    requires RaisedTo(lev, t, kept, p, levels) && p < |kept| && kept[p] < |lev| && kept[p] !in kept[..p]
    ensures RaisedTo(lev, t, kept, p + 1, levels[kept[p] := Implicit(levels[kept[p]], t[kept[p]])])
  {
    hide Implicit;
    assert kept[..p + 1] == kept[..p] + [kept[p]];
  }

  lemma AllRaised(lev: seq<nat>, t: seq<Class>, kept: seq<nat>, levels: seq<nat>)
    requires RaisedTo(lev, t, kept, |kept|, levels)
    ensures forall x :: 0 <= x < |lev| ==> levels[x] == if x in kept then Implicit(lev[x], t[x]) else lev[x]
  {
    assert kept[..|kept|] == kept;
  }

  lemma SameLengths(cs: seq<Class>, br: Brackets, para: nat, heads: seq<nat>, n: nat, t: seq<Class>)
    requires Progress(cs, br, para, heads, n, t)
    ensures |t| == |cs|
  {
  }

  lemma NotYet(cs: seq<Class>, p: nat)
    requires p < |KeptBelow(cs, |cs|)|
    ensures KeptBelow(cs, |cs|)[p] !in KeptBelow(cs, |cs|)[..p]
  {
    KeptPlace(cs, |cs|, p);
    var i := KeptBelow(cs, |cs|)[p];
    if i in KeptBelow(cs, i) {
      var q :| 0 <= q < |KeptBelow(cs, i)| && KeptBelow(cs, i)[q] == i;
      KeptPlace(cs, i, q);
    }
  }

  lemma LevelsDone(cs: seq<Class>, br: Brackets, para: nat, levels: seq<nat>, t: seq<Class>)
    requires |br| == |cs| == |levels| == |t| && para <= 1
    requires Progress(cs, br, para, AllHeads(cs, Lev(cs, para)), |AllHeads(cs, Lev(cs, para))|, t)
    requires forall x :: 0 <= x < |cs| ==>
      levels[x] == if x in KeptBelow(cs, |cs|) then Implicit(LevelAt(cs, para, x), t[x]) else LevelAt(cs, para, x)
    ensures LevelsOf(cs, br, para, levels)
  {
    var lev, heads := Lev(cs, para), AllHeads(cs, Lev(cs, para));
    LevLeveled(cs, para);
    forall x | 0 <= x < |cs| && Removed(cs[x]) ensures x !in KeptBelow(cs, |cs|) {
      if x in KeptBelow(cs, |cs|) {
        var p :| 0 <= p < |KeptBelow(cs, |cs|)| && KeptBelow(cs, |cs|)[p] == x;
        KeptPlace(cs, |cs|, p);
      }
    }
    forall h: nat, k: nat, x: nat | Place(cs, lev, h, k, x) && Head(cs, lev, h)
      ensures x < |cs| && levels[x] == Implicit(LevelAt(cs, para, x), ResultAt(cs, br, para, h, k))
    {
      PlaceDone(cs, br, para, t, h, k, x);
    }
  }

  lemma PlaceDone(cs: seq<Class>, br: Brackets, para: nat, t: seq<Class>, h: nat, k: nat, x: nat)
    requires |br| == |cs| == |t| && para <= 1 && h < |cs|
    requires Progress(cs, br, para, AllHeads(cs, Lev(cs, para)), |AllHeads(cs, Lev(cs, para))|, t)
    requires Place(cs, Lev(cs, para), h, k, x) && Head(cs, Lev(cs, para), h)
    ensures x < |cs| && x in KeptBelow(cs, |cs|) && t[x] == ResultAt(cs, br, para, h, k)
  {
    hide Resolved, Chain, LevelAt, TypeAt, ResultAt;
    var lev, heads := Lev(cs, para), AllHeads(cs, Lev(cs, para));
    LevLeveled(cs, para);
    ChainWithin(cs, para, lev, h);
    AllHeadsAreHeads(cs, lev, h);
    var s :| 0 <= s < |heads| && heads[s] == h;
    assert Done(cs, br, para, heads[s], t);
    var p := InKept(cs, |cs|, x);
  }

  // -------------------------------------------------------------------- L1

  predicate Blank(c: Class) { c == WS || Isolate(c) || c == PDI || Removed(c) }

  predicate Break(c: Class) { c == S || c == B }

  /** From i on there is only white space, isolate controls and removed characters up to a
      separator or the end of the text. */
  ghost predicate Trails(cs: seq<Class>, i: nat)
    requires i <= |cs|
    decreases |cs| - i
  {
    i == |cs| || Break(cs[i]) || (Blank(cs[i]) && Trails(cs, i + 1))
  }

  /** What L1 passes over: white space, isolate controls and removed characters. */
  ghost predicate PassedOver(c: Class) {
    || c == WS || c == LRI || c == RLI || c == FSI || c == PDI
    || c == RLE || c == LRE || c == RLO || c == LRO || c == PDF || c == BN
  }

  ghost predicate TrailsTo(cs: seq<Class>, i: nat, j: nat) {
    && i <= j <= |cs| && (j == |cs| || cs[j] == S || cs[j] == B)
    && forall x :: i <= x < j ==> PassedOver(cs[x])
  }

  /** That is: only such characters come before the next separator or the end. */
  lemma {:induction false} TrailsIs(cs: seq<Class>, i: nat)
    requires i <= |cs|
    ensures Trails(cs, i) <==> exists j: nat :: TrailsTo(cs, i, j)
    decreases |cs| - i
  {
    if i == |cs| || cs[i] == S || cs[i] == B {
      assert TrailsTo(cs, i, i);
    } else {
      TrailsIs(cs, i + 1);
      if Trails(cs, i) {
        var j: nat :| TrailsTo(cs, i + 1, j);
        assert TrailsTo(cs, i, j);
      } else {
        assert forall j: nat :: TrailsTo(cs, i, j) ==> PassedOver(cs[i]) && TrailsTo(cs, i + 1, j);
      }
    }
  }

  /** L1: separators, and what trails before them or the end, get the paragraph level. */
  ghost predicate L1(cs: seq<Class>, para: nat, before: seq<nat>, after: seq<nat>) {
    && |before| == |after| == |cs|
    && forall i :: 0 <= i < |cs| ==> after[i] == if Trails(cs, i) then para else before[i]
  }

  /** Separators get the paragraph level, white space only when it trails; all but white space,
      controls and separators keep their levels. */
  lemma L1Keeps(cs: seq<Class>, para: nat, before: seq<nat>, after: seq<nat>, i: nat)
    requires L1(cs, para, before, after) && i < |cs|
    ensures cs[i] == S || cs[i] == B ==> after[i] == para
    ensures cs[i] != S && cs[i] != B && !PassedOver(cs[i]) ==> after[i] == before[i]
    ensures PassedOver(cs[i]) && (exists j: nat :: TrailsTo(cs, i, j)) ==> after[i] == para
    ensures PassedOver(cs[i]) && (forall j: nat :: !TrailsTo(cs, i, j)) ==> after[i] == before[i]
  {
    TrailsIs(cs, i);
  }

  method TrailingLevels(cs: seq<Class>, para: nat, levels0: seq<nat>) returns (levels: seq<nat>)
    requires |levels0| == |cs|
    ensures L1(cs, para, levels0, levels)
  {
    levels := levels0;
    var trailing := true;
    var i := |cs|;
    while i > 0
      invariant 0 <= i <= |cs| == |levels| && (trailing <==> Trails(cs, i))
      invariant forall j :: 0 <= j < |cs| ==> levels[j] == if j >= i && Trails(cs, j) then para else levels0[j]
    {
      i := i - 1;
      if Break(cs[i]) {
        levels := levels[i := para];
        trailing := true;
      } else if Blank(cs[i]) {
        if trailing {
          levels := levels[i := para];
        }
      } else {
        trailing := false;
      }
    }
  }

  // -------------------------------------------------------------- the paragraph

  /** The levels of a text: none for removed characters. */
  method Resolve(cs: seq<Class>, direction: nat, br: Brackets)
    returns (out: seq<Option<nat>>, para: nat, ghost before: seq<nat>, ghost after: seq<nat>)
    requires |br| == |cs| && direction <= 2
    ensures para == ParagraphLevel(cs, direction) && para <= 1
    ensures LevelsOf(cs, br, para, before) && LevelsSuit(cs, br, para, before) && L1(cs, para, before, after)
    ensures |out| == |cs| && forall i :: 0 <= i < |cs| ==> out[i] == if Removed(cs[i]) then None else Some(after[i])
    ensures forall i :: 0 <= i < |cs| ==>
      (out[i].None? <==> cs[i] == RLE || cs[i] == LRE || cs[i] == RLO || cs[i] == LRO || cs[i] == PDF || cs[i] == BN)
  {
    hide LevelsOf, LevelsSuit, FirstStrong, Trails;
    if direction == 2 {
      StrongIsLevel(cs, 0, |cs|);
      var strong := FindFirstStrong(cs, 0, |cs|);
      para := match strong case Some(d) => d case None => 0;
    } else {
      para := direction;
    }
    var levels := ResolveLevels(cs, br, para);
    before := levels;
    levels := TrailingLevels(cs, para, levels);
    after := levels;
    out := [];
    for i := 0 to |cs|
      invariant |out| == i && forall j :: 0 <= j < i ==> out[j] == if Removed(cs[j]) then None else Some(levels[j])
    {
      out := out + [if Removed(cs[i]) then None else Some(levels[i])];
    }
  }
}
