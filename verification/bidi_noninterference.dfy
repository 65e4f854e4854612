/** Isolates do what their name says: whatever stands inside a matched isolate that is
    entered, the levels of everything outside it are the same. */
module BidiNoninterference {
  import opened Wrappers
  import opened BidiTypes
  import opened BidiIsolates
  import opened BidiExplicit
  import opened BidiSequences
  import opened BidiRuns
  import opened BidiWeak
  import opened BidiNeutral
  import opened BidiResolve

  /** Two texts that differ only inside the isolate at a, whose PDI is at j1 and j2. */
  datatype Twins = Twins(one: seq<Class>, two: seq<Class>, a: nat, j1: nat, j2: nat) {
    ghost predicate Valid() {
      && a < j1 < |one| && a < j2 < |two| && Isolate(one[a])
      && Match(one, a) == j1 && Match(two, a) == j2
      && |one| - j1 == |two| - j2
      && forall k :: SameAt(k)
    }

    ghost predicate SameAt(k: nat) {
      a < j1 && Outer(k) && k < |one| ==> To(k) < |two| && two[To(k)] == one[k]
    }

    /** An index of the first text outside the isolate's content. */
    predicate Outer(k: nat) { k <= a || (j1 <= k <= |one|) }

    /** Where it is in the second text. */
    function To(k: nat): nat
      requires Outer(k) && a < j1
    {
      if k <= a then k else k - j1 + j2
    }
  }

  lemma Same(t: Twins, k: nat)
    requires t.Valid() && t.Outer(k) && k < |t.one|
    ensures t.To(k) < |t.two| && t.two[t.To(k)] == t.one[k]
  {
    assert t.SameAt(k);
  }

  /** All of being twins but that the texts agree, for proofs in which Same says where they do. */
  lemma Parts(t: Twins)
    requires t.Valid()
    ensures t.a < t.j1 < |t.one| && t.a < t.j2 < |t.two| && Isolate(t.one[t.a]) && |t.one| - t.j1 == |t.two| - t.j2
    ensures Match(t.one, t.a) == t.j1 && Match(t.two, t.a) == t.j2
  {
  }

  // ----------------------------------------------------------------- matching

  lemma {:induction false} SkipInner(cs: seq<Class>, i: nat, k: nat, d: nat)
    requires Inner(cs, i, k) && d > 0
    ensures MatchFrom(cs, i, d) == MatchFrom(cs, k, d + Opens(cs, i, k))
    decreases k - i
  {
    if i < k {
      assert Inner(cs, i, k - 1);
      SkipInner(cs, i, k - 1, d);
      assert Opens(cs, i, k) >= 0;
    }
  }

  /** A search goes past a matched isolate. */
  lemma SkipIsolate(cs: seq<Class>, a: nat, d: nat)
    requires a < |cs| && Isolate(cs[a]) && Match(cs, a) < |cs| && d > 0
    ensures MatchFrom(cs, a, d) == MatchFrom(cs, Match(cs, a) + 1, d)
  {
    var j := Match(cs, a);
    MatchBalanced(cs, a, j);
    SkipInner(cs, a + 1, j, d + 1);
  }

  lemma Skips(t: Twins, d: nat)
    requires t.Valid() && d > 0
    ensures MatchFrom(t.one, t.a, d) == MatchFrom(t.one, t.j1 + 1, d)
    ensures MatchFrom(t.two, t.a, d) == MatchFrom(t.two, t.j2 + 1, d)
  {
    Same(t, t.a);
    SkipIsolate(t.one, t.a, d);
    SkipIsolate(t.two, t.a, d);
  }

  /** A search that starts outside goes past the isolate. */
  lemma {:induction false} SameSearch(t: Twins, x: nat, d: nat)
    requires t.Valid() && t.Outer(x) && d > 0
    ensures t.To(x) <= |t.two|
    ensures t.Outer(MatchFrom(t.one, x, d)) && MatchFrom(t.two, t.To(x), d) == t.To(MatchFrom(t.one, x, d))
    decreases |t.one| - x
  {
    hide Twins.Valid, MatchFrom, Isolate;
    Parts(t);
    if x == t.a {
      Skips(t, d);
      SameSearch(t, t.j1 + 1, d);
    } else if x == |t.one| {
      SearchStep(t.one, x, d);
      SearchStep(t.two, t.To(x), d);
    } else {
      Same(t, x);
      SearchStep(t.one, x, d);
      SearchStep(t.two, t.To(x), d);
      if Isolate(t.one[x]) {
        SameSearch(t, x + 1, d + 1);
      } else if t.one[x] == PDI {
        if d > 1 {
          SameSearch(t, x + 1, d - 1);
        }
      } else if t.one[x] != B {
        SameSearch(t, x + 1, d);
      }
    }
  }

  lemma SameMatch(t: Twins, i: nat)
    requires t.Valid() && t.Outer(i) && i < |t.one|
    ensures t.To(i) < |t.two| && t.Outer(Match(t.one, i)) && Match(t.two, t.To(i)) == t.To(Match(t.one, i))
    ensures Match(t.one, i) != t.a && (Match(t.one, i) == |t.one| <==> Match(t.two, t.To(i)) == |t.two|)
  {
    Same(t, i);
    if i != t.a {
      SameSearch(t, i + 1, 1);
    }
    if Match(t.one, i) < |t.one| {
      MatchBalanced(t.one, i, Match(t.one, i));
    }
  }

  // ------------------------------------------------------ the first strong type

  lemma {:induction false} SameFirstStrong(t: Twins, x: nat, end: nat)
    requires t.Valid() && t.Outer(x) && t.Outer(end) && end <= |t.one|
    ensures t.To(end) <= |t.two| && FirstStrong(t.two, t.To(x), t.To(end)) == FirstStrong(t.one, x, end)
    decreases |t.one| - x
  {
    hide MatchFrom, Match, Isolate, Twins.Valid;
    Parts(t);
    if x < end {
      Same(t, x);
      SameMatch(t, x);
      if Isolate(t.one[x]) {
        if Match(t.one, x) < |t.one| {
          SameFirstStrong(t, Match(t.one, x) + 1, end);
        }
      } else {
        SameFirstStrong(t, x + 1, end);
      }
    }
  }

  /** P2, P3: the paragraph direction found in the text is the same. */
  lemma SameParagraph(t: Twins)
    requires t.Valid()
    ensures FirstStrong(t.two, 0, |t.two|) == FirstStrong(t.one, 0, |t.one|)
  {
    SameFirstStrong(t, 0, |t.one|);
  }

  // ----------------------------------------------------- explicit levels, types

  lemma SameRtl(t: Twins, i: nat)
    requires t.Valid() && t.Outer(i) && i < |t.one| && i != t.a
    ensures t.To(i) < |t.two| && Rtl(t.two, t.To(i)) == Rtl(t.one, i)
  {
    hide MatchFrom, Twins.Valid, FirstStrong;
    Parts(t);
    Same(t, i);
    SameMatch(t, i);
    SameFirstStrong(t, i + 1, Match(t.one, i));
  }

  lemma AfterIsolate(t: Twins, para: nat)
    requires t.Valid()
    ensures At(t.one, para, t.j1 + 1) == At(t.one, para, t.a)
    ensures At(t.two, para, t.j2 + 1) == At(t.two, para, t.a)
  {
    Same(t, t.a);
    IsolateRestores(t.one, para, t.a);
    IsolateRestores(t.two, para, t.a);
  }

  lemma AtNext(cs: seq<Class>, para: nat, k: nat)
    requires k < |cs|
    ensures At(cs, para, k + 1) == Step(At(cs, para, k), cs[k], Rtl(cs, k))
  {
  }

  lemma SameStep(t: Twins, para: nat, k: nat)
    requires t.Valid() && t.Outer(k) && k < |t.one| && k != t.a && k != t.j1
    requires t.To(k) < |t.two| && At(t.two, para, t.To(k)) == At(t.one, para, k)
    ensures At(t.two, para, t.To(k) + 1) == At(t.one, para, k + 1)
  {
    Same(t, k);
    SameRtl(t, k);
    AtNext(t.one, para, k);
    AtNext(t.two, para, t.To(k));
  }

  lemma {:induction false} SameStatus(t: Twins, para: nat, k: nat)
    requires t.Valid() && t.Outer(k) && k != t.j1
    ensures t.To(k) <= |t.two| && At(t.two, para, t.To(k)) == At(t.one, para, k)
    decreases k
  {
    hide Step;
    if k == t.j1 + 1 {
      AfterIsolate(t, para);
      SameStatus(t, para, t.a);
    } else if k > 0 {
      SameStatus(t, para, k - 1);
      Same(t, k - 1);
      SameStep(t, para, k - 1);
      assert t.To(k) == t.To(k - 1) + 1;
    }
  }

  lemma SameDeciding(t: Twins, para: nat, k: nat)
    requires t.Valid() && t.Outer(k) && k < |t.one|
    ensures t.To(k) < |t.two| && Deciding(t.two, para, t.To(k)) == Deciding(t.one, para, k)
  {
    hide Step, At;
    Same(t, k);
    MatchBalanced(t.one, t.a, t.j1);
    if t.one[k] == PDI {
      SameStatus(t, para, k + 1);
    } else {
      SameStatus(t, para, k);
    }
  }

  lemma SameLevel(t: Twins, para: nat, k: nat)
    requires t.Valid() && t.Outer(k) && k < |t.one|
    ensures t.To(k) < |t.two|
    ensures LevelAt(t.two, para, t.To(k)) == LevelAt(t.one, para, k)
    ensures TypeAt(t.two, para, t.To(k)) == TypeAt(t.one, para, k)
  {
    Same(t, k);
    SameDeciding(t, para, k);
  }

  // ----------------------------------------------------------------- sequences

  /** The isolate is entered in both texts. */
  ghost predicate BothEntered(t: Twins, para: nat) {
    t.Valid() && para <= 1 && Entered(t.one, para, t.a) && Entered(t.two, para, t.a)
  }

  lemma BothEnteredTwins(t: Twins, para: nat)
    requires BothEntered(t, para)
    ensures t.Valid() && para <= 1
  {
  }

  lemma {:induction false} SameFirstFrom(t: Twins, k: nat)
    requires t.Valid() && t.Outer(k)
    ensures var n := FirstKept(t.one, k); t.Outer(n) && t.To(k) <= |t.two| && FirstKept(t.two, t.To(k)) == t.To(n)
    decreases |t.one| - k
  {
    if k < |t.one| {
      Same(t, k);
      if Removed(t.one[k]) {
        SameFirstFrom(t, k + 1);
      }
    }
  }

  lemma SameFirstKept(t: Twins, i: nat)
    requires t.Valid() && t.Outer(i) && i < |t.one| && i != t.a
    ensures var n := FirstKept(t.one, i + 1);
      t.Outer(n) && t.To(i) < |t.two| && FirstKept(t.two, t.To(i) + 1) == t.To(n)
  {
    SameFirstFrom(t, i + 1);
  }

  lemma {:induction false} SameLastKept(t: Twins, i: nat)
    requires t.Valid() && t.Outer(i) && i != t.j1 && t.one[t.j1] == PDI
    ensures t.To(i) <= |t.two|
    ensures match LastKept(t.one, i)
      case None => LastKept(t.two, t.To(i)).None?
      case Some(p) => t.Outer(p) && LastKept(t.two, t.To(i)) == Some(t.To(p))
    decreases i
  {
    hide Twins.Valid, LastKept, Removed, MatchFrom;
    Parts(t);
    LastKeptStep(t.one, i);
    LastKeptStep(t.two, t.To(i));
    PdiIsKept();
    if i > 0 {
      Same(t, i - 1);
      if Removed(t.one[i - 1]) {
        SameLastKept(t, i - 1);
      }
    }
  }

  lemma PdiIsKept()
    ensures !Removed(PDI)
  {
  }

  /** After an entered initiator its sequence goes on with its PDI. */
  lemma NextIsPdi(cs: seq<Class>, para: nat, a: nat)
    requires para <= 1 && a < |cs| && Entered(cs, para, a) && Match(cs, a) < |cs|
    ensures Next(cs, Lev(cs, para), a) == Some(Match(cs, a))
  {
    LevLeveled(cs, para);
    PairNext(cs, para, Lev(cs, para), a);
  }

  lemma SameNext(t: Twins, para: nat, i: nat)
    requires BothEntered(t, para) && t.Outer(i) && i < |t.one|
    ensures t.To(i) < |t.two|
    ensures match Next(t.one, Lev(t.one, para), i)
      case None => Next(t.two, Lev(t.two, para), t.To(i)).None?
      case Some(n) => t.Outer(n) && n < |t.one| && Next(t.two, Lev(t.two, para), t.To(i)) == Some(t.To(n))
  {
    hide Next, LevelAt, Entered, Twins.Valid;
    Parts(t);
    if i == t.a {
      Same(t, t.a);
      NextIsPdi(t.one, para, t.a);
      NextIsPdi(t.two, para, t.a);
    } else {
      SameNextElsewhere(t, para, i);
    }
  }

  lemma SameNextElsewhere(t: Twins, para: nat, i: nat)
    requires t.Valid() && t.Outer(i) && i < |t.one| && i != t.a
    ensures t.To(i) < |t.two|
    ensures match Next(t.one, Lev(t.one, para), i)
      case None => Next(t.two, Lev(t.two, para), t.To(i)).None?
      case Some(n) => t.Outer(n) && n < |t.one| && Next(t.two, Lev(t.two, para), t.To(i)) == Some(t.To(n))
  {
    hide MatchFrom, LevelAt, FirstKept, Twins.Valid;
    Parts(t);
    Same(t, i);
    SameFirstKept(t, i);
    SameMatch(t, i);
    SameLevel(t, para, i);
    if FirstKept(t.one, i + 1) < |t.one| {
      SameLevel(t, para, FirstKept(t.one, i + 1));
    }
  }

  lemma SameHead(t: Twins, para: nat, i: nat)
    requires BothEntered(t, para) && t.Outer(i) && i < |t.one| && Head(t.one, Lev(t.one, para), i)
    ensures t.To(i) < |t.two| && i != t.j1 && Head(t.two, Lev(t.two, para), t.To(i))
  {
    Same(t, i);
    assert Pair(t.one, t.a, t.j1);
    MatchBalanced(t.one, t.a, t.j1);
    SameLastKept(t, i);
    SameLevel(t, para, i);
    match LastKept(t.one, i) {
      case None =>
      case Some(p) => SameLevel(t, para, p);
    }
    if Matched(t.two, t.To(i)) {
      SameMatched(t, i);
    }
  }

  /** A PDI outside matched in the second text is matched in the first. */
  lemma SameMatched(t: Twins, j: nat)
    requires t.Valid() && t.Outer(j) && j < |t.one| && t.To(j) < |t.two| && Matched(t.two, t.To(j))
    ensures Matched(t.one, j)
  {
    hide MatchFrom, Opens;
    Same(t, j);
    var p: nat :| Pair(t.two, p, t.To(j));
    MatchBalanced(t.two, t.a, t.j2);
    if t.a < p < t.j2 {
      Same(t, t.a);
      InnerMatches(t.two, t.a, p);
      assert false;
    }
    var i := if p <= t.a then p else p - t.j2 + t.j1;
    Same(t, i);
    SameMatch(t, i);
    assert Pair(t.one, i, j);
  }

  /** An initiator inside a matched isolate has its PDI inside too. */
  lemma InnerMatches(cs: seq<Class>, a: nat, p: nat)
    requires a < |cs| && Isolate(cs[a]) && Match(cs, a) < |cs| && a < p < Match(cs, a) && Isolate(cs[p])
    ensures p < Match(cs, p) < Match(cs, a)
  {
    var j, m := Match(cs, a), Match(cs, p);
    MatchBalanced(cs, a, j);
    OpensSplit(cs, a + 1, p + 1, j);
    assert Opens(cs, a + 1, p + 1) == Opens(cs, a + 1, p) + 1;
    assert Opens(cs, p + 1, j) < 0;
    if m >= j {
      InnerUpTo(cs, p + 1, j, 1);
    }
  }

  /** A search that gets as far as j has stayed inside. */
  lemma {:induction false} InnerUpTo(cs: seq<Class>, i: nat, j: nat, d: nat)
    requires i <= j <= |cs| && d > 0 && MatchFrom(cs, i, d) >= j && forall x :: i <= x < j ==> cs[x] != B
    ensures d + Opens(cs, i, j) > 0 && MatchFrom(cs, i, d) == MatchFrom(cs, j, d + Opens(cs, i, j))
    decreases j
  {
    if i < j {
      InnerUpTo(cs, i, j - 1, d);
    }
  }

  // ---------------------------------------------------------- whole sequences

  ghost function MapTo(t: Twins, q: seq<nat>): (r: seq<nat>)
    requires t.a < t.j1 && forall k :: 0 <= k < |q| ==> t.Outer(q[k])
    ensures |r| == |q|
  {
    seq(|q|, k requires 0 <= k < |q| => t.To(q[k]))
  }

  ghost predicate AllOuter(t: Twins, q: seq<nat>) { forall k :: 0 <= k < |q| ==> t.Outer(q[k]) && q[k] < |t.one| }

  lemma MapPush(t: Twins, i: nat, q: seq<nat>)
    requires t.a < t.j1 && t.Outer(i) && i < |t.one| && AllOuter(t, q)
    ensures AllOuter(t, [i] + q) && MapTo(t, [i] + q) == [t.To(i)] + MapTo(t, q)
  {
  }

  lemma ChainEnd(cs: seq<Class>, lev: seq<nat>, i: nat)
    requires i < |cs| == |lev| && Next(cs, lev, i).None?
    ensures Chain(cs, lev, i) == [i]
  {
  }

  /** A sequence that starts outside stays outside, and is the same in both texts. */
  lemma {:induction false} SameChain(t: Twins, para: nat, i: nat)
    requires BothEntered(t, para) && t.Outer(i) && i < |t.one|
    ensures t.To(i) < |t.two| && AllOuter(t, Chain(t.one, Lev(t.one, para), i))
    ensures Chain(t.two, Lev(t.two, para), t.To(i)) == MapTo(t, Chain(t.one, Lev(t.one, para), i))
    decreases |t.one| - i
  {
    var lev1, lev2 := Lev(t.one, para), Lev(t.two, para);
    SameNext(t, para, i);
    match Next(t.one, lev1, i)
    case None =>
      ChainEnd(t.one, lev1, i);
      ChainEnd(t.two, lev2, t.To(i));
    case Some(n) =>
      ChainStep(t.one, lev1, i, n);
      ChainStep(t.two, lev2, t.To(i), t.To(n));
      SameChain(t, para, n);
      MapPush(t, i, Chain(t.one, lev1, n));
  }

  /** Every character outside is in the sequence of a head outside. */
  lemma {:induction false} OuterHead(t: Twins, para: nat, x: nat) returns (h: nat, k: nat)
    requires BothEntered(t, para) && t.Outer(x) && IsKept(t.one, x)
    ensures t.Outer(h) && h < |t.one| && Head(t.one, Lev(t.one, para), h) && Place(t.one, Lev(t.one, para), h, k, x)
    decreases x
  {
    var lev := Lev(t.one, para);
    LevLeveled(t.one, para);
    if Head(t.one, lev, x) {
      h, k := x, 0;
    } else {
      var p := OtherHasOne(t.one, para, lev, x);
      if t.a < p < t.j1 {
        InnerStaysInner(t, para, p);
        assert false;
      }
      h, k := OuterHead(t, para, p);
      ChainSteps(t.one, para, lev, h, k);
      k := k + 1;
    }
  }

  /** Characters inside an entered isolate are at higher levels than its PDI. */
  lemma InnerLevel(cs: seq<Class>, para: nat, a: nat, p: nat)
    requires para <= 1 && a < p < |cs| && Entered(cs, para, a) && Match(cs, a) < |cs| && p < Match(cs, a)
    ensures LevelAt(cs, para, p) > LevelAt(cs, para, Match(cs, a))
  {
    var j := Match(cs, a);
    PairLevels(cs, para, a);
    MatchBalanced(cs, a, j);
    InnerPrefix(cs, a + 1, p + 1, j);
    ContentLevels(cs, para, a, p);
  }

  /** What follows a character inside is inside. */
  lemma InnerStaysInner(t: Twins, para: nat, p: nat)
    requires BothEntered(t, para) && t.a < p < t.j1 && IsKept(t.one, p)
    ensures match Next(t.one, Lev(t.one, para), p) case None => true case Some(n) => n < t.j1
  {
    hide LevelAt, MatchFrom, Opens, Twins.Valid, FirstStrong, At, Step, FirstKept, Entered;
    Parts(t);
    var n := FirstKept(t.one, p + 1);
    MatchBalanced(t.one, t.a, t.j1);
    InnerLevel(t.one, para, t.a, p);
    assert n <= t.j1;
    if Isolate(t.one[p]) {
      InnerMatches(t.one, t.a, p);
    }
  }

  ghost predicate BracketAt(t: Twins, br1: Brackets, br2: Brackets, k: nat) {
    t.a < t.j1 && t.Outer(k) && k < |br1| ==> t.To(k) < |br2| && br2[t.To(k)] == br1[k]
  }

  /** The brackets outside are the same too. */
  ghost predicate SameBrackets(t: Twins, br1: Brackets, br2: Brackets) {
    && t.Valid() && |br1| == |t.one| && |br2| == |t.two|
    && forall k :: BracketAt(t, br1, br2, k)
  }

  lemma BracketsFit(t: Twins, br1: Brackets, br2: Brackets)
    requires SameBrackets(t, br1, br2)
    ensures |br1| == |t.one| && |br2| == |t.two|
  {
  }

  lemma SameBracket(t: Twins, br1: Brackets, br2: Brackets, k: nat)
    requires SameBrackets(t, br1, br2) && t.Outer(k) && k < |t.one|
    ensures t.To(k) < |t.two| && br2[t.To(k)] == br1[k]
  {
    assert BracketAt(t, br1, br2, k);
  }

  lemma SameSos(t: Twins, para: nat, h: nat)
    requires BothEntered(t, para) && t.Outer(h) && h < |t.one| && h != t.j1
    ensures t.To(h) < |t.two|
    ensures Sos(t.two, para, Lev(t.two, para), t.To(h)) == Sos(t.one, para, Lev(t.one, para), h)
  {
    hide LastKept, LevelAt, TypeAt, Twins.Valid, Entered, Opens;
    Parts(t);
    SameLevel(t, para, h);
    MatchBalanced(t.one, t.a, t.j1);
    SameLastKept(t, h);
    match LastKept(t.one, h) {
      case None =>
      case Some(p) => SameLevel(t, para, p);
    }
  }

  lemma EosFrom(cs: seq<Class>, para: nat, h: nat, last: nat)
    requires h < |cs| && last < |cs|
    ensures var n := FirstKept(cs, last + 1);
      Eos(cs, para, Lev(cs, para), h, last)
      == DirectionOf(LevelAt(cs, para, h), if Isolate(cs[last]) || n == |cs| then para else LevelAt(cs, para, n))
  {
    hide LevelAt;
  }

  /** What follows a sequence outside is the same character in both texts, or the end. */
  lemma SameAfter(t: Twins, para: nat, h: nat, last: nat) returns (n: nat)
    requires BothEntered(t, para) && t.Outer(h) && h < |t.one|
    requires t.Outer(last) && last < |t.one| && last != t.a
    ensures t.Outer(n) && n <= |t.one| && t.To(h) < |t.two| && t.To(last) < |t.two| && t.To(n) <= |t.two|
    ensures Eos(t.one, para, Lev(t.one, para), h, last)
         == DirectionOf(LevelAt(t.one, para, h),
                        if Isolate(t.one[last]) || n == |t.one| then para else LevelAt(t.one, para, n))
    ensures Eos(t.two, para, Lev(t.two, para), t.To(h), t.To(last))
         == DirectionOf(LevelAt(t.two, para, t.To(h)),
                        if Isolate(t.two[t.To(last)]) || t.To(n) == |t.two| then para
                        else LevelAt(t.two, para, t.To(n)))
  {
    hide LevelAt, MatchFrom, Eos, DirectionOf, Isolate, Twins.Valid, Lev, FirstKept;
    BothEnteredTwins(t, para);
    Parts(t);
    Same(t, h);
    Same(t, last);
    SameFirstKept(t, last);
    EosFrom(t.one, para, h, last);
    EosFrom(t.two, para, t.To(h), t.To(last));
    n := FirstKept(t.one, last + 1);
  }

  lemma SameEos(t: Twins, para: nat, h: nat, last: nat)
    requires BothEntered(t, para) && t.Outer(h) && h < |t.one|
    requires t.Outer(last) && last < |t.one| && last != t.a
    ensures t.To(h) < |t.two| && t.To(last) < |t.two|
    ensures Eos(t.two, para, Lev(t.two, para), t.To(h), t.To(last)) == Eos(t.one, para, Lev(t.one, para), h, last)
  {
    hide LevelAt, TypeAt, Twins.Valid, BothEntered, MatchFrom, Eos, DirectionOf;
    BothEnteredTwins(t, para);
    Parts(t);
    SameLevel(t, para, h);
    Same(t, last);
    var n := SameAfter(t, para, h, last);
    if n < |t.one| {
      SameLevel(t, para, n);
    }
  }

  lemma SamePicks(t: Twins, br1: Brackets, br2: Brackets, para: nat, q: seq<nat>)
    requires SameBrackets(t, br1, br2) && AllOuter(t, q)
    ensures Within(q, |t.one|) && Within(MapTo(t, q), |t.two|)
    ensures Pick(Typ(t.two, para), MapTo(t, q)) == Pick(Typ(t.one, para), q)
    ensures Pick(t.two, MapTo(t, q)) == Pick(t.one, q) && Pick(br2, MapTo(t, q)) == Pick(br1, q)
  {
    forall k | 0 <= k < |q|
      ensures t.To(q[k]) < |t.two| && br2[t.To(q[k])] == br1[q[k]] && t.two[t.To(q[k])] == t.one[q[k]]
      ensures TypeAt(t.two, para, t.To(q[k])) == TypeAt(t.one, para, q[k])
    {
      Same(t, q[k]);
      SameBracket(t, br1, br2, q[k]);
      SameLevel(t, para, q[k]);
    }
  }

  /** The last character of a sequence outside is not the initiator. */
  lemma LastIsNotInitiator(cs: seq<Class>, para: nat, a: nat, h: nat)
    requires para <= 1 && a < |cs| && Entered(cs, para, a) && Match(cs, a) < |cs| && IsKept(cs, h)
    ensures Chain(cs, Lev(cs, para), h)[|Chain(cs, Lev(cs, para), h)| - 1] != a
  {
    LevLeveled(cs, para);
    ChainSteps(cs, para, Lev(cs, para), h, |Chain(cs, Lev(cs, para), h)| - 1);
    NextIsPdi(cs, para, a);
  }

  lemma LevAt(cs: seq<Class>, para: nat, k: nat)
    ensures k < |cs| ==> Lev(cs, para)[k] == LevelAt(cs, para, k)
  {
  }

  lemma SameResultOf(t: Twins, br1: Brackets, br2: Brackets, para: nat, q: seq<nat>)
    requires BothEntered(t, para) && SameBrackets(t, br1, br2) && AllOuter(t, q)
    requires q != [] && q[0] != t.j1 && q[|q| - 1] != t.a
    ensures Within(q, |t.one|) && Within(MapTo(t, q), |t.two|)
    ensures Result(t.two, br2, para, Lev(t.two, para), MapTo(t, q)) == Result(t.one, br1, para, Lev(t.one, para), q)
  {
    hide Resolved, Sos, Eos, Twins.Valid, Result, LevelAt, TypeAt, Typ, SameBrackets, Lev, Pick, Entered;
    BracketsFit(t, br1, br2);
    Parts(t);
    LevAt(t.one, para, q[0]);
    LevAt(t.two, para, t.To(q[0]));
    SameSos(t, para, q[0]);
    SameEos(t, para, q[0], q[|q| - 1]);
    SamePicks(t, br1, br2, para, q);
    SameLevel(t, para, q[0]);
    var lev := Lev(t.one, para);
    var sos, eos := Sos(t.one, para, lev, q[0]), Eos(t.one, para, lev, q[0], q[|q| - 1]);
    ResultFrom(t.one, br1, para, lev, q, Pick(Typ(t.one, para), q), Pick(t.one, q), Pick(br1, q), lev[q[0]], sos, eos);
    ResultFrom(t.two, br2, para, Lev(t.two, para), MapTo(t, q),
               Pick(Typ(t.one, para), q), Pick(t.one, q), Pick(br1, q), lev[q[0]], sos, eos);
  }

  lemma ResultFrom(cs: seq<Class>, br: Brackets, para: nat, lev: seq<nat>, q: seq<nat>,
                   typ: Types, orig: Types, b: Brackets, level: nat, sos: Class, eos: Class)
    requires |cs| == |br| == |lev| && q != [] && Within(q, |cs|)
    requires typ == Pick(Typ(cs, para), q) && orig == Pick(cs, q) && b == Pick(br, q)
    requires level == lev[q[0]] && sos == Sos(cs, para, lev, q[0]) && eos == Eos(cs, para, lev, q[0], q[|q| - 1])
    ensures Result(cs, br, para, lev, q) == Resolved(typ, orig, b, level, sos, eos)
  {
  }

  /** A sequence outside is resolved the same in both texts. */
  lemma SameResult(t: Twins, br1: Brackets, br2: Brackets, para: nat, h: nat, k: nat)
    requires BothEntered(t, para) && SameBrackets(t, br1, br2) && t.Outer(h)
    requires h < |t.one| && Head(t.one, Lev(t.one, para), h) && k < |Chain(t.one, Lev(t.one, para), h)|
    ensures IsKept(t.two, t.To(h)) && k < |Chain(t.two, Lev(t.two, para), t.To(h))|
    ensures ResultAt(t.two, br2, para, t.To(h), k) == ResultAt(t.one, br1, para, h, k)
  {
    SameHead(t, para, h);
    SameChain(t, para, h);
    LastIsNotInitiator(t.one, para, t.a, h);
    SameResultOf(t, br1, br2, para, Chain(t.one, Lev(t.one, para), h));
  }

  /** Noninterference: the levels before L1 of every character outside the isolate, of its
      initiator and of its PDI are the same whatever the isolate's content is. */
  lemma Noninterference(t: Twins, br1: Brackets, br2: Brackets, para: nat, lv1: seq<nat>, lv2: seq<nat>, x: nat)
    requires BothEntered(t, para) && SameBrackets(t, br1, br2)
    requires LevelsOf(t.one, br1, para, lv1) && LevelsOf(t.two, br2, para, lv2)
    requires t.Outer(x) && x < |t.one|
    ensures t.To(x) < |t.two| && lv2[t.To(x)] == lv1[x]
  {
    Same(t, x);
    SameLevel(t, para, x);
    if IsKept(t.one, x) {
      var h, k := OuterHead(t, para, x);
      SameHead(t, para, h);
      SameChain(t, para, h);
      SameResult(t, br1, br2, para, h, k);
      assert Place(t.one, Lev(t.one, para), h, k, x);
      assert Place(t.two, Lev(t.two, para), t.To(h), k, t.To(x));
    }
  }

  /** The same for a given or automatic paragraph direction, which is then the same too. */
  lemma IsolateContentIsUnseen(t: Twins, br1: Brackets, br2: Brackets, direction: nat, lv1: seq<nat>, lv2: seq<nat>,
                               x: nat)
    requires direction <= 2 && SameBrackets(t, br1, br2) && BothEntered(t, ParagraphLevel(t.one, direction))
    requires LevelsOf(t.one, br1, ParagraphLevel(t.one, direction), lv1)
    requires LevelsOf(t.two, br2, ParagraphLevel(t.two, direction), lv2)
    requires t.Outer(x) && x < |t.one|
    ensures ParagraphLevel(t.two, direction) == ParagraphLevel(t.one, direction)
    ensures t.To(x) < |t.two| && lv2[t.To(x)] == lv1[x]
  {
    SameParagraph(t);
    Noninterference(t, br1, br2, ParagraphLevel(t.one, direction), lv1, lv2, x);
  }

  // ------------------------------------------------------------ replaced content

  /** The text with the content of the isolate at a replaced. */
  function Replaced<T>(xs: seq<T>, a: nat, j: nat, content: seq<T>): seq<T>
    requires a < j < |xs|
  {
    xs[..a + 1] + content + xs[j..]
  }

  lemma {:induction false} OpensShift(cs: seq<Class>, at: nat, w: seq<Class>, k: nat)
    requires k <= |w| && at + k <= |cs| && forall x :: 0 <= x < k ==> cs[at + x] == w[x]
    ensures Opens(cs, at, at + k) == Opens(w, 0, k)
  {
    if k > 0 {
      OpensShift(cs, at, w, k - 1);
    }
  }

  lemma BalancedShift(cs: seq<Class>, at: nat, w: seq<Class>)
    requires at + |w| <= |cs| && Balanced(w, 0, |w|) && forall x :: 0 <= x < |w| ==> cs[at + x] == w[x]
    ensures Balanced(cs, at, at + |w|)
  {
    hide Opens;
    forall x | at <= x <= at + |w| ensures Opens(cs, at, x) == Opens(w, 0, x - at) {
      OpensShift(cs, at, w, x - at);
    }
    forall x | at <= x < at + |w| ensures cs[x] != B {
      assert cs[at + (x - at)] == w[x - at];
    }
  }

  /** Any balanced content without a separator makes a twin of the text. */
  lemma ReplacedIsTwin(cs: seq<Class>, a: nat, content: seq<Class>)
    requires a < |cs| && Isolate(cs[a]) && Match(cs, a) < |cs| && Balanced(content, 0, |content|)
    ensures var j := Match(cs, a); Twins(cs, Replaced(cs, a, j, content), a, j, a + 1 + |content|).Valid()
  {
    hide MatchFrom, Match, Balanced;
    var j := Match(cs, a);
    var two, j2 := Replaced(cs, a, j, content), a + 1 + |content|;
    MatchBalanced(cs, a, j);
    BalancedShift(two, a + 1, content);
    MatchBalanced(two, a, j2);
  }

  /** Only an FSI may be entered with one content and not with another. */
  lemma StillEntered(t: Twins, para: nat)
    requires t.Valid() && t.one[t.a] != FSI && Entered(t.one, para, t.a)
    ensures Entered(t.two, para, t.a)
  {
    hide Twins.Valid, At, Match;
    Parts(t);
    Same(t, t.a);
    SameStatus(t, para, t.a);
  }

  /** Replacing the content of a matched isolate that is entered, and for an FSI still is, by any
      balanced content without a separator changes no level before L1 outside of it. */
  lemma ReplacingChangesNothing(cs: seq<Class>, br: Brackets, direction: nat, a: nat, content: seq<Class>,
                                marks: Brackets, two: seq<Class>, lv1: seq<nat>, lv2: seq<nat>, x: nat)
    requires direction <= 2 && |br| == |cs| && |marks| == |content|
    requires a < |cs| && Isolate(cs[a]) && Match(cs, a) < |cs| && Balanced(content, 0, |content|)
    requires a < |two| && two == Replaced(cs, a, Match(cs, a), content)
    requires Entered(cs, ParagraphLevel(cs, direction), a)
    requires cs[a] == FSI ==> Entered(two, ParagraphLevel(two, direction), a)
    requires LevelsOf(cs, br, ParagraphLevel(cs, direction), lv1)
    requires LevelsOf(two, Replaced(br, a, Match(cs, a), marks), ParagraphLevel(two, direction), lv2)
    requires x <= a || Match(cs, a) <= x < |cs|
    ensures var y := if x <= a then x else x - Match(cs, a) + (a + 1 + |content|);
      x < |lv1| && y < |lv2| && lv2[y] == lv1[x]
  {
    hide Entered, Match, Balanced, Replaced, SameBrackets, LevelsOf, ParagraphLevel, BothEntered, Twins.Valid;
    var t := Twins(cs, two, a, Match(cs, a), a + 1 + |content|);
    var marked := Replaced(br, a, Match(cs, a), marks);
    ReplacedFacts(cs, br, direction, a, content, marks, two);
    TwinLevels(t, br, marked, direction, lv1, lv2);
    IsolateContentIsUnseen(t, br, marked, direction, lv1, lv2, x);
  }

  /** What the theorem for twins asks of the two texts. */
  lemma ReplacedFacts(cs: seq<Class>, br: Brackets, direction: nat, a: nat, content: seq<Class>,
                      marks: Brackets, two: seq<Class>)
    requires direction <= 2 && |br| == |cs| && |marks| == |content|
    requires a < |cs| && Isolate(cs[a]) && Match(cs, a) < |cs| && Balanced(content, 0, |content|)
    requires a < |two| && two == Replaced(cs, a, Match(cs, a), content)
    requires Entered(cs, ParagraphLevel(cs, direction), a)
    requires cs[a] == FSI ==> Entered(two, ParagraphLevel(two, direction), a)
    ensures var t := Twins(cs, two, a, Match(cs, a), a + 1 + |content|);
      && SameBrackets(t, br, Replaced(br, a, Match(cs, a), marks))
      && BothEntered(t, ParagraphLevel(cs, direction))
  {
    hide Entered, Match, Balanced, SameBrackets, FirstStrong, Twins.Valid;
    var t := Twins(cs, two, a, Match(cs, a), a + 1 + |content|);
    ReplacedIsTwin(cs, a, content);
    ReplacedBrackets(t, br, content, marks);
    SameParagraph(t);
    StrongIsLevel(cs, 0, |cs|);
    if cs[a] != FSI {
      StillEntered(t, ParagraphLevel(cs, direction));
    }
  }

  lemma ReplacedBrackets(t: Twins, br: Brackets, content: seq<Class>, marks: Brackets)
    requires t.Valid() && |br| == |t.one| && |marks| == |content| && t.j2 == t.a + 1 + |content|
    ensures SameBrackets(t, br, Replaced(br, t.a, t.j1, marks))
  {
    hide Twins.SameAt, Match;
  }

  lemma TwinLevels(t: Twins, br1: Brackets, br2: Brackets, direction: nat, lv1: seq<nat>, lv2: seq<nat>)
    requires LevelsOf(t.one, br1, ParagraphLevel(t.one, direction), lv1)
    requires LevelsOf(t.two, br2, ParagraphLevel(t.two, direction), lv2)
    ensures |lv1| == |t.one| && |lv2| == |t.two|
  {
    hide ParagraphLevel;
  }
}
