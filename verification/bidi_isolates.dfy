/** Matching isolate initiators with their PDIs (definition BD9), by a linear search and by
    a stack, and the first strong character (rules P2, P3). */
module BidiIsolates {
  import opened Wrappers
  import opened BidiTypes

  // -------------------------------------------------------- the linear search

  /** The search from j on, depth isolates deep. */
  function MatchFrom(cs: seq<Class>, j: nat, depth: nat): (m: nat)
    requires j <= |cs| && depth > 0
    ensures j <= m <= |cs|
    decreases |cs| - j
  {
    if j == |cs| then |cs|
    else if Isolate(cs[j]) then MatchFrom(cs, j + 1, depth + 1)
    else if cs[j] == PDI then if depth == 1 then j else MatchFrom(cs, j + 1, depth - 1)
    else if cs[j] == B then |cs|
    else MatchFrom(cs, j + 1, depth)
  }

  lemma SearchStep(cs: seq<Class>, j: nat, depth: nat)
    requires j <= |cs| && depth > 0
    ensures MatchFrom(cs, j, depth)
         == if j == |cs| then |cs|
            else if Isolate(cs[j]) then MatchFrom(cs, j + 1, depth + 1)
            else if cs[j] == PDI then (if depth == 1 then j else MatchFrom(cs, j + 1, depth - 1))
            else if cs[j] == B then |cs|
            else MatchFrom(cs, j + 1, depth)
  {
  }

  /** The index of the PDI matching the initiator at i, or |cs|. */
  function Match(cs: seq<Class>, i: nat): (m: nat)
    requires i < |cs|
    ensures i < m <= |cs|
  {
    MatchFrom(cs, i + 1, 1)
  }

  method MatchingPdi(cs: seq<Class>, i: nat) returns (m: nat)
    requires i < |cs|
    ensures m == Match(cs, i)
  {
    var depth: nat := 1;
    for j := i + 1 to |cs|
      invariant depth > 0 && Match(cs, i) == MatchFrom(cs, j, depth)
    {
      var t := cs[j];
      if Isolate(t) {
        depth := depth + 1;
      } else if t == PDI {
        depth := depth - 1;
        if depth == 0 {
          return j;
        }
      } else if t == B {
        break;
      }
    }
    m := |cs|;
  }

  // ------------------------------------------------------- what a match means

  /** Initiators less PDIs from i to k. */
  ghost function Opens(cs: seq<Class>, i: nat, k: nat): int
    requires i <= k <= |cs|
    decreases k - i
  {
    if k == i then 0
    else Opens(cs, i, k - 1) + (if Isolate(cs[k - 1]) then 1 else if cs[k - 1] == PDI then -1 else 0)
  }

  /** From i to k nothing closes an isolate opened before, and no paragraph ends. */
  ghost predicate Inner(cs: seq<Class>, i: nat, k: nat) {
    && i <= k <= |cs|
    && (forall x :: i <= x < k ==> cs[x] != B)
    && (forall x :: i <= x <= k ==> Opens(cs, i, x) >= 0)
  }

  /** From i to k as many isolates are closed as opened, each after it was opened. */
  ghost predicate Balanced(cs: seq<Class>, i: nat, k: nat) {
    Inner(cs, i, k) && Opens(cs, i, k) == 0
  }

  lemma {:induction false} OpensSplit(cs: seq<Class>, i: nat, m: nat, k: nat)
    requires i <= m <= k <= |cs|
    ensures Opens(cs, i, k) == Opens(cs, i, m) + Opens(cs, m, k)
    decreases k - m
  {
    if m < k {
      OpensSplit(cs, i, m, k - 1);
    }
  }

  /** The search is right: it stops exactly at the PDI after balanced text. */
  lemma {:induction false} MatchFromBalanced(cs: seq<Class>, i: nat, j: nat)
    requires Inner(cs, i, j)
    ensures var m := MatchFrom(cs, j, 1 + Opens(cs, i, j));
      && (m < |cs| ==> cs[m] == PDI && Balanced(cs, i, m))
      && forall k :: j <= k < |cs| && cs[k] == PDI && Balanced(cs, i, k) ==> k == m
    decreases |cs| - j
  {
    if j < |cs| && cs[j] != B {
      assert Opens(cs, i, j + 1) == Opens(cs, i, j) + (if Isolate(cs[j]) then 1 else if cs[j] == PDI then -1 else 0);
      if cs[j] == PDI && Opens(cs, i, j) == 0 {
        assert Opens(cs, i, j + 1) < 0;
      } else {
        MatchFromBalanced(cs, i, j + 1);
      }
    }
  }

  lemma MatchBalanced(cs: seq<Class>, i: nat, j: nat)
    requires i < j < |cs|
    ensures Match(cs, i) == j <==> cs[j] == PDI && Balanced(cs, i + 1, j)
  {
    MatchFromBalanced(cs, i + 1, i + 1);
  }

  // ------------------------------------------------------ matching by a stack

  /** The initiators still open after k characters, innermost last. */
  ghost function Open(cs: seq<Class>, k: nat): seq<nat>
    requires k <= |cs|
  {
    if k == 0 then []
    else
      var o := Open(cs, k - 1);
      if Isolate(cs[k - 1]) then o + [k - 1]
      else if cs[k - 1] == PDI then if o == [] then [] else o[..|o| - 1]
      else if cs[k - 1] == B then []
      else o
  }

  /** What the stack says of an initiator on it: its inside lasts until k, d isolates deep. */
  ghost predicate OpenAt(cs: seq<Class>, i: nat, k: nat, d: int) {
    i < k <= |cs| && Isolate(cs[i]) && Inner(cs, i + 1, k) && Opens(cs, i + 1, k) == d
  }

  lemma OpenAtStep(cs: seq<Class>, i: nat, k: nat, d: int)
    requires OpenAt(cs, i, k, d) && k < |cs| && cs[k] != B
    ensures var d' := d + (if Isolate(cs[k]) then 1 else if cs[k] == PDI then -1 else 0);
      d' >= 0 ==> OpenAt(cs, i, k + 1, d')
  {
  }

  lemma OpenAtBefore(cs: seq<Class>, i: nat, k: nat, d: int)
    requires OpenAt(cs, i, k + 1, d) && i < k
    ensures OpenAt(cs, i, k, Opens(cs, i + 1, k)) && cs[k] != B
    ensures d == Opens(cs, i + 1, k) + (if Isolate(cs[k]) then 1 else if cs[k] == PDI then -1 else 0) && d >= 0
  {
  }

  lemma OpenStep(cs: seq<Class>, k: nat)
    requires k < |cs|
    ensures var o := Open(cs, k);
      Open(cs, k + 1) == if Isolate(cs[k]) then o + [k] else if cs[k] == PDI then (if o == [] then [] else o[..|o| - 1])
                         else if cs[k] == B then [] else o
  {
  }

  lemma NothingOpen(cs: seq<Class>)
    ensures Open(cs, 0) == [] && forall i: nat, d: int :: !OpenAt(cs, i, 0, d)
  {
  }

  lemma OpenAtInitiator(cs: seq<Class>, i: nat, k: nat, d: int)
    requires OpenAt(cs, i, k, d)
    ensures i < k <= |cs| && Isolate(cs[i])
  {
  }

  lemma OpenAtOnce(cs: seq<Class>, i: nat, k: nat, d: int, e: int)
    requires OpenAt(cs, i, k, d) && OpenAt(cs, i, k, e)
    ensures d == e
  {
  }

  lemma JustOpened(cs: seq<Class>, k: nat)
    requires k < |cs| && Isolate(cs[k])
    ensures OpenAt(cs, k, k + 1, 0)
  {
  }

  /** An initiator is open exactly while its inside lasts, and its place on the stack tells
      how deep the text is inside it. */
  lemma {:induction false} OpenIsInner(cs: seq<Class>, k: nat)
    requires k <= |cs|
    ensures forall m :: 0 <= m < |Open(cs, k)| ==> OpenAt(cs, Open(cs, k)[m], k, |Open(cs, k)| - 1 - m)
    ensures forall i: nat, d: int :: OpenAt(cs, i, k, d) ==> i in Open(cs, k)
  {
    hide Open, OpenAt, Opens, Inner;
    if k == 0 {
      NothingOpen(cs);
    } else {
      OpenIsInner(cs, k - 1);
      OpenStep(cs, k - 1);
      var o, p := Open(cs, k), Open(cs, k - 1);
      forall m | 0 <= m < |o| ensures OpenAt(cs, o[m], k, |o| - 1 - m) {
        if m < |p| {
          OpenAtStep(cs, p[m], k - 1, |p| - 1 - m);
        } else {
          JustOpened(cs, k - 1);
        }
      }
      forall i: nat, d: int | OpenAt(cs, i, k, d) ensures i in o {
        StillOpen(cs, k - 1, i, d);
      }
    }
  }

  lemma StillOpen(cs: seq<Class>, k: nat, i: nat, d: int)
    requires k < |cs| && OpenAt(cs, i, k + 1, d)
    requires forall m :: 0 <= m < |Open(cs, k)| ==> OpenAt(cs, Open(cs, k)[m], k, |Open(cs, k)| - 1 - m)
    requires forall i: nat, d: int :: OpenAt(cs, i, k, d) ==> i in Open(cs, k)
    ensures i in Open(cs, k + 1)
  {
    hide Open, OpenAt, Opens, Inner;
    OpenStep(cs, k);
    var o, p := Open(cs, k + 1), Open(cs, k);
    OpenAtInitiator(cs, i, k + 1, d);
    if i < k {
      OpenAtBefore(cs, i, k, d);
      var m :| 0 <= m < |p| && p[m] == i;
      OpenAtOnce(cs, i, k, |p| - 1 - m, Opens(cs, i + 1, k));
      assert o[m] == i;
    } else {
      assert o[|o| - 1] == i;
    }
  }

  /** The stack pairs an initiator with the PDI the linear search finds, and with no other. */
  lemma StackMatchesSearch(cs: seq<Class>, i: nat, j: nat)
    requires i < j < |cs| && Isolate(cs[i]) && cs[j] == PDI
    ensures Match(cs, i) == j <==> Open(cs, j) != [] && Open(cs, j)[|Open(cs, j)| - 1] == i
  {
    hide Inner, Opens, MatchFrom, Open;
    var o := Open(cs, j);
    OpenIsInner(cs, j);
    MatchBalanced(cs, i, j);
    if Match(cs, i) == j {
      assert OpenAt(cs, i, j, 0);
      var m :| 0 <= m < |o| && o[m] == i;
      OpenAtOnce(cs, i, j, 0, |o| - 1 - m);
    } else if o != [] {
      assert OpenAt(cs, o[|o| - 1], j, 0);
    }
  }

  /** The initiator at i has its PDI at j. */
  ghost predicate Pair(cs: seq<Class>, i: nat, j: nat) {
    i < j < |cs| && Isolate(cs[i]) && Match(cs, i) == j
  }

  /** Whether the PDI at j has an initiator. */
  ghost predicate Matched(cs: seq<Class>, j: nat) {
    j < |cs| && cs[j] == PDI && exists i :: Pair(cs, i, j)
  }

  lemma MatchedIffOpen(cs: seq<Class>, j: nat)
    requires j < |cs| && cs[j] == PDI
    ensures Matched(cs, j) <==> Open(cs, j) != []
  {
    OpenIsInner(cs, j);
    if Open(cs, j) != [] {
      var i := Open(cs, j)[|Open(cs, j)| - 1];
      StackMatchesSearch(cs, i, j);
      assert Pair(cs, i, j);
    } else if Matched(cs, j) {
      var i :| Pair(cs, i, j);
      StackMatchesSearch(cs, i, j);
    }
  }

  /** An initiator and its PDI determine each other. */
  lemma MatchInjective(cs: seq<Class>, i: nat, i': nat)
    requires i < |cs| && i' < |cs| && Isolate(cs[i]) && Isolate(cs[i'])
    requires Match(cs, i) == Match(cs, i') < |cs|
    ensures i == i'
  {
    var j := Match(cs, i);
    MatchBalanced(cs, i, j);
    StackMatchesSearch(cs, i, j);
    MatchBalanced(cs, i', j);
    StackMatchesSearch(cs, i', j);
  }

  /** partner holds the pairs whose PDI is below k. */
  ghost predicate Partners(cs: seq<Class>, partner: map<nat, nat>, k: nat) {
    && (forall i :: i in partner ==> partner[i] < k && Pair(cs, i, partner[i]))
    && (forall i: nat, j: nat :: Pair(cs, i, j) && j < k ==> i in partner)
  }

  lemma PairOnStack(cs: seq<Class>, i: nat, j: nat)
    requires Pair(cs, i, j)
    ensures cs[j] == PDI && Open(cs, j) != [] && Open(cs, j)[|Open(cs, j)| - 1] == i
  {
    MatchBalanced(cs, i, j);
    StackMatchesSearch(cs, i, j);
  }

  /** Pairs every PDI of the text with the innermost open initiator. */
  method MatchAll(cs: seq<Class>) returns (partner: map<nat, nat>)
    ensures Partners(cs, partner, |cs|)
  {
    partner := map[];
    var stack: seq<nat> := [];
    for k := 0 to |cs|
      invariant stack == Open(cs, k) && Partners(cs, partner, k)
    {
      OpenIsInner(cs, k);
      forall i | Pair(cs, i, k) ensures cs[k] == PDI && stack != [] && stack[|stack| - 1] == i {
        PairOnStack(cs, i, k);
      }
      if Isolate(cs[k]) {
        stack := stack + [k];
      } else if cs[k] == PDI && stack != [] {
        StackMatchesSearch(cs, stack[|stack| - 1], k);
        partner := partner[stack[|stack| - 1] := k];
        stack := stack[..|stack| - 1];
      } else if cs[k] == B {
        stack := [];
      }
    }
  }

  // ---------------------------------------------------- the first strong type

  /** 0 for L, 1 for R or AL, isolates skipped, no further than a separator. */
  function FirstStrong(cs: seq<Class>, i: nat, end: nat): Option<nat>
    requires end <= |cs|
    decreases |cs| - i
  {
    if i >= end then None
    else if cs[i] == L then Some(0)
    else if cs[i] == R || cs[i] == AL then Some(1)
    else if Isolate(cs[i]) then
      if Match(cs, i) + 1 > |cs| then None else FirstStrong(cs, Match(cs, i) + 1, end)
    else if cs[i] == B then None
    else FirstStrong(cs, i + 1, end)
  }

  /** From i on k is in no isolate, and in the same paragraph. */
  ghost predicate Outside(cs: seq<Class>, i: nat, k: nat) {
    i <= k <= |cs| && forall x :: i <= x < k ==> cs[x] != B && (Isolate(cs[x]) ==> Match(cs, x) < k)
  }

  ghost predicate Strong(c: Class, d: nat) { (d == 0 && c == L) || (d == 1 && (c == R || c == AL)) }

  /** k is the first strong character outside of isolates, of direction d. */
  ghost predicate IsFirstStrong(cs: seq<Class>, i: nat, end: nat, k: nat, d: nat) {
    && i <= k < end <= |cs| && Outside(cs, i, k) && Strong(cs[k], d)
    && forall x, e :: i <= x < k && Outside(cs, i, x) ==> !Strong(cs[x], e)
  }

  /** Some strong character is the first, and of direction d. */
  ghost predicate FirstIs(cs: seq<Class>, i: nat, end: nat, d: nat) {
    exists k: nat :: IsFirstStrong(cs, i, end, k, d)
  }

  lemma {:induction false} SoonerMatched(cs: seq<Class>, j: nat, d: nat, e: nat)
    requires j <= |cs| && 0 < e < d && MatchFrom(cs, j, d) < |cs|
    ensures MatchFrom(cs, j, e) < MatchFrom(cs, j, d)
    decreases |cs| - j
  {
    if Isolate(cs[j]) {
      SoonerMatched(cs, j + 1, d + 1, e + 1);
    } else if cs[j] != PDI {
      SoonerMatched(cs, j + 1, d, e);
    } else if e > 1 {
      SoonerMatched(cs, j + 1, d - 1, e - 1);
    }
  }

  /** An isolate that starts inside a matched one ends inside of it, and no separator is there. */
  lemma {:induction false} NestedMatch(cs: seq<Class>, j: nat, d: nat, x: nat)
    requires j <= |cs| && d > 0 && j <= x < MatchFrom(cs, j, d) < |cs|
    ensures cs[x] != B && (Isolate(cs[x]) ==> Match(cs, x) < MatchFrom(cs, j, d))
    decreases x - j
  {
    if j < x {
      NestedMatch(cs, j + 1, if Isolate(cs[j]) then d + 1 else if cs[j] == PDI then d - 1 else d, x);
    } else if Isolate(cs[x]) {
      SoonerMatched(cs, x + 1, d + 1, 1);
    }
  }

  lemma MatchIsPdi(cs: seq<Class>, i: nat)
    requires i < |cs| && Match(cs, i) < |cs|
    ensures cs[Match(cs, i)] == PDI
  {
    MatchBalanced(cs, i, Match(cs, i));
  }

  /** After a matched isolate a place is outside just when it is from there on. */
  lemma OutsideAfter(cs: seq<Class>, i: nat, k: nat)
    requires i < |cs| && Isolate(cs[i]) && Match(cs, i) < |cs|
    ensures Outside(cs, i, k) && k > i <==> Outside(cs, Match(cs, i) + 1, k)
  {
    var m := Match(cs, i);
    if m < k <= |cs| {
      MatchIsPdi(cs, i);
      forall x | i < x < m ensures cs[x] != B && (Isolate(cs[x]) ==> Match(cs, x) < m) {
        NestedMatch(cs, i + 1, 1, x);
      }
    }
  }

  /** After any other character but a separator. */
  lemma OutsideNext(cs: seq<Class>, i: nat, k: nat)
    requires i < |cs| && !Isolate(cs[i]) && cs[i] != B
    ensures Outside(cs, i, k) && k > i <==> Outside(cs, i + 1, k)
  {
  }

  /** The direction found is that of the first strong character outside of isolates, if there is
      one before the end and before a separator. */
  lemma {:induction false} FirstStrongIs(cs: seq<Class>, i: nat, end: nat, d: nat)
    requires end <= |cs|
    ensures FirstStrong(cs, i, end) == Some(d) <==> FirstIs(cs, i, end, d)
    decreases |cs| - i
  {
    hide Match, MatchFrom, Outside;
    if i >= end {
      return;
    }
    FromHere(cs, i);
    var next := if Isolate(cs[i]) then Match(cs, i) + 1 else i + 1;
    if Strong(cs[i], 0) || Strong(cs[i], 1) {
      assert forall k: nat, e: nat :: IsFirstStrong(cs, i, end, k, e) ==> k == i;
      if FirstStrong(cs, i, end) == Some(d) {
        assert IsFirstStrong(cs, i, end, i, d);
      }
    } else if cs[i] == B || next > |cs| {
      forall k: nat ensures !IsFirstStrong(cs, i, end, k, d) {
        StopsHere(cs, i, k);
      }
    } else {
      FirstStrongIs(cs, next, end, d);
      forall k: nat ensures Outside(cs, i, k) && k > i <==> Outside(cs, next, k) {
        if Isolate(cs[i]) {
          OutsideAfter(cs, i, k);
        } else {
          OutsideNext(cs, i, k);
        }
      }
      forall k: nat ensures IsFirstStrong(cs, i, end, k, d) <==> IsFirstStrong(cs, next, end, k, d) {
        SameFirst(cs, i, next, end, k, d);
      }
    }
  }

  lemma FromHere(cs: seq<Class>, i: nat)
    requires i <= |cs|
    ensures Outside(cs, i, i)
  {
  }

  lemma StopsHere(cs: seq<Class>, i: nat, k: nat)
    requires i < |cs| && (cs[i] == B || (Isolate(cs[i]) && Match(cs, i) == |cs|))
    ensures k > i ==> !Outside(cs, i, k)
  {
    hide Match;
  }

  lemma SameFirst(cs: seq<Class>, i: nat, next: nat, end: nat, k: nat, d: nat)
    requires i < |cs| && i < next && !Strong(cs[i], 0) && !Strong(cs[i], 1)
    requires forall x: nat :: Outside(cs, i, x) && x > i <==> Outside(cs, next, x)
    ensures IsFirstStrong(cs, i, end, k, d) <==> IsFirstStrong(cs, next, end, k, d)
  {
    assert forall x: nat :: Outside(cs, next, x) ==> next <= x by { OutsideFrom(cs, next); }
    hide Outside;
  }

  lemma OutsideFrom(cs: seq<Class>, i: nat)
    ensures forall x: nat :: Outside(cs, i, x) ==> i <= x <= |cs|
  {
  }

  method FindFirstStrong(cs: seq<Class>, start: nat, end: nat) returns (r: Option<nat>)
    requires start <= |cs| && end <= |cs|
    ensures r == FirstStrong(cs, start, end)
  {
    var i: nat := start;
    while i < end
      invariant i <= |cs| + 1
      invariant i <= |cs| ==> FirstStrong(cs, start, end) == FirstStrong(cs, i, end)
      invariant i > |cs| ==> FirstStrong(cs, start, end).None?
      decreases |cs| + 1 - i
    {
      var t := cs[i];
      if t == L {
        return Some(0);
      }
      if t == R || t == AL {
        return Some(1);
      }
      if Isolate(t) {
        i := MatchingPdi(cs, i);
      } else if t == B {
        break;
      }
      i := i + 1;
    }
    r := None;
  }

  lemma {:induction false} StrongIsLevel(cs: seq<Class>, i: nat, end: nat)
    requires end <= |cs|
    ensures FirstStrong(cs, i, end).Some? ==> FirstStrong(cs, i, end).value <= 1
    decreases |cs| - i
  {
    if i < end {
      if Isolate(cs[i]) {
        if Match(cs, i) < |cs| {
          StrongIsLevel(cs, Match(cs, i) + 1, end);
        }
      } else {
        StrongIsLevel(cs, i + 1, end);
      }
    }
  }
}
