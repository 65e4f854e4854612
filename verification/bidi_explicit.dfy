/** Explicit levels and directions (rules X1 to X8): the directional status stack with its
    overflow counters, what every step keeps, and that a matched isolate leaves no trace. */
module BidiExplicit {
  import opened Wrappers
  import opened BidiTypes
  import opened BidiIsolates

  /** An entry of the directional status stack. */
  datatype Entry = Entry(level: nat, override: Option<Class>, isolate: bool)

  /** The stack, last entry first. */
  datatype Stack = Bottom | Push(below: Stack, top: Entry) {
    function Top(): Entry { if Push? then top else Entry(0, None, false) }
  }

  datatype Status = Status(stack: Stack, overIso: nat, overEmb: nat, validIso: nat)

  /** The next higher odd, or even, level. */
  function NextLevel(level: nat, rtl: bool): (n: nat)
    ensures level < n <= level + 2 && (n % 2 == 1 <==> rtl)
    ensures forall m :: level < m && (m % 2 == 1 <==> rtl) ==> n <= m
  {
    if rtl == (level % 2 == 1) then level + 2 else level + 1
  }

  /** The stack without the embeddings above its last isolate. */
  function DropEmbeddings(s: Stack): Stack {
    if s.Bottom? || s.top.isolate then s else DropEmbeddings(s.below)
  }

  /** The stack below its last isolate. */
  function BelowIsolate(s: Stack): Stack {
    match DropEmbeddings(s)
    case Bottom => Bottom
    case Push(below, _) => below
  }

  /** Whether an embedding or isolate of this direction is entered, not counted as overflow. */
  predicate Enters(s: Status, rtl: bool) {
    NextLevel(s.stack.Top().level, rtl) <= MAX_DEPTH && s.overIso == 0 && s.overEmb == 0
  }

  predicate EmbedsRtl(c: Class) { c == RLE || c == RLO }

  function OverrideOf(c: Class): Option<Class> {
    if c == RLO then Some(R) else if c == LRO then Some(L) else None
  }

  /** One character of the explicit pass; rtl is an initiator's direction. */
  function Step(s: Status, c: Class, rtl: bool): Status {
    if Embedding(c) then
      if Enters(s, EmbedsRtl(c)) then
        s.(stack := Push(s.stack, Entry(NextLevel(s.stack.Top().level, EmbedsRtl(c)), OverrideOf(c), false)))
      else if s.overIso == 0 then s.(overEmb := s.overEmb + 1)
      else s
    else if Isolate(c) then
      if Enters(s, rtl) then
        s.(stack := Push(s.stack, Entry(NextLevel(s.stack.Top().level, rtl), None, true)), validIso := s.validIso + 1)
      else s.(overIso := s.overIso + 1)
    else if c == PDI then
      if s.overIso > 0 then s.(overIso := s.overIso - 1)
      else if s.validIso > 0 then
        s.(stack := BelowIsolate(s.stack), overEmb := 0, validIso := s.validIso - 1)
      else s
    else if c == PDF then
      if s.overIso > 0 then s
      else if s.overEmb > 0 then s.(overEmb := s.overEmb - 1)
      else if !s.stack.Top().isolate && s.stack.Push? && s.stack.below.Push? then s.(stack := s.stack.below)
      else s
    else s
  }

  // ------------------------------------------------- what every step keeps

  function Isolates(s: Stack): nat {
    if s.Bottom? then 0 else Isolates(s.below) + (if s.top.isolate then 1 else 0)
  }

  /** The stack starts at the paragraph level and rises strictly to at most 125. */
  ghost predicate Rising(para: nat, s: Stack) {
    && s.Push? && s.top.level <= MAX_DEPTH
    && (s.top.override.None? || s.top.override.value == L || s.top.override.value == R)
    && if s.below.Bottom? then s.top == Entry(para, None, false)
       else s.below.top.level < s.top.level && Rising(para, s.below)
  }

  /** Besides, valid_iso counts the stack's isolates. */
  ghost predicate Good(para: nat, s: Status) {
    Rising(para, s.stack) && Isolates(s.stack) == s.validIso
  }

  /** a is b, or b with some of its last entries taken off. */
  ghost predicate Under(a: Stack, b: Stack) {
    a == b || (b.Push? && Under(a, b.below))
  }

  lemma {:induction false} UnderTrans(a: Stack, b: Stack, c: Stack)
    requires Under(a, b) && Under(b, c)
    ensures Under(a, c)
    decreases c
  {
    if b != c {
      UnderTrans(a, b, c.below);
    }
  }

  lemma {:induction false} UnderRising(para: nat, a: Stack, b: Stack)
    requires Rising(para, b) && Under(a, b) && a.Push?
    ensures Rising(para, a) && a.top.level <= b.top.level
    decreases b
  {
    if a != b {
      UnderRising(para, a, b.below);
    }
  }

  lemma {:induction false} DropUnder(s: Stack)
    ensures Under(DropEmbeddings(s), s) && Isolates(DropEmbeddings(s)) == Isolates(s)
    ensures Isolates(s) > 0 ==> DropEmbeddings(s).Push? && DropEmbeddings(s).top.isolate
  {
    if s.Push? && !s.top.isolate {
      DropUnder(s.below);
    }
  }

  lemma {:induction false} BottomIsNoIsolate(para: nat, s: Stack)
    requires Rising(para, s) && s.top.isolate
    ensures s.below.Push?
  {
  }

  lemma StepGood(para: nat, s: Status, c: Class, rtl: bool)
    requires Good(para, s)
    ensures Good(para, Step(s, c, rtl))
  {
    hide NextLevel;
    if c == PDI && s.overIso == 0 && s.validIso > 0 {
      var d := DropEmbeddings(s.stack);
      DropUnder(s.stack);
      UnderRising(para, d, s.stack);
      BottomIsNoIsolate(para, d);
    }
  }

  // --------------------------------------------------------- the whole pass

  /** Whether the initiator at i starts a right-to-left isolate (FSI by its content). */
  ghost function Rtl(cs: seq<Class>, i: nat): bool
    requires i < |cs|
  {
    cs[i] == RLI || (cs[i] == FSI && FirstStrong(cs, i + 1, Match(cs, i)) == Some(1))
  }

  /** The status after k characters. */
  ghost function At(cs: seq<Class>, para: nat, k: nat): Status
    requires k <= |cs|
  {
    if k == 0 then Status(Push(Bottom, Entry(para, None, false)), 0, 0, 0)
    else Step(At(cs, para, k - 1), cs[k - 1], Rtl(cs, k - 1))
  }

  lemma {:induction false} AtGood(cs: seq<Class>, para: nat, k: nat)
    requires k <= |cs| && para <= 1
    ensures Good(para, At(cs, para, k))
  {
    if k > 0 {
      AtGood(cs, para, k - 1);
      StepGood(para, At(cs, para, k - 1), cs[k - 1], Rtl(cs, k - 1));
    }
  }

  /** The stack entry that decides the level and type of the character at k. */
  ghost function Deciding(cs: seq<Class>, para: nat, k: nat): Entry
    requires k < |cs|
  {
    if cs[k] == PDI then At(cs, para, k + 1).stack.Top() else At(cs, para, k).stack.Top()
  }

  ghost function LevelAt(cs: seq<Class>, para: nat, k: nat): nat
    requires k < |cs|
  {
    if cs[k] == B then para else Deciding(cs, para, k).level
  }

  ghost function TypeAt(cs: seq<Class>, para: nat, k: nat): Class
    requires k < |cs|
  {
    if Removed(cs[k]) || cs[k] == B then cs[k]
    else match Deciding(cs, para, k).override
      case Some(o) => o
      case None => cs[k]
  }

  /** Every explicit level lies between the paragraph's and 125. */
  lemma LevelInRange(cs: seq<Class>, para: nat, k: nat)
    requires k < |cs| && para <= 1
    ensures para <= LevelAt(cs, para, k) <= MAX_DEPTH
  {
    AtGood(cs, para, k);
    AtGood(cs, para, k + 1);
    AboveBottom(para, At(cs, para, k).stack);
    AboveBottom(para, At(cs, para, k + 1).stack);
  }

  lemma {:induction false} AboveBottom(para: nat, s: Stack)
    requires Rising(para, s)
    ensures para <= s.top.level
  {
    if s.below.Push? {
      AboveBottom(para, s.below);
    }
  }

  // ------------------------------------------------------- inside an isolate

  /** The stack cut back below its last n isolates and the embeddings above the one before. */
  ghost function Strip(s: Stack, n: nat): Stack
    decreases n
  {
    if n == 0 then DropEmbeddings(s) else Strip(BelowIsolate(s), n - 1)
  }

  /** s is the status just inside an isolate, r the one d isolates deeper inside it: an
      overflow isolate only counts; in a valid one the counters share out the depth, the
      overflow ones innermost, and below them the stack is as it was. */
  ghost predicate Inside(s: Status, r: Status, d: int) {
    if s.overIso > 0 then d >= 0 && r == s.(overIso := s.overIso + d)
    else
      && s.validIso <= r.validIso && r.validIso - s.validIso + r.overIso == d
      && Strip(r.stack, r.validIso - s.validIso) == s.stack
  }

  ghost predicate JustInside(s: Status) {
    s.overIso > 0 || (s.stack.Push? && s.stack.top.isolate)
  }

  lemma InsideStep(s: Status, r: Status, d: int, c: Class, rtl: bool)
    requires JustInside(s) && Inside(s, r, d) && c != B && (c == PDI ==> d > 0)
    ensures Inside(s, Step(r, c, rtl), d + (if Isolate(c) then 1 else if c == PDI then -1 else 0))
  {
    hide Inside, JustInside;
    if c == PDI {
      InsidePdi(s, r, d, rtl);
    } else if Isolate(c) {
      InsideInitiator(s, r, d, c, rtl);
    } else if c == PDF {
      InsidePdf(s, r, d, rtl);
    } else {
      InsideEmbedding(s, r, d, c, rtl);
    }
  }

  lemma InsideEmbedding(s: Status, r: Status, d: int, c: Class, rtl: bool)
    requires JustInside(s) && Inside(s, r, d) && c != PDI && c != PDF && !Isolate(c)
    ensures Inside(s, Step(r, c, rtl), d)
  {
    hide NextLevel, Strip;
    PushUnderStrip(r.stack, r.validIso - s.validIso);
  }

  lemma InsidePdf(s: Status, r: Status, d: int, rtl: bool)
    requires JustInside(s) && Inside(s, r, d)
    ensures Inside(s, Step(r, PDF, rtl), d)
  {
    hide NextLevel, Strip;
    PopUnderStrip(r.stack, r.validIso - s.validIso);
  }

  lemma InsidePdi(s: Status, r: Status, d: int, rtl: bool)
    requires JustInside(s) && Inside(s, r, d) && d > 0
    ensures Inside(s, Step(r, PDI, rtl), d - 1)
  {
  }

  lemma InsideInitiator(s: Status, r: Status, d: int, c: Class, rtl: bool)
    requires JustInside(s) && Inside(s, r, d) && Isolate(c)
    ensures Inside(s, Step(r, c, rtl), d + 1)
  {
    hide NextLevel;
  }

  /** An embedding put on is cut away by the stripping. */
  lemma PushUnderStrip(s: Stack, n: int)
    ensures n >= 0 ==> forall e: Entry :: !e.isolate ==> Strip(Push(s, e), n) == Strip(s, n)
  {
  }

  /** An embedding taken off is cut away by the stripping anyway. */
  lemma PopUnderStrip(s: Stack, n: int)
    ensures n >= 0 && s.Push? && !s.top.isolate ==> Strip(s.below, n) == Strip(s, n)
  {
  }

  lemma {:induction false} InsideAt(cs: seq<Class>, para: nat, i: nat, k: nat)
    requires i < k <= |cs| && Isolate(cs[i]) && Inner(cs, i + 1, k)
    ensures JustInside(At(cs, para, i + 1))
    ensures Inside(At(cs, para, i + 1), At(cs, para, k), Opens(cs, i + 1, k))
    decreases k
  {
    hide MatchFrom, FirstStrong, Step, Rtl, Inside, JustInside;
    if k == i + 1 {
      InsideStart(cs, para, i);
    } else {
      InsideAt(cs, para, i, k - 1);
      assert Opens(cs, i + 1, k) >= 0;
      InsideStep(At(cs, para, i + 1), At(cs, para, k - 1), Opens(cs, i + 1, k - 1), cs[k - 1], Rtl(cs, k - 1));
    }
  }

  lemma InsideStart(cs: seq<Class>, para: nat, i: nat)
    requires i < |cs| && Isolate(cs[i])
    ensures JustInside(At(cs, para, i + 1)) && Inside(At(cs, para, i + 1), At(cs, para, i + 1), 0)
  {
    hide Rtl, NextLevel;
  }

  /** A matched isolate restores the status it started from, whatever its content does. */
  lemma IsolateRestores(cs: seq<Class>, para: nat, i: nat)
    requires i < |cs| && Isolate(cs[i]) && Match(cs, i) < |cs|
    ensures At(cs, para, Match(cs, i) + 1) == At(cs, para, i)
  {
    var j := Match(cs, i);
    MatchBalanced(cs, i, j);
    InsideAt(cs, para, i, j);
  }

  /** Matched pairs get equal explicit levels and overrides. */
  lemma PairLevels(cs: seq<Class>, para: nat, i: nat)
    requires i < |cs| && Isolate(cs[i]) && Match(cs, i) < |cs|
    ensures cs[Match(cs, i)] == PDI
    ensures Deciding(cs, para, i) == Deciding(cs, para, Match(cs, i))
    ensures LevelAt(cs, para, i) == LevelAt(cs, para, Match(cs, i))
  {
    MatchBalanced(cs, i, Match(cs, i));
    IsolateRestores(cs, para, i);
  }

  /** Whether the initiator at i was entered rather than counted as overflow. */
  ghost predicate Entered(cs: seq<Class>, para: nat, i: nat)
    requires i < |cs|
  {
    Isolate(cs[i]) && Enters(At(cs, para, i), Rtl(cs, i))
  }

  lemma {:induction false} StripUnder(s: Stack, n: nat)
    ensures Under(Strip(s, n), s)
    decreases n
  {
    DropUnder(s);
    if n > 0 {
      var b := BelowIsolate(s);
      StripUnder(b, n - 1);
      assert Under(b, DropEmbeddings(s));
      UnderTrans(b, DropEmbeddings(s), s);
      UnderTrans(Strip(b, n - 1), b, s);
    }
  }

  /** What an initiator does: it is entered, at a higher level, or counted. */
  lemma InitiatorStep(cs: seq<Class>, para: nat, i: nat)
    requires i < |cs| && Isolate(cs[i])
    ensures var s, s1 := At(cs, para, i), At(cs, para, i + 1);
      if Entered(cs, para, i) then
        s1.overIso == 0 && s1.stack.Push? && s1.stack.top.isolate && s1.stack.top.level > s.stack.Top().level
      else s1 == s.(overIso := s.overIso + 1)
  {
    hide Rtl;
  }

  /** Inside an entered isolate every level is above the initiator's; inside an overflow
      isolate every level equals it. */
  lemma ContentLevels(cs: seq<Class>, para: nat, i: nat, k: nat)
    requires para <= 1 && i < k < |cs| && Isolate(cs[i]) && Inner(cs, i + 1, k + 1)
    ensures Entered(cs, para, i) ==> LevelAt(cs, para, k) > LevelAt(cs, para, i)
    ensures !Entered(cs, para, i) ==> LevelAt(cs, para, k) == LevelAt(cs, para, i)
  {
    hide MatchFrom, Opens, FirstStrong, At, Entered, Strip, Under, Rising;
    var k' := if cs[k] == PDI then k + 1 else k;
    var s1, r := At(cs, para, i + 1), At(cs, para, k');
    assert Inner(cs, i + 1, k');
    InsideAt(cs, para, i, k');
    InitiatorStep(cs, para, i);
    if Entered(cs, para, i) {
      AtGood(cs, para, k');
      StripUnder(r.stack, r.validIso - s1.validIso);
      UnderRising(para, s1.stack, r.stack);
    }
  }

  // --------------------------------------------- the counters close the pairs

  /** Each open initiator by whether it was entered: the first valid ones, no later one. */
  ghost predicate EnteredFirst(cs: seq<Class>, para: nat, open: seq<nat>, valid: nat) {
    forall m :: 0 <= m < |open| ==> open[m] < |cs| && (Entered(cs, para, open[m]) <==> m < valid)
  }

  /** While the paragraph lasts, the open initiators are exactly those the two counters
      count: the outer valid_iso ones were entered, the inner over_iso ones overflowed. So
      the PDI that empties over_iso before valid_iso closes the innermost open initiator. */
  lemma {:induction false} CountersAreOpen(cs: seq<Class>, para: nat, k: nat)
    requires k <= |cs| && forall x :: 0 <= x < k ==> cs[x] != B
    ensures |Open(cs, k)| == At(cs, para, k).validIso + At(cs, para, k).overIso
    ensures EnteredFirst(cs, para, Open(cs, k), At(cs, para, k).validIso)
  {
    hide At, Entered, Open, EnteredFirst, Isolate;
    if k == 0 {
      CountersStart(cs, para);
    } else {
      CountersAreOpen(cs, para, k - 1);
      CounterStep(cs, para, k - 1);
      OpenStep(cs, k - 1);
      EnteredStep(cs, para, Open(cs, k - 1), At(cs, para, k - 1).validIso, k - 1);
    }
  }

  lemma CountersStart(cs: seq<Class>, para: nat)
    ensures |Open(cs, 0)| == At(cs, para, 0).validIso + At(cs, para, 0).overIso
    ensures EnteredFirst(cs, para, Open(cs, 0), At(cs, para, 0).validIso)
  {
  }

  lemma EnteredStep(cs: seq<Class>, para: nat, open: seq<nat>, valid: nat, k: nat)
    requires EnteredFirst(cs, para, open, valid) && k < |cs|
    ensures Entered(cs, para, k) && valid == |open| ==> EnteredFirst(cs, para, open + [k], valid + 1)
    ensures !Entered(cs, para, k) && valid <= |open| ==> EnteredFirst(cs, para, open + [k], valid)
    ensures open != [] ==> EnteredFirst(cs, para, open[..|open| - 1], if valid == |open| then valid - 1 else valid)
  {
    hide Entered;
  }

  /** What one character does to the counters. */
  lemma CounterStep(cs: seq<Class>, para: nat, k: nat)
    requires k < |cs|
    ensures var s, t := At(cs, para, k), At(cs, para, k + 1);
      if Isolate(cs[k]) then
        if Entered(cs, para, k) then s.overIso == 0 && t.overIso == 0 && t.validIso == s.validIso + 1
        else t.overIso == s.overIso + 1 && t.validIso == s.validIso
      else if cs[k] == PDI then
        if s.overIso > 0 then t.overIso == s.overIso - 1 && t.validIso == s.validIso
        else t.overIso == 0 && t.validIso == if s.validIso > 0 then s.validIso - 1 else 0
      else t.overIso == s.overIso && t.validIso == s.validIso
  {
    hide Rtl, BelowIsolate;
  }

  // --------------------------------------------------------------- the method

  function Pile(s: seq<Entry>): Stack {
    if s == [] then Bottom else Push(Pile(s[..|s| - 1]), s[|s| - 1])
  }

  lemma PilePush(s: seq<Entry>, e: Entry)
    ensures Pile(s + [e]) == Push(Pile(s), e)
  {
    assert (s + [e])[..|s|] == s;
  }

  lemma PileStart(cs: seq<Class>, para: nat)
    ensures Status(Pile([Entry(para, None, false)]), 0, 0, 0) == At(cs, para, 0)
  {
    var stack := [Entry(para, None, false)];
    assert stack[..0] == [];
    assert Pile(stack) == Push(Bottom, stack[0]);
  }

  /** Whether the initiator at i starts a right-to-left isolate. */
  method IsolateRtl(cs: seq<Class>, i: nat) returns (rtl: bool)
    requires i < |cs|
    ensures rtl == Rtl(cs, i)
  {
    if cs[i] == FSI {
      var end := MatchingPdi(cs, i);
      var strong := FindFirstStrong(cs, i + 1, end);
      rtl := strong == Some(1);
    } else {
      rtl := cs[i] == RLI;
    }
  }

  method PopIsolate(stack0: seq<Entry>) returns (stack: seq<Entry>)
    requires Isolates(Pile(stack0)) > 0
    ensures Pile(stack) == BelowIsolate(Pile(stack0))
  {
    stack := stack0;
    while !stack[|stack| - 1].isolate
      invariant Isolates(Pile(stack)) > 0 && DropEmbeddings(Pile(stack)) == DropEmbeddings(Pile(stack0))
      decreases |stack|
    {
      stack := stack[..|stack| - 1];
    }
    stack := stack[..|stack| - 1];
  }

  /** One character of X1 to X8: the status after it, its level and its type. */
  method ExplicitStep(cs: seq<Class>, para: nat, i: nat, stack0: seq<Entry>, overIso0: nat, overEmb0: nat,
                      validIso0: nat)
    returns (stack: seq<Entry>, overIso: nat, overEmb: nat, validIso: nat, level: nat, t: Class)
    requires para <= 1 && i < |cs| && stack0 != []
    requires Status(Pile(stack0), overIso0, overEmb0, validIso0) == At(cs, para, i)
    ensures stack != [] && Status(Pile(stack), overIso, overEmb, validIso) == At(cs, para, i + 1)
    ensures level == LevelAt(cs, para, i) && t == TypeAt(cs, para, i)
  {
    hide NextLevel, Rtl, BelowIsolate;
    stack, overIso, overEmb, validIso := stack0, overIso0, overEmb0, validIso0;
    var c := cs[i];
    t := c;
    AtGood(cs, para, i);
    AtGood(cs, para, i + 1);
    var override := stack[|stack| - 1].override;
    level := stack[|stack| - 1].level;
    if Embedding(c) {
      var rtl := EmbedsRtl(c);
      var next := NextLevel(level, rtl);
      if next <= MAX_DEPTH && overIso == 0 && overEmb == 0 {
        PilePush(stack, Entry(next, OverrideOf(c), false));
        stack := stack + [Entry(next, OverrideOf(c), false)];
      } else if overIso == 0 {
        overEmb := overEmb + 1;
      }
    } else if Isolate(c) {
      if override.Some? {
        t := override.value;
      }
      var rtl := IsolateRtl(cs, i);
      var next := NextLevel(level, rtl);
      if next <= MAX_DEPTH && overIso == 0 && overEmb == 0 {
        validIso := validIso + 1;
        PilePush(stack, Entry(next, None, true));
        stack := stack + [Entry(next, None, true)];
      } else {
        overIso := overIso + 1;
      }
    } else if c == PDI {
      if overIso > 0 {
        overIso := overIso - 1;
      } else if validIso > 0 {
        overEmb := 0;
        stack := PopIsolate(stack);
        validIso := validIso - 1;
      }
      level := stack[|stack| - 1].level;
      if stack[|stack| - 1].override.Some? {
        t := stack[|stack| - 1].override.value;
      }
    } else if c == PDF {
      if overIso > 0 {
      } else if overEmb > 0 {
        overEmb := overEmb - 1;
      } else if !stack[|stack| - 1].isolate && |stack| >= 2 {
        stack := stack[..|stack| - 1];
      }
    } else if c == B {
      level := para;
    } else if c != BN && override.Some? {
      t := override.value;
    }
  }

  /** Rules X1 to X8. */
  method Explicit(cs: seq<Class>, para: nat) returns (levels: seq<nat>, t: seq<Class>)
    requires para <= 1
    ensures |levels| == |t| == |cs|
    ensures forall k :: 0 <= k < |cs| ==> levels[k] == LevelAt(cs, para, k) && t[k] == TypeAt(cs, para, k)
  {
    hide LevelAt, TypeAt, At, Pile;
    levels, t := seq(|cs|, _ => para), cs;
    var stack := [Entry(para, None, false)];
    var overIso: nat, overEmb: nat, validIso: nat := 0, 0, 0;
    PileStart(cs, para);
    for i := 0 to |cs|
      invariant |levels| == |t| == |cs|
      invariant stack != [] && Status(Pile(stack), overIso, overEmb, validIso) == At(cs, para, i)
      invariant forall k :: 0 <= k < i ==> levels[k] == LevelAt(cs, para, k) && t[k] == TypeAt(cs, para, k)
    {
      var level, typ;
      stack, overIso, overEmb, validIso, level, typ :=
        ExplicitStep(cs, para, i, stack, overIso, overEmb, validIso);
      levels, t := levels[i := level], t[i := typ];
    }
  }
}
