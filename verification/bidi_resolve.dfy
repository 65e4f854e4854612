/** The whole algorithm up to the levels of a paragraph: explicit levels, sequences, weak and
    neutral types, implicit levels, and rule L1. */
module BidiResolve {
  import opened Wrappers
  import opened BidiTypes
  import opened BidiIsolates
  import opened BidiExplicit
  import opened BidiSequences
  import opened BidiRuns
  import opened BidiWeak
  import opened BidiNeutral

  // -------------------------------------------- what one sequence is resolved from

  /** The paragraph level: given, or found in the text, left to right by default. */
  ghost function ParagraphLevel(cs: seq<Class>, direction: nat): nat {
    if direction == 2 then match FirstStrong(cs, 0, |cs|) case Some(d) => d case None => 0 else direction
  }

  /** An automatic paragraph is right to left just when the first strong character outside of
      isolates is R or AL. */
  lemma ParagraphIs(cs: seq<Class>)
    ensures ParagraphLevel(cs, 2) <= 1
    ensures ParagraphLevel(cs, 2) == 1 <==> FirstIs(cs, 0, |cs|, 1)
  {
    hide FirstStrong, FirstIs;
    StrongIsLevel(cs, 0, |cs|);
    FirstStrongIs(cs, 0, |cs|, 1);
  }

  /** An FSI starts a right-to-left isolate just when that is so of its content. */
  lemma RtlIs(cs: seq<Class>, i: nat)
    requires i < |cs|
    ensures Rtl(cs, i) <==> cs[i] == RLI || (cs[i] == FSI && FirstIs(cs, i + 1, Match(cs, i), 1))
  {
    hide FirstStrong, FirstIs, Match;
    FirstStrongIs(cs, i + 1, Match(cs, i), 1);
  }

  /** The explicit levels of a text. */
  ghost function Lev(cs: seq<Class>, para: nat): (lev: seq<nat>)
    ensures |lev| == |cs|
  {
    seq(|cs|, k requires 0 <= k < |cs| => LevelAt(cs, para, k))
  }

  lemma LevLeveled(cs: seq<Class>, para: nat)
    requires para <= 1
    ensures Leveled(cs, para, Lev(cs, para))
  {
  }

  function DirectionOf(a: nat, b: nat): Class { if (if a > b then a else b) % 2 == 1 then R else L }

  /** The direction before a sequence: from its level and that of the character before it. */
  ghost function Sos(cs: seq<Class>, para: nat, lev: seq<nat>, h: nat): (c: Class)
    requires h < |cs| == |lev|
    ensures Direction(c)
  {
    DirectionOf(lev[h], match LastKept(cs, h) case None => para case Some(p) => lev[p])
  }

  /** The direction after a sequence that ends with last. */
  ghost function Eos(cs: seq<Class>, para: nat, lev: seq<nat>, h: nat, last: nat): (c: Class)
    requires h < |cs| == |lev| && last < |cs|
    ensures Direction(c)
  {
    var n := FirstKept(cs, last + 1);
    DirectionOf(lev[h], if Isolate(cs[last]) || n == |cs| then para else lev[n])
  }

  /** The direction before a sequence is R just when the higher of two levels is odd: its own, and
      that of the last kept character before it or the paragraph's. */
  lemma SosIs(cs: seq<Class>, para: nat, lev: seq<nat>, h: nat, m: nat)
    requires h < |cs| == |lev| && m >= lev[h]
    requires var prev := match LastKept(cs, h) case None => para case Some(p) => lev[p];
      m >= prev && (m == lev[h] || m == prev)
    ensures Sos(cs, para, lev, h) == if m % 2 == 1 then R else L
  {
  }

  /** So is the direction after one, but after an isolate that is not matched the paragraph's level
      counts. */
  lemma EosIs(cs: seq<Class>, para: nat, lev: seq<nat>, h: nat, last: nat, m: nat)
    requires h < |cs| == |lev| && last < |cs| && m >= lev[h]
    requires var n := FirstKept(cs, last + 1);
      var next := if cs[last] == LRI || cs[last] == RLI || cs[last] == FSI || n == |cs| then para else lev[n];
      m >= next && (m == lev[h] || m == next)
    ensures Eos(cs, para, lev, h, last) == if m % 2 == 1 then R else L
  {
  }

  ghost predicate Within(q: seq<nat>, n: nat) { forall k :: 0 <= k < |q| ==> q[k] < n }

  ghost function Pick<T>(xs: seq<T>, q: seq<nat>): (r: seq<T>)
    requires Within(q, |xs|)
    ensures |r| == |q|
  {
    seq(|q|, k requires 0 <= k < |q| => xs[q[k]])
  }

  /** The types after X1 to X8. */
  ghost function Typ(cs: seq<Class>, para: nat): (t: Types)
    ensures |t| == |cs|
  {
    seq(|cs|, k requires 0 <= k < |cs| => TypeAt(cs, para, k))
  }

  /** The resolved types of the sequence q. */
  ghost function Result(cs: seq<Class>, br: Brackets, para: nat, lev: seq<nat>, q: seq<nat>): (r: Types)
    requires |cs| == |br| == |lev| && q != [] && Within(q, |cs|)
    ensures |r| == |q|
  {
    Resolved(Pick(Typ(cs, para), q), Pick(cs, q), Pick(br, q), lev[q[0]],
             Sos(cs, para, lev, q[0]), Eos(cs, para, lev, q[0], q[|q| - 1]))
  }

  lemma ChainWithin(cs: seq<Class>, para: nat, lev: seq<nat>, h: nat)
    requires Leveled(cs, para, lev) && IsKept(cs, h)
    ensures Within(Chain(cs, lev, h), |cs|)
    ensures forall k :: 0 <= k < |Chain(cs, lev, h)| ==>
      IsKept(cs, Chain(cs, lev, h)[k]) && lev[Chain(cs, lev, h)[k]] == lev[h]
  {
    forall k | 0 <= k < |Chain(cs, lev, h)|
      ensures IsKept(cs, Chain(cs, lev, h)[k]) && lev[Chain(cs, lev, h)[k]] == lev[h]
    {
      ChainSteps(cs, para, lev, h, k);
    }
  }

  /** The resolved type of the character at place k of the sequence of h. */
  ghost function ResultAt(cs: seq<Class>, br: Brackets, para: nat, h: nat, k: nat): Class
    requires |cs| == |br| && para <= 1 && IsKept(cs, h) && k < |Chain(cs, Lev(cs, para), h)|
  {
    LevLeveled(cs, para);
    ChainWithin(cs, para, Lev(cs, para), h);
    Result(cs, br, para, Lev(cs, para), Chain(cs, Lev(cs, para), h))[k]
  }

  /** lv holds the levels after I2: of every place of every sequence, by its resolved type;
      of a removed character, its explicit level. */
  ghost predicate LevelsOf(cs: seq<Class>, br: Brackets, para: nat, lv: seq<nat>) {
    && |lv| == |cs| == |br| && para <= 1
    && (forall x :: 0 <= x < |cs| && Removed(cs[x]) ==> lv[x] == LevelAt(cs, para, x))
    && (forall h: nat, k: nat, x: nat :: Place(cs, Lev(cs, para), h, k, x) && Head(cs, Lev(cs, para), h) ==>
          x < |cs| && lv[x] == Implicit(LevelAt(cs, para, x), ResultAt(cs, br, para, h, k)))
  }

  /** That determines every level. */
  lemma LevelsUnique(cs: seq<Class>, br: Brackets, para: nat, a: seq<nat>, b: seq<nat>)
    requires LevelsOf(cs, br, para, a) && LevelsOf(cs, br, para, b)
    ensures a == b
  {
    forall x | 0 <= x < |cs| ensures a[x] == b[x] {
      if IsKept(cs, x) {
        LevLeveled(cs, para);
        var h, k := EveryKeptInChain(cs, para, Lev(cs, para), x);
        assert Place(cs, Lev(cs, para), h, k, x);
      }
    }
  }

  /** A kept character's type after X1 to X8 is no removed class. */
  lemma TypKept(cs: seq<Class>, para: nat, x: nat)
    requires IsKept(cs, x) && para <= 1
    ensures !Removed(TypeAt(cs, para, x))
  {
    AtGood(cs, para, x);
    AtGood(cs, para, x + 1);
  }

  lemma ResultIsFinal(cs: seq<Class>, br: Brackets, para: nat, h: nat, k: nat)
    requires |cs| == |br| && para <= 1 && IsKept(cs, h) && k < |Chain(cs, Lev(cs, para), h)|
    ensures Final(ResultAt(cs, br, para, h, k))
  {
    hide Resolved, LevelAt, TypeAt, Sos, Eos, Chain, Lev, Final;
    var lev := Lev(cs, para);
    LevLeveled(cs, para);
    ChainWithin(cs, para, lev, h);
    var q := Chain(cs, lev, h);
    forall j | 0 <= j < |q| ensures !Removed(Pick(Typ(cs, para), q)[j]) {
      TypKept(cs, para, q[j]);
    }
    ResolvedIsFinal(Pick(Typ(cs, para), q), Pick(cs, q), Pick(br, q), lev[q[0]],
                    Sos(cs, para, lev, q[0]), Eos(cs, para, lev, q[0], q[|q| - 1]));
  }

  /** Every kept character ends with the least level that suits its resolved type, which is L, R,
      EN or AN: a level from its explicit level on, odd for R and even for all others, and above
      the explicit level for a number. It lies between the paragraph's level and 126. */
  lemma LevelsInRange(cs: seq<Class>, br: Brackets, para: nat, lv: seq<nat>, x: nat) returns (h: nat, k: nat)
    requires LevelsOf(cs, br, para, lv) && IsKept(cs, x)
    ensures Place(cs, Lev(cs, para), h, k, x) && Head(cs, Lev(cs, para), h)
    ensures Final(ResultAt(cs, br, para, h, k))
    ensures LeastSuited(LevelAt(cs, para, x), ResultAt(cs, br, para, h, k), lv[x])
    ensures para <= lv[x] <= MAX_DEPTH + 1
    ensures lv[x] % 2 == 1 <==> ResultAt(cs, br, para, h, k) == R
  {
    hide LevelAt, ResultAt;
    LevLeveled(cs, para);
    h, k := EveryKeptInChain(cs, para, Lev(cs, para), x);
    PlaceSuits(cs, br, para, lv, h, k, x);
    LevelInRange(cs, para, x);
  }

  /** Wherever in a sequence a character is found. */
  lemma PlaceSuits(cs: seq<Class>, br: Brackets, para: nat, lv: seq<nat>, h: nat, k: nat, x: nat)
    requires LevelsOf(cs, br, para, lv) && Place(cs, Lev(cs, para), h, k, x) && Head(cs, Lev(cs, para), h)
    ensures x < |cs| && Final(ResultAt(cs, br, para, h, k))
    ensures LeastSuited(LevelAt(cs, para, x), ResultAt(cs, br, para, h, k), lv[x])
    ensures lv[x] <= LevelAt(cs, para, x) + 2 && (LevelAt(cs, para, x) <= MAX_DEPTH ==> lv[x] <= MAX_DEPTH + 1)
  {
    hide LevelAt, ResultAt;
    LevLeveled(cs, para);
    ResultIsFinal(cs, br, para, h, k);
    ImplicitLevel(LevelAt(cs, para, x), ResultAt(cs, br, para, h, k), lv[x]);
  }

  /** The levels as the text's sequences call for them, without saying how they are computed. */
  ghost predicate LevelsSuit(cs: seq<Class>, br: Brackets, para: nat, lv: seq<nat>) {
    && |lv| == |cs| == |br| && para <= 1
    && (forall x :: 0 <= x < |cs| && Removed(cs[x]) ==> lv[x] == LevelAt(cs, para, x))
    && (forall h: nat, k: nat, x: nat :: Place(cs, Lev(cs, para), h, k, x) && Head(cs, Lev(cs, para), h) ==>
          x < |cs| && LeastSuited(LevelAt(cs, para, x), ResultAt(cs, br, para, h, k), lv[x]))
  }

  /** That says the same. */
  lemma LevelsOfSuit(cs: seq<Class>, br: Brackets, para: nat, lv: seq<nat>)
    ensures LevelsOf(cs, br, para, lv) <==> LevelsSuit(cs, br, para, lv)
  {
    hide LevelAt, ResultAt, LeastSuited, Implicit;
    if LevelsOf(cs, br, para, lv) {
      forall h: nat, k: nat, x: nat | Place(cs, Lev(cs, para), h, k, x) && Head(cs, Lev(cs, para), h)
        ensures x < |cs| && LeastSuited(LevelAt(cs, para, x), ResultAt(cs, br, para, h, k), lv[x])
      {
        PlaceSuits(cs, br, para, lv, h, k, x);
      }
    }
    if LevelsSuit(cs, br, para, lv) {
      forall h: nat, k: nat, x: nat | Place(cs, Lev(cs, para), h, k, x) && Head(cs, Lev(cs, para), h)
        ensures x < |cs| && lv[x] == Implicit(LevelAt(cs, para, x), ResultAt(cs, br, para, h, k))
      {
        ResultIsFinal(cs, br, para, h, k);
        ImplicitLevel(LevelAt(cs, para, x), ResultAt(cs, br, para, h, k), lv[x]);
      }
    }
  }
}
