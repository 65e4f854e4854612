/** Embeddings and overrides (X2 to X5 and X7): what one does to the text in it, that its PDF takes
    it back, and how deep they go. */
module BidiEmbeddings {
  import opened Wrappers
  import opened BidiTypes
  import opened BidiIsolates
  import opened BidiExplicit

  // ---------------------------------------------------------------- what is in one

  /** Text directly inside an embedding that is entered has the least higher level of its
      direction, and as its type L or R if the embedding overrides it, its own class if not. */
  lemma EmbeddingContent(cs: seq<Class>, para: nat, i: nat, k: nat)
    requires para <= 1 && i < k < |cs| && At(cs, para, k) == At(cs, para, i + 1)
    requires cs[i] == RLE || cs[i] == LRE || cs[i] == RLO || cs[i] == LRO
    requires Enters(At(cs, para, i), cs[i] == RLE || cs[i] == RLO)
    requires !Removed(cs[k]) && cs[k] != PDI && cs[k] != B
    ensures LevelAt(cs, para, i) < LevelAt(cs, para, k) <= MAX_DEPTH
    ensures LevelAt(cs, para, k) % 2 == 1 <==> cs[i] == RLE || cs[i] == RLO
    ensures LevelAt(cs, para, k) <= LevelAt(cs, para, i) + 2
    ensures TypeAt(cs, para, k) == if cs[i] == RLO then R else if cs[i] == LRO then L else cs[k]
  {
    hide Rtl;
    AtGood(cs, para, i);
  }

  /** Text directly inside one that is not has the level and type it has outside. */
  lemma OverflowContent(cs: seq<Class>, para: nat, i: nat, k: nat)
    requires para <= 1 && i < k < |cs| && At(cs, para, k) == At(cs, para, i + 1)
    requires Embedding(cs[i]) && !Enters(At(cs, para, i), cs[i] == RLE || cs[i] == RLO)
    requires !Removed(cs[k]) && cs[k] != PDI && cs[k] != B
    ensures LevelAt(cs, para, k) == LevelAt(cs, para, i)
    ensures TypeAt(cs, para, k) ==
      match At(cs, para, i).stack.Top().override case Some(o) => o case None => cs[k]
  {
    hide Rtl;
  }

  // ------------------------------------------------------------- where one ends

  /** The PDF that ends the outermost of depth embeddings open at k, isolates between passed over;
      |cs| when an isolate around them ends or none comes. */
  ghost function Closing(cs: seq<Class>, k: nat, depth: nat): (j: nat)
    requires k <= |cs| && depth > 0
    ensures k <= j <= |cs| && (j < |cs| ==> cs[j] == PDF)
    decreases |cs| - k
  {
    if k == |cs| || cs[k] == PDI then |cs|
    else if Embedding(cs[k]) then Closing(cs, k + 1, depth + 1)
    else if cs[k] == PDF then if depth == 1 then k else Closing(cs, k + 1, depth - 1)
    else if Isolate(cs[k]) then if Match(cs, k) < |cs| then Closing(cs, Match(cs, k) + 1, depth) else |cs|
    else Closing(cs, k + 1, depth)
  }

  /** r is s with n embeddings put on. */
  ghost predicate Piled(s: Stack, r: Stack, n: nat) {
    if n == 0 then r == s else r.Push? && !r.top.isolate && Piled(s, r.below, n - 1)
  }

  /** s is the status before an embedding, r the one d embeddings deeper: all of them on the stack
      or counted, the counted ones innermost; in an overflow isolate neither. */
  ghost predicate Embedded(s: Status, r: Status, d: nat) {
    && s.stack.Push? && r.overIso == s.overIso && r.validIso == s.validIso
    && if s.overIso > 0 then r == s
       else s.overEmb <= r.overEmb && (s.overEmb > 0 ==> r.overEmb == s.overEmb + d)
            && r.overEmb - s.overEmb <= d && Piled(s.stack, r.stack, d - (r.overEmb - s.overEmb))
  }

  lemma PiledPush(s: Stack, r: Stack, n: nat)
    requires Piled(s, r, n) && s.Push?
    ensures r.Push?
  {
  }

  lemma OneDeeper(s: Status, r: Status, d: nat, c: Class, rtl: bool)
    requires Embedded(s, r, d) && Embedding(c)
    ensures Embedded(s, Step(r, c, rtl), d + 1)
  {
    hide NextLevel;
  }

  lemma OneLess(s: Status, r: Status, d: nat, rtl: bool)
    requires Embedded(s, r, d) && d > 0
    ensures Embedded(s, Step(r, PDF, rtl), d - 1)
  {
    if s.overIso == 0 && r.overEmb == 0 {
      PiledPush(s.stack, r.stack.below, d - 1);
    }
  }

  lemma AtNext(cs: seq<Class>, para: nat, k: nat)
    requires k < |cs|
    ensures At(cs, para, k + 1) == Step(At(cs, para, k), cs[k], Rtl(cs, k))
  {
    hide Step, Rtl;
  }

  lemma {:induction false} ClosingRestores(cs: seq<Class>, para: nat, s: Status, k: nat, d: nat)
    requires k <= |cs| && d > 0 && Embedded(s, At(cs, para, k), d) && Closing(cs, k, d) < |cs|
    ensures At(cs, para, Closing(cs, k, d) + 1) == s
    decreases |cs| - k
  {
    hide Embedded, At, Step, Rtl, Match, Embedding, Isolate;
    var c, rtl := cs[k], Rtl(cs, k);
    AtNext(cs, para, k);
    if Embedding(c) {
      OneDeeper(s, At(cs, para, k), d, c, rtl);
      ClosingRestores(cs, para, s, k + 1, d + 1);
    } else if c == PDF {
      OneLess(s, At(cs, para, k), d, rtl);
      if d > 1 {
        ClosingRestores(cs, para, s, k + 1, d - 1);
      } else {
        NoDeeper(s, At(cs, para, k + 1));
      }
    } else if Isolate(c) {
      IsolateRestores(cs, para, k);
      ClosingRestores(cs, para, s, Match(cs, k) + 1, d);
    } else {
      Ordinary(At(cs, para, k), c, rtl);
      ClosingRestores(cs, para, s, k + 1, d);
    }
  }

  lemma NoDeeper(s: Status, r: Status)
    requires Embedded(s, r, 0)
    ensures r == s
  {
  }

  lemma Ordinary(s: Status, c: Class, rtl: bool)
    requires !Embedding(c) && c != PDF && !Isolate(c) && c != PDI
    ensures Step(s, c, rtl) == s
  {
  }

  /** The PDF of an embedding restores the status it started from, whatever is in between, and
      whether it was entered or not. */
  lemma EmbeddingRestores(cs: seq<Class>, para: nat, i: nat)
    requires para <= 1 && i < |cs| && Embedding(cs[i]) && Closing(cs, i + 1, 1) < |cs|
    ensures At(cs, para, Closing(cs, i + 1, 1) + 1) == At(cs, para, i)
  {
    hide Step, Rtl, Closing;
    var s := At(cs, para, i);
    AtGood(cs, para, i);
    OneDeeper(s, s, 0, cs[i], Rtl(cs, i));
    ClosingRestores(cs, para, s, i + 1, 1);
  }

  // ------------------------------------------------------------------ how deep they go

  /** The first n characters are embeddings of alternating direction, against the paragraph's first. */
  ghost predicate Climbs(cs: seq<Class>, para: nat, n: nat) {
    n <= |cs| && forall k :: 0 <= k < n ==>
      if (para + k) % 2 == 0 then cs[k] == RLE || cs[k] == RLO else cs[k] == LRE || cs[k] == LRO
  }

  /** The status after n of them. */
  ghost predicate Climbed(s: Status, para: nat, n: nat) {
    && s.stack.Push? && s.stack.top.level == (if para + n <= 125 then para + n else 125)
    && s.overEmb == (if para + n <= 125 then 0 else para + n - 125) && s.overIso == 0 && s.validIso == 0
  }

  lemma OneClimbed(s: Status, para: nat, n: nat, c: Class, rtl: bool)
    requires Climbed(s, para, n)
    requires if (para + n) % 2 == 0 then c == RLE || c == RLO else c == LRE || c == LRO
    ensures Climbed(Step(s, c, rtl), para, n + 1)
  {
    hide NextLevel, OverrideOf;
    if para + n < 125 {
      assert NextLevel(para + n, EmbedsRtl(c)) == para + n + 1;
    }
  }

  /** Each of them goes one level higher up to level 125; all the others are counted. */
  lemma {:induction false} ClimbsTo125(cs: seq<Class>, para: nat, n: nat)
    requires para <= 1 && Climbs(cs, para, n)
    ensures Climbed(At(cs, para, n), para, n)
  {
    hide Step, Rtl, Climbed;
    if n > 0 {
      ClimbsTo125(cs, para, n - 1);
      OneClimbed(At(cs, para, n - 1), para, n - 1, cs[n - 1], Rtl(cs, n - 1));
    } else {
      NoneClimbed(para);
    }
  }

  lemma NoneClimbed(para: nat)
    requires para <= 1
    ensures Climbed(Status(Push(Bottom, Entry(para, None, false)), 0, 0, 0), para, 0)
  {
  }
}
