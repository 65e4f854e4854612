/** The subset construction, and the correctness of the compiled machine: on every word
    it answers with the type of the first rule whose language holds the word. */
module SyllableCompiler {
  import opened Patterns
  import opened SyllableNfa
  import opened SyllableBuild
  import opened SyllableDfa

  // ----------------------------------------------------------- one subset step

  /** Where the states cur go by reading a category of class rep. */
  ghost function Moves(ts: set<Trans>, cur: set<nat>, rep: Rep): set<nat> {
    set t | t in ts && t.Edge? && t.from in cur && Reads(t.cats, rep) :: t.to
  }

  method Move(nfa: Nfa, cur: set<nat>, rep: Rep) returns (next: set<nat>)
    requires nfa.Valid() && forall s :: s in cur ==> s < |nfa.edges|
    ensures next == Moves(nfa.trans, cur, rep)
    ensures forall q :: q in next ==> q < |nfa.edges|
  {
    next := {};
    var rest := cur;
    while rest != {}
      invariant rest <= cur
      invariant next == Moves(nfa.trans, cur - rest, rep)
    {
      var s :| s in rest;
      var es := nfa.edges[s];
      ghost var before := next;
      for k := 0 to |es|
        invariant next == before + TargetsOf(es[..k], rep)
      {
        assert es[..k + 1] == es[..k] + [es[k]];
        if Reads(es[k].0, rep) {
          next := next + {es[k].1};
        }
      }
      assert es[..|es|] == es;
      MovesOne(nfa, s, cur - rest, rep);
      rest := rest - {s};
      assert cur - rest == (cur - (rest + {s})) + {s};
    }
    assert cur - {} == cur;
  }

  ghost function TargetsOf(es: seq<(Cats, nat)>, rep: Rep): set<nat> {
    set x | x in es && Reads(x.0, rep) :: x.1
  }

  lemma MovesOne(nfa: Nfa, s: nat, cur: set<nat>, rep: Rep)
    requires nfa.Valid() && s < |nfa.edges|
    ensures Moves(nfa.trans, cur + {s}, rep) == Moves(nfa.trans, cur, rep) + TargetsOf(nfa.edges[s], rep)
  {
    forall q | q in Moves(nfa.trans, cur + {s}, rep)
      ensures q in Moves(nfa.trans, cur, rep) + TargetsOf(nfa.edges[s], rep)
    {
      var t :| t in nfa.trans && t.Edge? && t.from in cur + {s} && Reads(t.cats, rep) && t.to == q;
      if t.from == s {
        assert nfa.Has(t) && (t.cats, t.to) in nfa.edges[s];
      }
    }
    forall q | q in TargetsOf(nfa.edges[s], rep) ensures q in Moves(nfa.trans, cur + {s}, rep) {
      var x :| x in nfa.edges[s] && Reads(x.0, rep) && x.1 == q;
      assert Edge(s, x.0, x.1) in nfa.trans;
    }
  }

  /** typ is the type of the lowest-ranked rule that may end in cur, -1 when none may. */
  ghost predicate AcceptIs(g: seq<Rule>, accept: map<nat, nat>, cur: set<nat>, typ: int) {
    if forall s :: s in cur ==> s !in accept then typ == -1
    else exists s :: s in cur && s in accept && accept[s] < |g| && typ == g[accept[s]].typ
           && forall t :: t in cur && t in accept ==> accept[s] <= accept[t]
  }

  method AcceptType(g: seq<Rule>, accept: map<nat, nat>, cur: set<nat>) returns (typ: int)
    requires forall s :: s in accept ==> accept[s] < |g|
    ensures AcceptIs(g, accept, cur, typ)
  {
    var ending := set s | s in cur && s in accept;
    if ending == {} {
      assert forall s :: s in ending <==> s in cur && s in accept;
      return -1;
    }
    var ranks := set s | s in ending :: accept[s];
    ghost var some :| some in ending;
    assert accept[some] in ranks;
    var min :| min in ranks;
    var rest := ranks - {min};
    while rest != {}
      invariant rest < ranks && min in ranks
      invariant forall r :: r in ranks && r !in rest ==> min <= r
    {
      var r :| r in rest;
      if r < min {
        min := r;
      }
      rest := rest - {r};
    }
    typ := g[min].typ;
    assert AcceptIs(g, accept, cur, typ) by {
      var s :| s in cur && s in accept && accept[s] == min;
      assert forall t :: t in cur && t in accept ==> accept[t] in ranks;
      assert accept[s] < |g| && typ == g[accept[s]].typ;
    }
  }

  // --------------------------------------------------- the subset construction

  /** Row i of the table is right: each class leads to the closed set of moves, or to -1. */
  ghost predicate RowIs(ts: set<Trans>, reps: seq<Rep>, states: seq<set<nat>>, i: nat, row: seq<int>)
    requires i < |states|
  {
    |row| <= |reps| && forall k :: 0 <= k < |row| ==> EntryIs(ts, states, Moves(ts, states[i], reps[k]), row[k])
  }

  ghost predicate EntryIs(ts: set<Trans>, states: seq<set<nat>>, moves: set<nat>, j: int) {
    if moves == {} then j == -1
    else 0 < j < |states| && forall q :: q in states[j] <==> Reached(ts, moves, q)
  }

  /** The table of n rows over the subsets reached so far. */
  ghost predicate Tabulates(g: seq<Rule>, a: Automaton, reps: seq<Rep>, states: seq<set<nat>>,
                            trans: seq<seq<int>>, accept: seq<int>, n: nat) {
    && n == |trans| == |accept| <= |states|
    && forall i :: 0 <= i < n ==>
         && |trans[i]| == |reps|
         && RowIs(a.ts, reps, states, i, trans[i])
         && if i == 0 then accept[i] == -1 else AcceptIs(g, a.accept, states[i], accept[i])
  }

  /** The subsets numbered so far: distinct, of existing states, the closed start first,
      no other holding state 0. */
  ghost predicate Numbers(a: Automaton, states: seq<set<nat>>, index: map<set<nat>, nat>) {
    && states != [] && 0 in states[0] && (forall q :: q in states[0] <==> Reached(a.ts, {0}, q))
    && (forall i, q :: 0 <= i < |states| && q in states[i] ==> q < a.n)
    && (forall i :: 0 <= i < |states| ==> states[i] in index && index[states[i]] == i)
    && (forall s :: s in index ==> index[s] < |states| && states[index[s]] == s)
  }

  ghost function Subsets(n: nat): set<set<nat>> {
    var all := Range(0, n);
    set s: set<nat> | s <= all
  }

  /** Distinct subsets are at most as many as there are subsets. */
  lemma Bounded(a: Automaton, states: seq<set<nat>>, index: map<set<nat>, nat>)
    requires Numbers(a, states, index)
    ensures |states| <= |Subsets(a.n)|
  {
    DistinctCount(states, |states|);
    var elems := set i | 0 <= i < |states| :: states[i];
    forall s | s in elems ensures s in Subsets(a.n) {
      var i :| 0 <= i < |states| && states[i] == s;
      assert forall q :: q in s ==> q in Range(0, a.n);
    }
    SubsetCount(elems, Subsets(a.n));
  }

  lemma {:induction false} DistinctCount(states: seq<set<nat>>, n: nat)
    requires n <= |states| && forall i, j :: 0 <= i < j < |states| ==> states[i] != states[j]
    ensures |set i | 0 <= i < n :: states[i]| == n
  {
    var elems := set i | 0 <= i < n :: states[i];
    if n > 0 {
      DistinctCount(states, n - 1);
      assert elems == (set i | 0 <= i < n - 1 :: states[i]) + {states[n - 1]};
    }
  }

  lemma SubsetCount<T>(xs: set<T>, ys: set<T>)
    requires xs <= ys
    ensures |xs| <= |ys|
  {
    assert ys == xs + (ys - xs);
  }

  /** Moves never lead to state 0. */
  lemma {:induction false} NotStart(ts: set<Trans>, a: nat, path: Path, q: nat)
    requires forall t :: t in ts ==> t.to != 0
    requires a != 0 && IsPath(ts, a, path, q)
    ensures q != 0
    decreases path
  {
    match path
    case Done =>
    case Step(t, c, rest) => NotStart(ts, t.to, rest, q);
  }

  lemma RowMore(ts: set<Trans>, reps: seq<Rep>, states: seq<set<nat>>, states': seq<set<nat>>, i: nat, row: seq<int>)
    requires i < |states| && states <= states' && 0 < |row| <= |reps|
    requires RowIs(ts, reps, states, i, row[..|row| - 1])
    requires EntryIs(ts, states', Moves(ts, states'[i], reps[|row| - 1]), row[|row| - 1])
    ensures RowIs(ts, reps, states', i, row)
  {
    forall k | 0 <= k < |row| ensures EntryIs(ts, states', Moves(ts, states'[i], reps[k]), row[k]) {
      if k < |row| - 1 {
        assert row[..|row| - 1][k] == row[k];
        assert EntryIs(ts, states, Moves(ts, states[i], reps[k]), row[k]);
      }
    }
  }

  /** One entry: where the subset i goes by a class; a subset not numbered yet is numbered. */
  method Entry(g: seq<Rule>, nfa: Nfa, rep: Rep, i: nat, states0: seq<set<nat>>, index0: map<set<nat>, nat>)
    returns (j: int, states: seq<set<nat>>, index: map<set<nat>, nat>)
    requires nfa.Valid() && nfa.trans == GrammarNfa(g).ts && |nfa.edges| == GrammarNfa(g).n
    requires i < |states0| && Numbers(GrammarNfa(g), states0, index0)
    ensures states0 <= states && Numbers(GrammarNfa(g), states, index)
    ensures EntryIs(nfa.trans, states, Moves(nfa.trans, states[i], rep), j)
  {
    states, index := states0, index0;
    var next := Move(nfa, states[i], rep);
    if next == {} {
      return -1, states, index;
    }
    var closed := nfa.Closure(next);
    AwayFromStart(g, next, closed, Moves(nfa.trans, states[i], rep));
    if closed !in index {
      index := index[closed := |states|];
      states := states + [closed];
    }
    j := index[closed];
  }

  lemma AwayFromStart(g: seq<Rule>, next: set<nat>, closed: set<nat>, moves: set<nat>)
    requires next == moves && (forall q :: q in closed <==> Reached(GrammarNfa(g).ts, next, q))
    requires forall q :: q in next ==> exists t :: t in GrammarNfa(g).ts && t.to == q
    ensures 0 !in closed
  {
    GrammarShape(g);
    if 0 in closed {
      var b, path :| b in next && IsPath(GrammarNfa(g).ts, b, path, 0) && WordOf(path) == [];
      NotStart(GrammarNfa(g).ts, b, path, 0);
    }
  }

  /** The row of the subset i. */
  method Row(g: seq<Rule>, nfa: Nfa, reps: seq<Rep>, i: nat, states0: seq<set<nat>>, index0: map<set<nat>, nat>)
    returns (row: seq<int>, states: seq<set<nat>>, index: map<set<nat>, nat>)
    requires nfa.Valid() && nfa.trans == GrammarNfa(g).ts && |nfa.edges| == GrammarNfa(g).n
    requires i < |states0| && Numbers(GrammarNfa(g), states0, index0)
    ensures states0 <= states && Numbers(GrammarNfa(g), states, index)
    ensures |row| == |reps| && RowIs(nfa.trans, reps, states, i, row)
  {
    row, states, index := [], states0, index0;
    for k := 0 to |reps|
      invariant states0 <= states && Numbers(GrammarNfa(g), states, index)
      invariant |row| == k && RowIs(nfa.trans, reps, states, i, row)
    {
      ghost var before, done := states, row;
      var j;
      j, states, index := Entry(g, nfa, reps[k], i, states, index);
      row := row + [j];
      assert row[..k] == done;
      RowMore(nfa.trans, reps, before, states, i, row);
    }
  }

  lemma TabulatesMore(g: seq<Rule>, a: Automaton, reps: seq<Rep>, states: seq<set<nat>>, states': seq<set<nat>>,
                      trans: seq<seq<int>>, accept: seq<int>, n: nat, row: seq<int>, typ: int)
    requires Tabulates(g, a, reps, states, trans, accept, n) && states <= states' && n < |states|
    requires |row| == |reps| && RowIs(a.ts, reps, states', n, row)
    requires if n == 0 then typ == -1 else AcceptIs(g, a.accept, states[n], typ)
    ensures Tabulates(g, a, reps, states', trans + [row], accept + [typ], n + 1)
  {
    forall i | 0 <= i < n ensures RowIs(a.ts, reps, states', i, trans[i]) {
      assert RowIs(a.ts, reps, states, i, trans[i]) && states'[i] == states[i];
      forall k | 0 <= k < |trans[i]| ensures EntryIs(a.ts, states', Moves(a.ts, states'[i], reps[k]), trans[i][k]) {
        assert EntryIs(a.ts, states, Moves(a.ts, states[i], reps[k]), trans[i][k]);
      }
    }
  }

  method Determinise(g: seq<Rule>, nfa: Nfa, reps: seq<Rep>)
    returns (trans: seq<seq<int>>, accept: seq<int>, ghost states: seq<set<nat>>)
    requires nfa.Valid() && nfa.trans == GrammarNfa(g).ts && |nfa.edges| == GrammarNfa(g).n
    requires nfa.accept == GrammarNfa(g).accept
    ensures states != [] && (forall q :: q in states[0] <==> Reached(nfa.trans, {0}, q))
    ensures Tabulates(g, GrammarNfa(g), reps, states, trans, accept, |states|)
  {
    ghost var a := GrammarNfa(g);
    GrammarShape(g);
    var first := nfa.Closure({0});
    assert IsPath(a.ts, 0, Done, 0);
    var subsets, index := [first], map[first := 0];
    trans, accept := [], [];
    var i := 0;
    Bounded(a, subsets, index);
    while i < |subsets|
      invariant i <= |subsets| <= |Subsets(a.n)| && Numbers(a, subsets, index)
      invariant Tabulates(g, a, reps, subsets, trans, accept, i)
      decreases |Subsets(a.n)| - i
    {
      var typ := AcceptType(g, nfa.accept, subsets[i]);
      ghost var before, trans0, accept0 := subsets, trans, accept;
      accept := accept + [if i > 0 then typ else -1];
      var row;
      row, subsets, index := Row(g, nfa, reps, i, subsets, index);
      trans := trans + [row];
      TabulatesMore(g, a, reps, before, subsets, trans0, accept0, i, row, accept[i]);
      Bounded(a, subsets, index);
      i := i + 1;
    }
    states := subsets;
  }

  // ------------------------------------------------------------- correctness

  ghost function GrammarUses(g: seq<Rule>): set<int> {
    if g == [] then {} else GrammarUses(g[..|g| - 1]) + Used(g[|g| - 1].p)
  }

  /** Every category of w is listed or used by no pattern: what the caller of dfa must list. */
  ghost predicate Covered(g: seq<Rule>, categories: seq<int>, w: Word) {
    forall c :: c in w ==> c in categories || c !in GrammarUses(g)
  }

  ghost predicate LabelsWithin(ts: set<Trans>, uses: set<int>) {
    forall t :: t in ts && t.Edge? && t.cats.OneOf? ==> t.cats.cats <= uses
  }

  lemma {:induction false} FragmentUses(p: Pat, n: nat, s: nat, e: nat)
    ensures LabelsWithin(Fragment(p, n, s, e).0, Used(p))
    decreases p, 1
  {
    match p
    case Cat(cats) =>
    case Any =>
    case Seq(ps) => if ps != [] { SeqUses(ps, n, s, e); }
    case Alt(ps) => AltUses(ps, n, s, e);
    case Opt(q) => FragmentUses(q, n, s, e);
    case Star(q) => FragmentUses(q, n + 2, n, n + 1);
  }

  lemma {:induction false} SeqUses(ps: seq<Pat>, n: nat, s: nat, e: nat)
    requires ps != []
    ensures LabelsWithin(SeqFragment(ps, n, s, e).0, UsedAll(ps))
    decreases ps, 0
  {
    if |ps| == 1 {
      FragmentUses(ps[0], n, s, e);
    } else {
      FragmentUses(ps[0], n + 1, s, n);
      SeqUses(ps[1..], Fragment(ps[0], n + 1, s, n).1, n, e);
    }
  }

  lemma {:induction false} AltUses(ps: seq<Pat>, n: nat, s: nat, e: nat)
    ensures LabelsWithin(AltFragment(ps, n, s, e).0, UsedAll(ps))
    decreases ps, 0
  {
    if ps != [] {
      FragmentUses(ps[0], n, s, e);
      AltUses(ps[1..], Fragment(ps[0], n, s, e).1, s, e);
    }
  }

  lemma {:induction false} GrammarLabels(g: seq<Rule>)
    ensures LabelsWithin(GrammarNfa(g).ts, GrammarUses(g))
  {
    if g != [] {
      var k := |g| - 1;
      GrammarLabels(g[..k]);
      var n := GrammarNfa(g[..k]).n;
      FragmentUses(g[k].p, n + 2, n, n + 1);
    }
  }

  /** Running the machine: -1 once no state is left. */
  function Run(m: Machine, w: Word): int
    requires Usable(m)
    ensures -1 <= Run(m, w) < |m.trans|
  {
    if w == [] then 0
    else
      var s := Run(m, w[..|w| - 1]);
      if s < 0 then -1 else m.trans[s][m.ClassOf(w[|w| - 1])]
  }

  /** Every lookup a run makes is in range. */
  ghost predicate Usable(m: Machine) {
    && |m.trans| > 0 && |m.accept| == |m.trans|
    && forall i, c :: 0 <= i < |m.trans| ==>
         m.ClassOf(c) < |m.trans[i]| && -1 <= m.trans[i][m.ClassOf(c)] < |m.trans|
  }

  /** The type the machine gives a word: -1 when the run dies or ends in no end state. */
  function Answer(m: Machine, w: Word): int
    requires Usable(m)
  {
    if Run(m, w) < 0 then -1 else m.accept[Run(m, w)]
  }

  /** m compiles g: it gives every covered non-empty word its type in g. */
  ghost predicate Compiles(m: Machine, g: seq<Rule>, categories: seq<int>) {
    && Usable(m)
    && forall w :: w != [] && Covered(g, categories, w) ==> Answer(m, w) == TypeOf(g, w)
  }

  /** The last category read by a walk, and the walk up to it. */
  lemma {:induction false} LastRead(ts: set<Trans>, a: nat, path: Path, q: nat, w: Word, c: int)
    returns (p: Path, t: Trans, r: Path)
    requires IsPath(ts, a, path, q) && WordOf(path) == w + [c]
    ensures t in ts && t.Edge? && t.cats.Has(c) && IsPath(ts, a, p, t.from) && WordOf(p) == w
    ensures IsPath(ts, t.to, r, q) && WordOf(r) == []
    decreases path
  {
    var Step(t0, c0, rest) := path;
    if t0.Edge? && WordOf(rest) == [] {
      assert w + [c] == [c0] && |w| == 0 && (w + [c])[0] == c;
      p, t, r := Done, t0, rest;
    } else if t0.Edge? {
      assert |WordOf(path)| == 1 + |WordOf(rest)|;
      assert (w + [c])[0] == c0 && w != [];
      assert WordOf(rest) == (w + [c])[1..] == w[1..] + [c];
      p, t, r := LastRead(ts, t0.to, rest, q, w[1..], c);
      p := Step(t0, c0, p);
    } else {
      p, t, r := LastRead(ts, t0.to, rest, q, w, c);
      p := Step(t0, c0, p);
    }
  }

  /** A class reads what its categories read. */
  ghost predicate ClassesAgree(ts: set<Trans>, m: Machine, reps: seq<Rep>, c: int) {
    m.ClassOf(c) < |reps| &&
    forall t :: t in ts && t.Edge? ==> (t.cats.Has(c) <==> Reads(t.cats, reps[m.ClassOf(c)]))
  }

  /** One more category: the subset reached is the closed set of moves. */
  lemma HitsMore(ts: set<Trans>, w: Word, c: int, cur: set<nat>, rep: Rep, q: nat)
    requires forall s :: s in cur <==> Hits(ts, w, s)
    requires forall t :: t in ts && t.Edge? ==> (t.cats.Has(c) <==> Reads(t.cats, rep))
    ensures Hits(ts, w + [c], q) <==> Reached(ts, Moves(ts, cur, rep), q)
  {
    if Hits(ts, w + [c], q) {
      var path :| IsPath(ts, 0, path, q) && WordOf(path) == w + [c];
      var p, t, r := LastRead(ts, 0, path, q, w, c);
      assert Hits(ts, w, t.from);
      assert t.to in Moves(ts, cur, rep);
    }
    if Reached(ts, Moves(ts, cur, rep), q) {
      var a, r :| a in Moves(ts, cur, rep) && IsPath(ts, a, r, q) && WordOf(r) == [];
      var t :| t in ts && t.Edge? && t.from in cur && Reads(t.cats, rep) && t.to == a;
      var p :| IsPath(ts, 0, p, t.from) && WordOf(p) == w;
      JoinIsPath(ts, 0, p, t.from, Step(t, c, r), q);
    }
  }

  /** The run on w stands for the states reached by reading w. */
  lemma {:induction false} RunHits(g: seq<Rule>, m: Machine, reps: seq<Rep>, states: seq<set<nat>>, w: Word)
    requires Usable(m) && states != []
    requires forall q :: q in states[0] <==> Reached(GrammarNfa(g).ts, {0}, q)
    requires Tabulates(g, GrammarNfa(g), reps, states, m.trans, m.accept, |states|)
    requires forall c :: c in w ==> ClassesAgree(GrammarNfa(g).ts, m, reps, c)
    ensures Run(m, w) < 0 ==> forall q :: !Hits(GrammarNfa(g).ts, w, q)
    ensures Run(m, w) >= 0 ==> forall q :: q in states[Run(m, w)] <==> Hits(GrammarNfa(g).ts, w, q)
    ensures w != [] ==> Run(m, w) != 0
    decreases |w|
  {
    var ts := GrammarNfa(g).ts;
    if w == [] {
      forall q ensures Reached(ts, {0}, q) <==> Hits(ts, [], q) {
      }
    } else {
      var v, c := w[..|w| - 1], w[|w| - 1];
      assert w == v + [c];
      RunHits(g, m, reps, states, v);
      var s := Run(m, v);
      var k := m.ClassOf(c);
      assert ClassesAgree(ts, m, reps, c);
      var cur := if s < 0 then {} else states[s];
      forall q ensures Hits(ts, w, q) <==> Reached(ts, Moves(ts, cur, reps[k]), q) {
        HitsMore(ts, v, c, cur, reps[k], q);
      }
      if s >= 0 {
        assert RowIs(ts, reps, states, s, m.trans[s]);
        assert EntryIs(ts, states, Moves(ts, states[s], reps[k]), m.trans[s][k]);
      }
    }
  }

  /** The end state whose rank a subset is accepted with: the least rank of its end states. */
  lemma LeastRank(g: seq<Rule>, accept: map<nat, nat>, cur: set<nat>, typ: int) returns (e: nat)
    requires AcceptIs(g, accept, cur, typ) && exists s :: s in cur && s in accept
    ensures e in cur && e in accept && accept[e] < |g| && typ == g[accept[e]].typ
    ensures forall t :: t in cur && t in accept ==> accept[e] <= accept[t]
  {
    e :| e in cur && e in accept && accept[e] < |g| && typ == g[accept[e]].typ
         && forall t :: t in cur && t in accept ==> accept[e] <= accept[t];
  }

  /** A subset holding exactly the states w reaches is accepted with the type of w. */
  lemma AcceptIsType(g: seq<Rule>, cur: set<nat>, w: Word, typ: int)
    requires forall q :: q in cur <==> Hits(GrammarNfa(g).ts, w, q)
    requires AcceptIs(g, GrammarNfa(g).accept, cur, typ)
    ensures typ == TypeOf(g, w)
  {
    hide GrammarNfa, Match, IsPath;
    var accept, r := GrammarNfa(g).accept, FirstRank(g, w);
    if r < |g| {
      var q := GrammarComplete(g, r, w);
      assert q in cur && accept[q] == r;
    }
    if exists s :: s in cur && s in accept {
      var e := LeastRank(g, accept, cur, typ);
      var path :| IsPath(GrammarNfa(g).ts, 0, path, e) && WordOf(path) == w;
      GrammarSound(g, path, e);
    }
  }

  /** Compiler correctness for one word. */
  lemma AnswerIsType(g: seq<Rule>, m: Machine, reps: seq<Rep>, states: seq<set<nat>>, w: Word)
    requires Usable(m) && states != [] && w != []
    requires forall q :: q in states[0] <==> Reached(GrammarNfa(g).ts, {0}, q)
    requires Tabulates(g, GrammarNfa(g), reps, states, m.trans, m.accept, |states|)
    requires forall c :: c in w ==> ClassesAgree(GrammarNfa(g).ts, m, reps, c)
    ensures Answer(m, w) == TypeOf(g, w)
  {
    RunHits(g, m, reps, states, w);
    var s := Run(m, w);
    if s < 0 {
      AcceptIsType(g, {}, w, -1);
    } else {
      AcceptIsType(g, states[s], w, m.accept[s]);
    }
  }

  method Labels(nfa: Nfa) returns (labels: seq<Cats>)
    requires nfa.Valid()
    ensures forall t :: t in nfa.trans && t.Edge? ==> t.cats in labels
  {
    labels := [];
    for a := 0 to |nfa.edges|
      invariant forall b, x :: 0 <= b < a && x in nfa.edges[b] ==> x.0 in labels
    {
      var es := nfa.edges[a];
      ghost var before := labels;
      for k := 0 to |es|
        invariant forall l :: l in before ==> l in labels
        invariant forall j :: 0 <= j < k ==> es[j].0 in labels
      {
        labels := labels + [es[k].0];
      }
    }
    forall t | t in nfa.trans && t.Edge? ensures t.cats in labels {
      assert nfa.Has(t) && (t.cats, t.to) in nfa.edges[t.from];
    }
  }

  lemma Agreement(g: seq<Rule>, categories: seq<int>, labels: seq<Cats>, m: Machine, reps: seq<Rep>, c: int)
    requires forall t :: t in GrammarNfa(g).ts && t.Edge? ==> t.cats in labels
    requires Classified(labels, categories, m.classes, reps)
    requires c in categories || c !in GrammarUses(g)
    ensures ClassesAgree(GrammarNfa(g).ts, m, reps, c)
  {
    var ts, k := GrammarNfa(g).ts, m.ClassOf(c);
    GrammarLabels(g);
    forall t | t in ts && t.Edge? ensures t.cats.Has(c) <==> Reads(t.cats, reps[k]) {
      if c in categories {
        var i :| 0 <= i < |labels| && labels[i] == t.cats;
        assert Key(labels, reps[k])[i] == Key(labels, Category(c))[i];
      }
    }
  }

  /** The compiler: grammar to automaton to machine. */
  method Dfa(g: seq<Rule>, categories: seq<int>) returns (m: Machine)
    ensures Compiles(m, g, categories)
  {
    var nfa := BuildGrammar(g);
    var labels := Labels(nfa);
    var classes, reps := Classes(labels, categories);
    ghost var states;
    var trans, accept;
    trans, accept, states := Determinise(g, nfa, reps);
    m := Machine(classes, trans, accept);
    forall i, c | 0 <= i < |m.trans|
      ensures m.ClassOf(c) < |m.trans[i]| && -1 <= m.trans[i][m.ClassOf(c)] < |m.trans|
    {
      assert RowIs(nfa.trans, reps, states, i, trans[i]);
      assert EntryIs(nfa.trans, states, Moves(nfa.trans, states[i], reps[m.ClassOf(c)]), trans[i][m.ClassOf(c)]);
    }
    forall w | w != [] && Covered(g, categories, w) ensures Answer(m, w) == TypeOf(g, w) {
      forall c | c in w ensures ClassesAgree(GrammarNfa(g).ts, m, reps, c) {
        Agreement(g, categories, labels, m, reps, c);
      }
      AnswerIsType(g, m, reps, states, w);
    }
  }
}
