/** Building a grammar's automaton, state by state, and closing sets of its states. */
module SyllableBuild {
  import opened Patterns
  import opened SyllableNfa

  class Nfa {
    var edges: seq<seq<(Cats, nat)>>
    var epsilon: seq<seq<nat>>
    var accept: map<nat, nat>
    ghost var trans: set<Trans>  // the same automaton as a set of transitions

    ghost predicate Valid()
      reads this
    {
      && |edges| == |epsilon|
      && (forall t :: t in trans ==> t.to < |edges| && Has(t))
      && (forall a, x :: 0 <= a < |edges| && x in edges[a] ==> Edge(a, x.0, x.1) in trans)
      && (forall a, b :: 0 <= a < |epsilon| && b in epsilon[a] ==> Eps(a, b) in trans)
    }

    ghost predicate Has(t: Trans)
      reads this
    {
      match t
      case Edge(a, cats, b) => a < |edges| && (cats, b) in edges[a]
      case Eps(a, b) => a < |epsilon| && b in epsilon[a]
    }

    constructor ()
      ensures Valid() && |edges| == 0 && accept == map[] && trans == {}
    {
      edges, epsilon, accept, trans := [], [], map[], {};
    }

    method State() returns (s: nat)
      requires Valid()
      modifies this
      ensures Valid() && s == old(|edges|) && |edges| == s + 1
      ensures accept == old(accept) && trans == old(trans)
    {
      edges, epsilon := edges + [[]], epsilon + [[]];
      s := |edges| - 1;
    }

    method AddEdge(a: nat, cats: Cats, b: nat)
      requires Valid() && a < |edges| && b < |edges|
      modifies this
      ensures Valid() && |edges| == old(|edges|) && accept == old(accept)
      ensures trans == old(trans) + {Edge(a, cats, b)}
    {
      edges := edges[a := edges[a] + [(cats, b)]];
      trans := trans + {Edge(a, cats, b)};
    }

    method AddEps(a: nat, b: nat)
      requires Valid() && a < |edges| && b < |edges|
      modifies this
      ensures Valid() && |edges| == old(|edges|) && accept == old(accept)
      ensures trans == old(trans) + {Eps(a, b)}
    {
      epsilon := epsilon[a := epsilon[a] + [b]];
      trans := trans + {Eps(a, b)};
    }

    ghost predicate Followed(q: nat, seen: set<nat>)
      reads this
    {
      q < |epsilon| && forall b :: b in epsilon[q] ==> b in seen
    }

    lemma StillReached(ts: set<Trans>, states: set<nat>, seen: set<nat>, seen': set<nat>, s: nat)
      requires Valid() && ts == trans && s < |edges| && s in seen
      requires forall q :: q in seen ==> Reached(ts, states, q)
      requires forall q :: q in seen' <==> q in seen || q in epsilon[s]
      ensures forall q :: q in seen' ==> Reached(ts, states, q)
    {
      forall q | q in seen' && q !in seen ensures Reached(ts, states, q) {
        assert Eps(s, q) in ts;
        ExtendReached(ts, states, s, q);
      }
    }

    lemma StillFollowed(seen: set<nat>, todo: seq<nat>, seen': set<nat>, todo': seq<nat>, s: nat)
      requires Valid() && s < |edges| && todo != [] && s == todo[|todo| - 1]
      requires forall q :: q in seen && q !in todo ==> Followed(q, seen)
      requires forall q :: q in seen' <==> q in seen || q in epsilon[s]
      requires forall q :: q in todo' <==> q in todo[..|todo| - 1] || (q in epsilon[s] && q !in seen)
      ensures forall q :: q in seen' && q !in todo' ==> Followed(q, seen')
    {
      InLast(todo);
    }

    /** One step of the closure: the states after s not seen yet are seen and put on the stack. */
    method Visit(s: nat, seen: set<nat>, todo: seq<nat>) returns (seen': set<nat>, todo': seq<nat>)
      requires Valid() && s < |edges|
      ensures forall q :: q in seen' <==> q in seen || q in epsilon[s]
      ensures forall q :: q in todo' <==> q in todo || (q in epsilon[s] && q !in seen)
      ensures seen <= seen' && (seen' == seen ==> todo' == todo)
    {
      seen', todo' := seen, todo;
      for k := 0 to |epsilon[s]|
        invariant forall q :: q in seen' <==> q in seen || q in epsilon[s][..k]
        invariant forall q :: q in todo' <==> q in todo || (q in epsilon[s][..k] && q !in seen)
        invariant seen' == seen ==> todo' == todo
      {
        var t := epsilon[s][k];
        assert epsilon[s][..k + 1] == epsilon[s][..k] + [t];
        if t !in seen' {
          seen', todo' := seen' + {t}, todo' + [t];
        }
      }
      assert epsilon[s][..|epsilon[s]|] == epsilon[s];
    }

    /** All states reached from the given ones without reading anything. */
    method Closure(states: set<nat>) returns (seen: set<nat>)
      requires Valid() && forall s :: s in states ==> s < |edges|
      ensures forall q :: q in seen <==> Reached(trans, states, q)
      ensures forall q :: q in seen ==> q < |edges|
    {
      var todo := SetToSeq(states);
      seen := states;
      ghost var ts: set<Trans>, all: set<nat> := trans, Range(0, |edges|);
      forall q | q in seen ensures Reached(ts, states, q) {
        assert IsPath(ts, q, Done, q);
      }
      while todo != []
        invariant states <= seen <= all
        invariant forall q :: q in todo ==> q in seen
        invariant forall q :: q in seen ==> Reached(ts, states, q)
        invariant forall q :: q in seen && q !in todo ==> Followed(q, seen)
        decreases all - seen, |todo|
      {
        InLast(todo);
        var s := todo[|todo| - 1];
        assert s in all;
        ghost var before, stack := seen, todo;
        seen, todo := Visit(s, seen, todo[..|todo| - 1]);
        StillReached(ts, states, before, seen, s);
        StillFollowed(before, stack, seen, todo, s);
        FewerLeft(all, before, seen);
      }
      forall q, b | q in seen && Eps(q, b) in ts ensures b in seen {
        assert Has(Eps(q, b)) && Followed(q, seen);
      }
      forall q | Reached(ts, states, q) ensures q in seen {
        var a, path :| a in states && IsPath(ts, a, path, q) && WordOf(path) == [];
        ClosedUnderEps(ts, seen, a, path, q);
      }
    }
  }

  /** q is reached from one of the states by transitions that read nothing. */
  ghost predicate Reached(ts: set<Trans>, states: set<nat>, q: nat) {
    exists a, path :: a in states && IsPath(ts, a, path, q) && WordOf(path) == []
  }

  lemma ExtendReached(ts: set<Trans>, states: set<nat>, s: nat, t: nat)
    requires Reached(ts, states, s) && Eps(s, t) in ts
    ensures Reached(ts, states, t)
  {
    var a, path :| a in states && IsPath(ts, a, path, s) && WordOf(path) == [];
    var last := Step(Eps(s, t), 0, Done);
    JoinIsPath(ts, a, path, s, last, t);
    assert IsPath(ts, a, Join(path, last), t);
  }

  lemma {:induction false} ClosedUnderEps(ts: set<Trans>, seen: set<nat>, a: nat, path: Path, q: nat)
    requires a in seen && IsPath(ts, a, path, q) && WordOf(path) == []
    requires forall x, b :: x in seen && Eps(x, b) in ts ==> b in seen
    ensures q in seen
    decreases path
  {
    match path
    case Done =>
    case Step(t, c, rest) => ClosedUnderEps(ts, seen, t.to, rest, q);
  }

  lemma InLast(xs: seq<nat>)
    requires xs != []
    ensures forall x :: x in xs <==> x == xs[|xs| - 1] || x in xs[..|xs| - 1]
  {
    assert xs == xs[..|xs| - 1] + [xs[|xs| - 1]];
  }

  lemma FewerLeft(all: set<nat>, seen: set<nat>, seen': set<nat>)
    requires seen <= seen' <= all
    ensures all - seen' < all - seen || (seen' == seen && all - seen' == all - seen)
  {
    if q :| q in seen' && q !in seen {
      assert q in all - seen && q !in all - seen';
    }
  }

  method SetToSeq(s: set<nat>) returns (xs: seq<nat>)
    ensures forall x :: x in xs <==> x in s
  {
    xs := [];
    var rest := s;
    while rest != {}
      invariant rest <= s
      invariant forall x :: x in xs <==> x in s && x !in rest
    {
      var x :| x in rest;
      xs, rest := xs + [x], rest - {x};
    }
  }

  /** Builds p between start and end: adds exactly the pattern's fragment. */
  method Build(p: Pat, nfa: Nfa, start: nat, end: nat)
    requires nfa.Valid() && start < |nfa.edges| && end < |nfa.edges|
    modifies nfa
    ensures nfa.Valid() && nfa.accept == old(nfa.accept)
    ensures old(|nfa.edges|) <= |nfa.edges| == Fragment(p, old(|nfa.edges|), start, end).1
    ensures nfa.trans == old(nfa.trans) + Fragment(p, old(|nfa.edges|), start, end).0
    decreases p, 1
  {
    hide Nfa.Valid;
    match p
    case Cat(cats) => nfa.AddEdge(start, OneOf(cats), end);
    case Any => nfa.AddEdge(start, AnyCat, end);
    case Seq(ps) => BuildSeq(ps, nfa, start, end);
    case Alt(ps) => BuildAlt(ps, nfa, start, end);
    case Opt(q) =>
      nfa.AddEps(start, end);
      Build(q, nfa, start, end);
    case Star(q) => BuildStar(q, nfa, start, end);
  }

  method BuildStar(q: Pat, nfa: Nfa, start: nat, end: nat)
    requires nfa.Valid() && start < |nfa.edges| && end < |nfa.edges|
    modifies nfa
    ensures nfa.Valid() && nfa.accept == old(nfa.accept)
    ensures var n := old(|nfa.edges|);
      var (d, n') := Fragment(q, n + 2, n, n + 1);
      n <= |nfa.edges| == n' && nfa.trans == old(nfa.trans) + (d + {Eps(start, n), Eps(n + 1, n), Eps(n, end)})
    decreases q, 2
  {
    hide Nfa.Valid;
    var mid := nfa.State();
    nfa.AddEps(start, mid);
    var inner := nfa.State();
    Build(q, nfa, mid, inner);
    nfa.AddEps(inner, mid);
    nfa.AddEps(mid, end);
  }

  method BuildSeq(ps: seq<Pat>, nfa: Nfa, start: nat, end: nat)
    requires nfa.Valid() && start < |nfa.edges| && end < |nfa.edges|
    modifies nfa
    ensures nfa.Valid() && nfa.accept == old(nfa.accept)
    ensures old(|nfa.edges|) <= |nfa.edges| == Fragment(Seq(ps), old(|nfa.edges|), start, end).1
    ensures nfa.trans == old(nfa.trans) + Fragment(Seq(ps), old(|nfa.edges|), start, end).0
    decreases ps, 0
  {
    hide Nfa.Valid;
    if ps == [] {
      nfa.AddEps(start, end);
      return;
    }
    ghost var whole, ts0 := SeqFragment(ps, |nfa.edges|, start, end), nfa.trans;
    var cur: nat := start;
    assert ps[0..] == ps;
    for i := 0 to |ps| - 1
      invariant nfa.Valid() && nfa.accept == old(nfa.accept)
      invariant cur < |nfa.edges| && end < |nfa.edges|
      invariant SeqLeft(whole, ts0, nfa.trans, ps[i..], |nfa.edges|, cur, end)
    {
      ghost var n, ts, left := |nfa.edges|, nfa.trans, ps[i..];
      assert left[0] == ps[i] && left[1..] == ps[i + 1..];
      SeqStep(whole, ts0, ts, left, n, cur, end);
      var next := nfa.State();
      Build(ps[i], nfa, cur, next);
      assert SeqLeft(whole, ts0, nfa.trans, left[1..], |nfa.edges|, next, end);
      cur := next;
    }
    Build(ps[|ps| - 1], nfa, cur, end);
  }

  /** What is built of a sequence, and what is left of it, make up the whole. */
  ghost predicate SeqLeft(whole: (set<Trans>, nat), ts0: set<Trans>, ts: set<Trans>, ps: seq<Pat>, n: nat, s: nat,
                          e: nat) {
    ps != [] && whole.1 == SeqFragment(ps, n, s, e).1 && ts0 + whole.0 == ts + SeqFragment(ps, n, s, e).0
  }

  lemma SeqStep(whole: (set<Trans>, nat), ts0: set<Trans>, ts: set<Trans>, ps: seq<Pat>, n: nat, s: nat, e: nat)
    requires |ps| > 1 && SeqLeft(whole, ts0, ts, ps, n, s, e)
    ensures var (d, n') := Fragment(ps[0], n + 1, s, n); SeqLeft(whole, ts0, ts + d, ps[1..], n', n, e)
  {
  }

  method BuildAlt(ps: seq<Pat>, nfa: Nfa, start: nat, end: nat)
    requires nfa.Valid() && start < |nfa.edges| && end < |nfa.edges|
    modifies nfa
    ensures nfa.Valid() && nfa.accept == old(nfa.accept)
    ensures old(|nfa.edges|) <= |nfa.edges| == AltFragment(ps, old(|nfa.edges|), start, end).1
    ensures nfa.trans == old(nfa.trans) + AltFragment(ps, old(|nfa.edges|), start, end).0
    decreases ps, 0
  {
    ghost var whole, ts0 := AltFragment(ps, |nfa.edges|, start, end), nfa.trans;
    assert ps[0..] == ps;
    for i := 0 to |ps|
      invariant nfa.Valid() && nfa.accept == old(nfa.accept)
      invariant start < |nfa.edges| && end < |nfa.edges|
      invariant AltLeft(whole, ts0, nfa.trans, ps[i..], |nfa.edges|, start, end)
    {
      ghost var n, ts := |nfa.edges|, nfa.trans;
      Build(ps[i], nfa, start, end);
      AltStep(whole, ts0, ts, ps[i..], n, start, end);
      assert ps[i..][1..] == ps[i + 1..];
    }
  }

  ghost predicate AltLeft(whole: (set<Trans>, nat), ts0: set<Trans>, ts: set<Trans>, ps: seq<Pat>, n: nat, s: nat,
                          e: nat) {
    whole.1 == AltFragment(ps, n, s, e).1 && ts0 + whole.0 == ts + AltFragment(ps, n, s, e).0
  }

  lemma AltStep(whole: (set<Trans>, nat), ts0: set<Trans>, ts: set<Trans>, ps: seq<Pat>, n: nat, s: nat, e: nat)
    requires ps != [] && AltLeft(whole, ts0, ts, ps, n, s, e)
    ensures var (d, n') := Fragment(ps[0], n, s, e); AltLeft(whole, ts0, ts + d, ps[1..], n', s, e)
  {
  }

  // ---------------------------------------------------------------- grammars

  /** A grammar's automaton as a value: transitions, number of states, rank by end state.
      State 0 is the start; each rule has its own pair of states. */
  datatype Automaton = Automaton(ts: set<Trans>, n: nat, accept: map<nat, nat>)

  function GrammarNfa(g: seq<Rule>): (r: Automaton)
    ensures r.n >= 1
  {
    if g == [] then Automaton({}, 1, map[])
    else
      var a := GrammarNfa(g[..|g| - 1]);
      var (d, n') := Fragment(g[|g| - 1].p, a.n + 2, a.n, a.n + 1);
      Automaton(a.ts + {Eps(0, a.n)} + d, n', a.accept[a.n + 1 := |g| - 1])
  }

  method BuildGrammar(g: seq<Rule>) returns (nfa: Nfa)
    ensures fresh(nfa) && nfa.Valid()
    ensures nfa.trans == GrammarNfa(g).ts && |nfa.edges| == GrammarNfa(g).n
    ensures nfa.accept == GrammarNfa(g).accept
  {
    hide Fragment;
    nfa := new Nfa();
    var start := nfa.State();
    for rank := 0 to |g|
      invariant fresh(nfa) && nfa.Valid() && |nfa.edges| == GrammarNfa(g[..rank]).n
      invariant nfa.trans == GrammarNfa(g[..rank]).ts
      invariant nfa.accept == GrammarNfa(g[..rank]).accept
    {
      assert g[..rank + 1][..rank] == g[..rank] && g[..rank + 1][rank] == g[rank];
      var s := nfa.State();
      var e := nfa.State();
      nfa.AddEps(start, s);
      Build(g[rank].p, nfa, s, e);
      nfa.accept := nfa.accept[e := rank];
    }
    assert g[..|g|] == g;
  }

  /** No transition enters state 0, and every transition stays among the states. */
  lemma {:induction false} GrammarShape(g: seq<Rule>)
    ensures forall t :: t in GrammarNfa(g).ts ==> t.from < GrammarNfa(g).n && 0 < t.to < GrammarNfa(g).n
    ensures forall q :: q in GrammarNfa(g).accept ==> 0 < q < GrammarNfa(g).n && GrammarNfa(g).accept[q] < |g|
  {
    if g != [] {
      var h := g[..|g| - 1];
      GrammarShape(h);
      var n := GrammarNfa(h).n;
      FragmentBetween(g[|g| - 1].p, n + 2, n, n + 1);
    }
  }

  /** q is reached from the start reading w. */
  ghost predicate Hits(ts: set<Trans>, w: Word, q: nat) {
    exists path :: IsPath(ts, 0, path, q) && WordOf(path) == w
  }

  /** A walk from the start stays in one rule's own states after its first step. */
  lemma {:induction false} OneRule(ts: set<Trans>, h: Automaton, d: set<Trans>, n': nat, path: Path, q: nat)
    requires ts == h.ts + {Eps(0, h.n)} + d && 1 <= h.n && h.n + 2 <= n'
    requires forall t :: t in h.ts ==> t.from < h.n && 0 < t.to < h.n
    requires Between(d, h.n + 2, n', h.n, h.n + 1)
    requires q != 0 && IsPath(ts, 0, path, q)
    ensures (IsPath(h.ts, 0, path, q) && q < h.n)
         || (path.t == Eps(0, h.n) && IsPath(d, h.n, path.rest, q) && h.n <= q)
  {
    var t, rest := path.t, path.rest;
    if t in h.ts {
      Stay(ts, h.ts, Range(1, h.n), t.to, q, rest);
    } else {
      Stay(ts, d, Range(h.n, n'), h.n, q, rest);
    }
  }

  lemma {:induction false} LastRule(g: seq<Rule>, path: Path, q: nat)
    requires g != [] && q in GrammarNfa(g).accept && IsPath(GrammarNfa(g).ts, 0, path, q)
    ensures var k := |g| - 1; var h := GrammarNfa(g[..k]);
      || (q in h.accept && h.accept[q] == GrammarNfa(g).accept[q] && IsPath(h.ts, 0, path, q))
      || (path.Step? && path.t.Eps? && GrammarNfa(g).accept[q] == k
          && IsPath(Fragment(g[k].p, h.n + 2, h.n, h.n + 1).0, h.n, path.rest, h.n + 1))
  {
    hide Fragment;
    var k := |g| - 1;
    var h := GrammarNfa(g[..k]);
    var f := Fragment(g[k].p, h.n + 2, h.n, h.n + 1);
    GrammarShape(g);
    GrammarShape(g[..k]);
    FragmentBetween(g[k].p, h.n + 2, h.n, h.n + 1);
    OneRule(GrammarNfa(g).ts, h, f.0, f.1, path, q);
  }

  /** A walk from the start to an end state has read a word of that state's rule. */
  lemma {:induction false} GrammarSound(g: seq<Rule>, path: Path, q: nat)
    requires q in GrammarNfa(g).accept && IsPath(GrammarNfa(g).ts, 0, path, q)
    ensures GrammarNfa(g).accept[q] < |g| && Match(g[GrammarNfa(g).accept[q]].p, WordOf(path))
    decreases |g|
  {
    hide Fragment, Match, Used;
    var k := |g| - 1;
    var h := GrammarNfa(g[..k]);
    LastRule(g, path, q);
    if q in h.accept && h.accept[q] == GrammarNfa(g).accept[q] && IsPath(h.ts, 0, path, q) {
      GrammarSound(g[..k], path, q);
    } else {
      FragmentSound(g[k].p, h.n + 2, h.n, h.n + 1, path.rest);
      assert WordOf(path) == WordOf(path.rest);
    }
  }

  /** Every word of a rule leads to its end state. */
  lemma {:induction false} GrammarComplete(g: seq<Rule>, r: nat, w: Word) returns (q: nat)
    requires r < |g| && Match(g[r].p, w)
    ensures q in GrammarNfa(g).accept && GrammarNfa(g).accept[q] == r && Hits(GrammarNfa(g).ts, w, q)
  {
    var a, k := GrammarNfa(g), |g| - 1;
    var h := GrammarNfa(g[..k]);
    var (d, n') := Fragment(g[k].p, h.n + 2, h.n, h.n + 1);
    if r == k {
      q := h.n + 1;
      var path := FragmentComplete(g[k].p, h.n + 2, h.n, h.n + 1, w);
      MorePaths(d, a.ts, h.n, path, q);
      assert IsPath(a.ts, 0, Step(Eps(0, h.n), 0, path), q);
    } else {
      q := GrammarComplete(g[..k], r, w);
      GrammarShape(g[..k]);
      var path :| IsPath(h.ts, 0, path, q) && WordOf(path) == w;
      MorePaths(h.ts, a.ts, 0, path, q);
    }
  }
}
