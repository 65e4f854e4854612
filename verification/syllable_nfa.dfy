/** The nondeterministic automaton the patterns are built into, and the proof that the
    fragment built between two states reads exactly the pattern's language. */
module SyllableNfa {
  import opened Patterns

  /** What an edge reads: any category, or one of a set. */
  datatype Cats = AnyCat | OneOf(cats: set<int>) {
    predicate Has(c: int) { AnyCat? || c in cats }
  }

  datatype Trans = Edge(from: nat, cats: Cats, to: nat) | Eps(from: nat, to: nat)

  // ------------------------------------------------------------------ paths

  /** A walk: each step takes a transition, an edge also reads the category c. */
  datatype Path = Done | Step(t: Trans, c: int, rest: Path)

  ghost predicate IsPath(ts: set<Trans>, a: nat, path: Path, b: nat)
    decreases path
  {
    match path
    case Done => a == b
    case Step(t, c, rest) =>
      t in ts && t.from == a && (t.Edge? ==> t.cats.Has(c)) && IsPath(ts, t.to, rest, b)
  }

  ghost function WordOf(path: Path): Word {
    match path
    case Done => []
    case Step(t, c, rest) => (if t.Edge? then [c] else []) + WordOf(rest)
  }

  ghost function Join(p: Path, q: Path): Path {
    match p
    case Done => q
    case Step(t, c, rest) => Step(t, c, Join(rest, q))
  }

  lemma {:induction false} JoinIsPath(ts: set<Trans>, a: nat, p: Path, m: nat, q: Path, b: nat)
    requires IsPath(ts, a, p, m) && IsPath(ts, m, q, b)
    ensures IsPath(ts, a, Join(p, q), b)
    ensures WordOf(Join(p, q)) == WordOf(p) + WordOf(q)
    decreases p
  {
    match p
    case Done =>
    case Step(t, c, rest) => JoinIsPath(ts, t.to, rest, m, q, b);
  }

  lemma {:induction false} MorePaths(ts: set<Trans>, us: set<Trans>, a: nat, path: Path, b: nat)
    requires ts <= us && IsPath(ts, a, path, b)
    ensures IsPath(us, a, path, b)
    decreases path
  {
    match path
    case Done =>
    case Step(t, c, rest) => MorePaths(ts, us, t.to, rest, b);
  }

  /** A path that starts inside xs, a region that can only be left through m, and ends
      outside xs goes through m; up to there it uses transitions of ds only. */
  lemma {:induction false} Exit(ts: set<Trans>, ds: set<Trans>, xs: set<nat>, m: nat, x: nat, y: nat, path: Path)
    returns (p: Path, q: Path)
    requires IsPath(ts, x, path, y) && x in xs && y !in xs && m !in xs
    requires forall t :: t in ts && t.from in xs ==> t in ds && (t.to in xs || t.to == m)
    ensures IsPath(ds, x, p, m) && IsPath(ts, m, q, y)
    ensures WordOf(path) == WordOf(p) + WordOf(q) && q < path
    decreases path
  {
    var Step(t, c, rest) := path;
    if t.to == m {
      p, q := Step(t, c, Done), rest;
    } else {
      p, q := Exit(ts, ds, xs, m, t.to, y, rest);
      p := Step(t, c, p);
    }
  }

  /** A path that starts in a region no transition leaves uses that region's transitions. */
  lemma {:induction false} Stay(ts: set<Trans>, ds: set<Trans>, xs: set<nat>, x: nat, y: nat, path: Path)
    requires IsPath(ts, x, path, y) && x in xs
    requires forall t :: t in ts && t.from in xs ==> t in ds && t.to in xs
    ensures IsPath(ds, x, path, y) && y in xs
    decreases path
  {
    match path
    case Done =>
    case Step(t, c, rest) => Stay(ts, ds, xs, t.to, y, rest);
  }

  // --------------------------------------------------------------- fragments

  function Range(lo: nat, hi: nat): (r: set<nat>)
    ensures forall x :: x in r <==> lo <= x < hi
    decreases hi - lo
  {
    if lo < hi then {lo} + Range(lo + 1, hi) else {}
  }

  /** The transitions a pattern adds between the states s and e when n is the next free
      state, and the next free state afterwards. */
  function Fragment(p: Pat, n: nat, s: nat, e: nat): (r: (set<Trans>, nat))
    ensures n <= r.1
    decreases p, 1
  {
    match p
    case Cat(cats) => ({Edge(s, OneOf(cats), e)}, n)
    case Any => ({Edge(s, AnyCat, e)}, n)
    case Seq(ps) => if ps == [] then ({Eps(s, e)}, n) else SeqFragment(ps, n, s, e)
    case Alt(ps) => AltFragment(ps, n, s, e)
    case Opt(q) => var (d, n') := Fragment(q, n, s, e); (d + {Eps(s, e)}, n')
    case Star(q) =>
      var (d, n') := Fragment(q, n + 2, n, n + 1);
      (d + {Eps(s, n), Eps(n + 1, n), Eps(n, e)}, n')
  }

  function SeqFragment(ps: seq<Pat>, n: nat, s: nat, e: nat): (r: (set<Trans>, nat))
    requires ps != []
    ensures n <= r.1
    decreases ps, 0
  {
    if |ps| == 1 then Fragment(ps[0], n, s, e)
    else
      var (d, n') := Fragment(ps[0], n + 1, s, n);
      var (d', n'') := SeqFragment(ps[1..], n', n, e);
      (d + d', n'')
  }

  function AltFragment(ps: seq<Pat>, n: nat, s: nat, e: nat): (r: (set<Trans>, nat))
    ensures n <= r.1
    decreases ps, 0
  {
    if ps == [] then ({}, n)
    else
      var (d, n') := Fragment(ps[0], n, s, e);
      var (d', n'') := AltFragment(ps[1..], n', s, e);
      (d + d', n'')
  }

  /** ds leads from s, through private states lo..hi, to e; s is not entered, e not left. */
  ghost predicate Between(ds: set<Trans>, lo: nat, hi: nat, s: nat, e: nat) {
    forall t :: t in ds ==> (t.from == s || lo <= t.from < hi) && (t.to == e || lo <= t.to < hi)
  }

  lemma {:induction false} FragmentBetween(p: Pat, n: nat, s: nat, e: nat)
    ensures Between(Fragment(p, n, s, e).0, n, Fragment(p, n, s, e).1, s, e)
    decreases p, 1
  {
    match p
    case Cat(cats) =>
    case Any =>
    case Seq(ps) => if ps != [] { SeqBetween(ps, n, s, e); }
    case Alt(ps) => AltBetween(ps, n, s, e);
    case Opt(q) => FragmentBetween(q, n, s, e);
    case Star(q) => FragmentBetween(q, n + 2, n, n + 1);
  }

  lemma {:induction false} SeqBetween(ps: seq<Pat>, n: nat, s: nat, e: nat)
    requires ps != []
    ensures Between(SeqFragment(ps, n, s, e).0, n, SeqFragment(ps, n, s, e).1, s, e)
    decreases ps, 0
  {
    if |ps| == 1 {
      FragmentBetween(ps[0], n, s, e);
    } else {
      FragmentBetween(ps[0], n + 1, s, n);
      SeqBetween(ps[1..], Fragment(ps[0], n + 1, s, n).1, n, e);
    }
  }

  lemma {:induction false} AltBetween(ps: seq<Pat>, n: nat, s: nat, e: nat)
    ensures Between(AltFragment(ps, n, s, e).0, n, AltFragment(ps, n, s, e).1, s, e)
    decreases ps, 0
  {
    if ps != [] {
      FragmentBetween(ps[0], n, s, e);
      AltBetween(ps[1..], Fragment(ps[0], n, s, e).1, s, e);
    }
  }

  /** Two fragments sharing only their end states: a path uses one of them. */
  lemma {:induction false} OneSide(ds: set<Trans>, us: set<Trans>, lo: nat, mid: nat, hi: nat, s: nat, e: nat,
                                   path: Path)
    requires s < lo <= mid <= hi && e < lo && s != e
    requires Between(ds, lo, mid, s, e) && Between(us, mid, hi, s, e)
    requires IsPath(ds + us, s, path, e)
    ensures IsPath(ds, s, path, e) || IsPath(us, s, path, e)
  {
    var ts := ds + us;
    var t, rest := path.t, path.rest;
    if t in ds {
      Stay(ts, ds, Range(lo, mid) + {e}, t.to, e, rest);
    } else {
      Stay(ts, us, Range(mid, hi) + {e}, t.to, e, rest);
    }
  }

  /** Two fragments in a row, joined at the state m: a path takes the first, then the second. */
  lemma {:induction false} TwoStages(ds: set<Trans>, us: set<Trans>, m: nat, mid: nat, hi: nat, s: nat, e: nat,
                                     path: Path)
    returns (p: Path, q: Path)
    requires s < m < mid <= hi && e < m && s != e
    requires Between(ds, m + 1, mid, s, m) && Between(us, mid, hi, m, e)
    requires IsPath(ds + us, s, path, e)
    ensures IsPath(ds, s, p, m) && IsPath(us, m, q, e)
    ensures WordOf(path) == WordOf(p) + WordOf(q) && q < path
  {
    p, q := Exit(ds + us, ds, Range(m + 1, mid) + {s}, m, s, e, path);
    Stay(ds + us, us, Range(mid, hi) + {m, e}, m, e, q);
  }

  /** Soundness: what a fragment reads is in the pattern's language. */
  lemma {:induction false} FragmentSound(p: Pat, n: nat, s: nat, e: nat, path: Path)
    requires s < n && e < n && s != e
    requires IsPath(Fragment(p, n, s, e).0, s, path, e)
    ensures Match(p, WordOf(path))
    decreases p, 1, path
  {
    var ds := Fragment(p, n, s, e).0;
    match p
    case Cat(cats) => assert path.rest.Done?;
    case Any => assert path.rest.Done?;
    case Seq(ps) =>
      if ps == [] {
        assert path.rest.Done?;
      } else {
        SeqSound(ps, n, s, e, path);
      }
    case Alt(ps) =>
      var i := AltSound(ps, n, s, e, path);
      assert Match(ps[i], WordOf(path));
    case Opt(q) =>
      var d := Fragment(q, n, s, e).0;
      FragmentBetween(q, n, s, e);
      OneSide(d, {Eps(s, e)}, n, Fragment(q, n, s, e).1, Fragment(q, n, s, e).1, s, e, path);
      if IsPath(d, s, path, e) {
        FragmentSound(q, n, s, e, path);
      } else {
        assert path.rest.Done?;
      }
    case Star(q) =>
      FragmentBetween(q, n + 2, n, n + 1);
      assert path.t == Eps(s, n);
      LoopSound(q, n, s, e, path.rest);
      assert WordOf(path) == WordOf(path.rest);
  }

  lemma {:induction false} SeqSound(ps: seq<Pat>, n: nat, s: nat, e: nat, path: Path)
    requires ps != [] && s < n && e < n && s != e
    requires IsPath(SeqFragment(ps, n, s, e).0, s, path, e)
    ensures SeqMatch(ps, WordOf(path))
    decreases ps, 0, path
  {
    var w := WordOf(path);
    if |ps| == 1 {
      FragmentSound(ps[0], n, s, e, path);
      assert w[..|w|] == w && w[|w|..] == [] && SeqMatch(ps[1..], []);
    } else {
      var (d, n') := Fragment(ps[0], n + 1, s, n);
      var (d', n'') := SeqFragment(ps[1..], n', n, e);
      FragmentBetween(ps[0], n + 1, s, n);
      SeqBetween(ps[1..], n', n, e);
      var p, q := TwoStages(d, d', n, n', n'', s, e, path);
      FragmentSound(ps[0], n + 1, s, n, p);
      SeqSound(ps[1..], n', n, e, q);
      var k := |WordOf(p)|;
      assert w[..k] == WordOf(p) && w[k..] == WordOf(q);
    }
  }

  lemma {:induction false} AltSound(ps: seq<Pat>, n: nat, s: nat, e: nat, path: Path) returns (i: nat)
    requires s < n && e < n && s != e
    requires IsPath(AltFragment(ps, n, s, e).0, s, path, e)
    ensures i < |ps| && Match(ps[i], WordOf(path))
    decreases ps, 0, path
  {
    var (d, n') := Fragment(ps[0], n, s, e);
    var (d', n'') := AltFragment(ps[1..], n', s, e);
    FragmentBetween(ps[0], n, s, e);
    AltBetween(ps[1..], n', s, e);
    OneSide(d, d', n, n', n'', s, e, path);
    if IsPath(d, s, path, e) {
      FragmentSound(ps[0], n, s, e, path);
      i := 0;
    } else {
      i := AltSound(ps[1..], n', s, e, path);
      i := i + 1;
    }
  }

  /** From the loop state n of a star: leave for e, or go once round through n + 1. */
  lemma {:induction false} OnceRound(d: set<Trans>, n: nat, hi: nat, s: nat, e: nat, path: Path)
    returns (p: Path, q: Path)
    requires s < n && e < n && n + 2 <= hi && Between(d, n + 2, hi, n, n + 1)
    requires IsPath(d + {Eps(s, n), Eps(n + 1, n), Eps(n, e)}, n, path, e) && path.t != Eps(n, e)
    ensures IsPath(d, n, p, n + 1) && IsPath(d + {Eps(s, n), Eps(n + 1, n), Eps(n, e)}, n, q, e)
    ensures WordOf(path) == WordOf(p) + WordOf(q) && q < path
  {
    var ts := d + {Eps(s, n), Eps(n + 1, n), Eps(n, e)};
    var Step(t, c, rest) := path;
    if t.to == n + 1 {
      p, q := Step(t, c, Done), rest;
    } else {
      p, q := Exit(ts, d, Range(n + 2, hi), n + 1, t.to, e, rest);
      p := Step(t, c, p);
    }
    assert q.t == Eps(n + 1, n);
    q := q.rest;
  }

  /** From the loop state of a star to its end state. */
  lemma {:induction false} LoopSound(q: Pat, n: nat, s: nat, e: nat, path: Path)
    requires s < n && e < n && s != e
    requires Between(Fragment(q, n + 2, n, n + 1).0, n + 2, Fragment(q, n + 2, n, n + 1).1, n, n + 1)
    requires IsPath(Fragment(Star(q), n, s, e).0, n, path, e)
    ensures StarMatch(q, WordOf(path))
    decreases q, 2, path
  {
    var (d, n') := Fragment(q, n + 2, n, n + 1);
    if path.t == Eps(n, e) {
      assert path.rest.Done?;
    } else {
      var a, b := OnceRound(d, n, n', s, e, path);
      FragmentSound(q, n + 2, n, n + 1, a);
      LoopSound(q, n, s, e, b);
      var w, k := WordOf(path), |WordOf(a)|;
      assert w[..k] == WordOf(a) && w[k..] == WordOf(b);
    }
  }

  /** Completeness: the fragment reads every word of the pattern's language. */
  lemma {:induction false} FragmentComplete(p: Pat, n: nat, s: nat, e: nat, w: Word) returns (path: Path)
    requires Match(p, w)
    ensures IsPath(Fragment(p, n, s, e).0, s, path, e) && WordOf(path) == w
    decreases p, 1, |w|
  {
    match p
    case Cat(cats) => path := Step(Edge(s, OneOf(cats), e), w[0], Done);
    case Any => path := Step(Edge(s, AnyCat, e), w[0], Done);
    case Seq(ps) =>
      if ps == [] {
        path := Step(Eps(s, e), 0, Done);
      } else {
        path := SeqComplete(ps, n, s, e, w);
      }
    case Alt(ps) =>
      var i :| 0 <= i < |ps| && Match(ps[i], w);
      path := AltComplete(ps, n, s, e, w, i);
    case Opt(q) =>
      if w == [] {
        path := Step(Eps(s, e), 0, Done);
      } else {
        path := FragmentComplete(q, n, s, e, w);
        MorePaths(Fragment(q, n, s, e).0, Fragment(p, n, s, e).0, s, path, e);
      }
    case Star(q) =>
      path := LoopComplete(q, n, s, e, w);
      path := Step(Eps(s, n), 0, path);
  }

  lemma {:induction false} SeqComplete(ps: seq<Pat>, n: nat, s: nat, e: nat, w: Word) returns (path: Path)
    requires ps != [] && SeqMatch(ps, w)
    ensures IsPath(SeqFragment(ps, n, s, e).0, s, path, e) && WordOf(path) == w
    decreases ps, 0, |w|
  {
    var k :| 0 <= k <= |w| && Match(ps[0], w[..k]) && SeqMatch(ps[1..], w[k..]);
    assert w[..k] + w[k..] == w;
    if |ps| == 1 {
      assert w[..k] == w;
      path := FragmentComplete(ps[0], n, s, e, w);
    } else {
      var (d, n') := Fragment(ps[0], n + 1, s, n);
      var d' := SeqFragment(ps[1..], n', n, e).0;
      var p := FragmentComplete(ps[0], n + 1, s, n, w[..k]);
      var q := SeqComplete(ps[1..], n', n, e, w[k..]);
      MorePaths(d, d + d', s, p, n);
      MorePaths(d', d + d', n, q, e);
      JoinIsPath(d + d', s, p, n, q, e);
      path := Join(p, q);
    }
  }

  lemma {:induction false} AltComplete(ps: seq<Pat>, n: nat, s: nat, e: nat, w: Word, i: nat) returns (path: Path)
    requires i < |ps| && Match(ps[i], w)
    ensures IsPath(AltFragment(ps, n, s, e).0, s, path, e) && WordOf(path) == w
    decreases ps, 0, |w|
  {
    var (d, n') := Fragment(ps[0], n, s, e);
    var d' := AltFragment(ps[1..], n', s, e).0;
    if i == 0 {
      path := FragmentComplete(ps[0], n, s, e, w);
      MorePaths(d, d + d', s, path, e);
    } else {
      path := AltComplete(ps[1..], n', s, e, w, i - 1);
      MorePaths(d', d + d', s, path, e);
    }
  }

  lemma {:induction false} LoopComplete(q: Pat, n: nat, s: nat, e: nat, w: Word) returns (path: Path)
    requires StarMatch(q, w)
    ensures IsPath(Fragment(Star(q), n, s, e).0, n, path, e) && WordOf(path) == w
    decreases q, 2, |w|
  {
    var ts := Fragment(Star(q), n, s, e).0;
    if w == [] {
      path := Step(Eps(n, e), 0, Done);
    } else {
      var k :| 0 < k <= |w| && Match(q, w[..k]) && StarMatch(q, w[k..]);
      assert w[..k] + w[k..] == w;
      var a := FragmentComplete(q, n + 2, n, n + 1, w[..k]);
      var b := LoopComplete(q, n, s, e, w[k..]);
      MorePaths(Fragment(q, n + 2, n, n + 1).0, ts, n, a, n + 1);
      path := Join(a, Step(Eps(n + 1, n), 0, b));
      JoinIsPath(ts, n, a, n + 1, Step(Eps(n + 1, n), 0, b), e);
    }
  }
}
