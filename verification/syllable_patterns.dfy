/** Syllable patterns and the languages of category words they denote: what the
    combinators cat, seq, alt, opt, star and ANY of lib/ufont/tools/syllable.py mean,
    said without any automaton. */
module Patterns {

  type Word = seq<int>

  datatype Pat =
    | Cat(cats: set<int>)
    | Any
    | Seq(ps: seq<Pat>)
    | Alt(ps: seq<Pat>)
    | Opt(p: Pat)
    | Star(p: Pat)

  /** One entry of a grammar: a pattern and the type of the syllables it makes. */
  datatype Rule = Rule(p: Pat, typ: int)

  /** w is in the language of p. */
  ghost predicate Match(p: Pat, w: Word)
    decreases p, 0, 0
  {
    match p
    case Cat(cats) => |w| == 1 && w[0] in cats
    case Any => |w| == 1
    case Seq(ps) => SeqMatch(ps, w)
    case Alt(ps) => exists i :: 0 <= i < |ps| && Match(ps[i], w)
    case Opt(q) => w == [] || Match(q, w)
    case Star(q) => StarMatch(q, w)
  }

  ghost predicate SeqMatch(ps: seq<Pat>, w: Word)
    decreases ps, 0, 0
  {
    if ps == [] then w == []
    else exists k :: 0 <= k <= |w| && Match(ps[0], w[..k]) && SeqMatch(ps[1..], w[k..])
  }

  ghost predicate StarMatch(p: Pat, w: Word)
    decreases p, 1, |w|
  {
    w == [] || exists k :: 0 < k <= |w| && Match(p, w[..k]) && StarMatch(p, w[k..])
  }

  /** The categories a pattern names. */
  function Used(p: Pat): set<int>
    decreases p
  {
    match p
    case Cat(cats) => cats
    case Any => {}
    case Seq(ps) => UsedAll(ps)
    case Alt(ps) => UsedAll(ps)
    case Opt(q) => Used(q)
    case Star(q) => Used(q)
  }

  function UsedAll(ps: seq<Pat>): set<int>
    decreases ps
  {
    if ps == [] then {} else Used(ps[0]) + UsedAll(ps[1..])
  }

  /** The rank of the first rule of g whose language holds w, or |g| when none does. */
  ghost function FirstRank(g: seq<Rule>, w: Word): (r: nat)
    ensures r <= |g|
    ensures r < |g| ==> Match(g[r].p, w)
    ensures forall k :: 0 <= k < r ==> !Match(g[k].p, w)
  {
    if g == [] then 0
    else if Match(g[0].p, w) then 0
    else 1 + FirstRank(g[1..], w)
  }

  /** The type a grammar gives a word: that of the first rule it matches, or -1. */
  ghost function TypeOf(g: seq<Rule>, w: Word): int {
    var r := FirstRank(g, w);
    if r < |g| then g[r].typ else -1
  }
}
