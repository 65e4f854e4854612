/** The stretching of Syriac abbreviation marks (stch; ArabicShaper.postprocess of
    lib/ufont/tools/arabic.py): tiles are repeated to cover the word before them, in a pass that
    measures and one that cuts. */
module Stretch {

  /** A tile that is there once, one that is repeated, a glyph of a word, or any other. */
  datatype Kind = Fixed | Repeating | Word | Other

  /** A glyph in visual order: its width in the font, its advance and its horizontal offset, and
      everything else there is of it. */
  datatype Glyph<+T> = Glyph(kind: Kind, width: int, xa: int, xo: int, rest: T)

  predicate IsTile(k: Kind) { k.Fixed? || k.Repeating? }

  // ------------------------------------------------------------------ how much to repeat

  /** How many more copies there are of each repeated tile, by how much each of them overlaps, and
      the width that stays uncovered. */
  datatype Plan = Plan(copies: nat, overlap: nat, rest: int)

  lemma QuotientFacts(a: int, b: int)
    requires b > 0
    ensures a / b * b <= a < (a / b + 1) * b
    ensures a >= 0 ==> a / b >= 0
    ensures a >= b ==> a / b >= 1
  {
    if a / b + 1 <= 1 {
      Grows(a / b + 1, 1, b);
    }
    if a / b + 1 <= 0 {
      Grows(a / b + 1, 0, b);
    }
  }

  lemma Grows(x: int, y: int, b: int)
    requires b > 0 && x <= y
    ensures x * b <= y * b
  {
  }

  /** Whole copies as long as they fit; then, if some width is left, one more, with all the copies
      squeezed by what is too much. */
  function PlanFor(total: int, fixed: int, repeating: int, n: nat): Plan {
    var remaining := total - fixed;
    var whole: nat := if remaining > repeating > 0
      then (QuotientFacts(remaining, repeating); remaining / repeating - 1) else 0;
    var shortfall := remaining - repeating * (whole + 1);
    if shortfall > 0 && n > 0 then
      var copies := whole + 1;
      var excess := (copies + 1) * repeating - remaining;
      if excess > 0 then
        Positive(copies, n);
        QuotientFacts(excess, copies * n);
        Plan(copies, excess / (copies * n), 0)
      else Plan(copies, 0, remaining)
    else Plan(whole, 0, remaining)
  }

  lemma Positive(a: nat, b: nat)
    requires a > 0 && b > 0
    ensures a * b > 0
  {
  }

  /** The width that the tiles have in the end. */
  function Covered(p: Plan, fixed: int, repeating: int, n: nat): int {
    fixed + (p.copies + 1) * repeating - p.overlap * (p.copies * n)
  }

  /** When repeated tiles are wider than nothing and the word is wider than the tiles, the tiles
      cover the word, with less than one unit too much for each copy; and one copy less of each
      would not cover it. */
  lemma CoversWord(total: int, fixed: int, repeating: int, n: nat)
    requires repeating > 0 && n > 0 && total - fixed > repeating
    ensures var p := PlanFor(total, fixed, repeating, n);
      && p.copies >= 1 && total <= Covered(p, fixed, repeating, n) < total + p.copies * n
      && fixed + p.copies * repeating < total
      && p.rest == if fixed + (p.copies + 1) * repeating > total then 0 else total - fixed
  {
    var remaining := total - fixed;
    QuotientFacts(remaining, repeating);
    var whole := remaining / repeating - 1;
    assert repeating * (whole + 1) == remaining / repeating * repeating;
    if remaining - repeating * (whole + 1) > 0 {
      var copies := whole + 1;
      assert (copies + 1) * repeating == (remaining / repeating + 1) * repeating;
      Positive(copies, n);
      QuotientFacts((copies + 1) * repeating - remaining, copies * n);
      AddOne((((copies + 1) * repeating - remaining) / (copies * n)), copies * n);
    } else {
      Twice(remaining, repeating);
      Positive(whole, n);
    }
  }

  /** A word no wider than the tiles leaves them as they are; tiles that are no wider than nothing
      get one copy more if there are any and the word is wider. */
  lemma NothingToCover(total: int, fixed: int, repeating: int, n: nat)
    requires total - fixed <= repeating || repeating <= 0
    ensures PlanFor(total, fixed, repeating, n) ==
      Plan(if total - fixed > repeating && n > 0 then 1 else 0, 0, total - fixed)
  {
  }

  lemma AddOne(a: int, b: int)
    ensures (a + 1) * b == a * b + b
  {
  }

  /** A width over that of the tiles and a multiple of it is at least twice that. */
  lemma Twice(remaining: int, repeating: int)
    requires repeating > 0 && remaining > repeating && remaining == remaining / repeating * repeating
    ensures remaining / repeating >= 2
  {
    QuotientFacts(remaining, repeating);
    if remaining / repeating <= 1 {
      Grows(remaining / repeating, 1, repeating);
    }
  }

  // -------------------------------------------------------------------- runs of tiles

  /** Where the run of tiles that ends at i starts. */
  function TileStart<T>(gs: seq<Glyph<T>>, i: nat): (s: nat)
    requires i <= |gs|
    ensures s <= i && (i > 0 && IsTile(gs[i - 1].kind) ==> s < i)
  {
    if i > 0 && IsTile(gs[i - 1].kind) then TileStart(gs, i - 1) else i
  }

  /** The advances of the word that ends at i. */
  function WordWidth<T>(gs: seq<Glyph<T>>, i: nat): int
    requires i <= |gs|
  {
    if i > 0 && gs[i - 1].kind.Word? then WordWidth(gs, i - 1) + gs[i - 1].xa else 0
  }

  function Widths<T>(gs: seq<Glyph<T>>, s: nat, i: nat, kind: Kind): int
    requires s <= i <= |gs|
    decreases i
  {
    if s == i then 0 else Widths(gs, s, i - 1, kind) + if gs[i - 1].kind == kind then gs[i - 1].width else 0
  }

  function Repeats<T>(gs: seq<Glyph<T>>, s: nat, i: nat): (n: nat)
    requires s <= i <= |gs|
    decreases i
  {
    if s == i then 0 else Repeats(gs, s, i - 1) + if gs[i - 1].kind.Repeating? then 1 else 0
  }

  /** The plan of the run that ends at i. */
  function RunPlan<T>(gs: seq<Glyph<T>>, i: nat): Plan
    requires i <= |gs|
  {
    var s := TileStart(gs, i);
    PlanFor(WordWidth(gs, s), Widths(gs, s, i, Fixed), Widths(gs, s, i, Repeating), Repeats(gs, s, i))
  }

  /** How many glyphs there will be more than there are, of the first i. */
  function Extra<T>(gs: seq<Glyph<T>>, i: nat): nat
    requires i <= |gs|
    decreases i
  {
    if i == 0 then 0
    else if !IsTile(gs[i - 1].kind) then Extra(gs, i - 1)
    else Extra(gs, TileStart(gs, i)) + RunPlan(gs, i).copies * Repeats(gs, TileStart(gs, i), i)
  }

  // ------------------------------------------------------------------------ the cut

  /** Half, towards zero. */
  function Half(x: int): int { if x >= 0 then x / 2 else -(-x / 2) }

  lemma HalfIs(x: int)
    ensures x >= 0 ==> 2 * Half(x) <= x < 2 * Half(x) + 2
    ensures x < 0 ==> Half(x) == -Half(-x)
  {
  }

  /** How far the n-th copy of a tile is from the next: its width, less the overlap for a copy that
      is not the first. */
  function Advance<T>(g: Glyph<T>, n: nat, overlap: nat): int { g.width - if n > 0 then overlap else 0 }

  /** The copies n to m of a tile in visual order, from x on: each beside the one before it, to the
      left of it in a text from right to left. */
  function Placed<T>(g: Glyph<T>, x: int, n: nat, m: nat, overlap: nat, rtl: bool): (r: seq<Glyph<T>>)
    requires n <= m
    ensures |r| == m - n
    decreases m - n
  {
    if n == m then []
    else
      var step := Advance(g, n, overlap);
      Placed(g, if rtl then x - step else x + step, n + 1, m, overlap, rtl)
        + [g.(xa := 0, xo := if rtl then x - step else x)]
  }

  /** Each copy stands where the one before it ends, less the overlap of a copy that is not the
      first; the first of these stands at x, or ends there in a text from right to left. */
  lemma {:induction false} CopiesBeside<T>(g: Glyph<T>, x: int, n: nat, m: nat, overlap: nat, rtl: bool, k: nat)
    requires k < m - n
    ensures var r, c := Placed(g, x, n, m, overlap, rtl), m - 1 - k;
      && r[k] == g.(xa := 0, xo := r[k].xo)
      && (k + 1 < |r| ==>
        if rtl then r[k].xo + g.width == r[k + 1].xo + overlap
        else r[k].xo == r[k + 1].xo + g.width - if c > 1 then overlap else 0)
      && (k + 1 == |r| ==>
        if rtl then r[k].xo + g.width == x + (if n > 0 then overlap else 0) else r[k].xo == x)
    decreases m - n
  {
    var step := Advance(g, n, overlap);
    var y := if rtl then x - step else x + step;
    if k + 1 < m - n {
      CopiesBeside(g, y, n + 1, m, overlap, rtl, k);
      var rest := Placed(g, y, n + 1, m, overlap, rtl);
      assert Placed(g, x, n, m, overlap, rtl)[..m - n - 1] == rest;
    }
  }

  /** How far the copies n to m reach. */
  function Reach<T>(g: Glyph<T>, n: nat, m: nat, overlap: nat): int
    requires n <= m
    decreases m - n
  {
    if n == m then 0 else Advance(g, n, overlap) + Reach(g, n + 1, m, overlap)
  }

  function Times<T>(g: Glyph<T>, copies: nat): nat { 1 + if g.kind.Repeating? then copies else 0 }

  /** The tiles s to k of a run, the last of them at x. */
  function CutRun<T>(gs: seq<Glyph<T>>, s: nat, k: nat, x: int, p: Plan, rtl: bool): seq<Glyph<T>>
    requires s <= k <= |gs|
    decreases k
  {
    if k == s then []
    else
      var g := gs[k - 1];
      var m := Times(g, p.copies);
      var reach := Reach(g, 0, m, p.overlap);
      CutRun(gs, s, k - 1, if rtl then x - reach else x + reach, p, rtl) + Placed(g, x, 0, m, p.overlap, rtl)
  }

  function RunReach<T>(gs: seq<Glyph<T>>, s: nat, k: nat, p: Plan): int
    requires s <= k <= |gs|
    decreases k
  {
    if k == s then 0 else RunReach(gs, s, k - 1, p) + Reach(gs[k - 1], 0, Times(gs[k - 1], p.copies), p.overlap)
  }

  /** The copies of tile t of a run come after those of the tiles before it, and start where all
      the tiles after it, which begin at x, have reached to. */
  lemma {:induction false} TileStands<T>(gs: seq<Glyph<T>>, s: nat, k: nat, x: int, p: Plan, rtl: bool, t: nat)
    requires s <= t < k <= |gs|
    ensures var lo, hi := RunLength(gs, s, t, p.copies), RunLength(gs, s, t + 1, p.copies);
      && lo <= hi <= |CutRun(gs, s, k, x, p, rtl)|
      && var after := RunReach(gs, s, k, p) - RunReach(gs, s, t + 1, p);
        CutRun(gs, s, k, x, p, rtl)[lo..hi] ==
        Placed(gs[t], if rtl then x - after else x + after, 0, Times(gs[t], p.copies), p.overlap, rtl)
    decreases k
  {
    hide Reach, Placed, Times;
    var g := gs[k - 1];
    var reach := Reach(g, 0, Times(g, p.copies), p.overlap);
    var y := if rtl then x - reach else x + reach;
    var c := CutRun(gs, s, k - 1, y, p, rtl);
    CutRunLength(gs, s, k - 1, y, p, rtl);
    if t < k - 1 {
      TileStands(gs, s, k - 1, y, p, rtl, t);
      var lo, hi := RunLength(gs, s, t, p.copies), RunLength(gs, s, t + 1, p.copies);
      assert CutRun(gs, s, k, x, p, rtl)[lo..hi] == c[lo..hi];
    }
  }

  /** The first i glyphs with their runs of tiles cut. */
  function Cut<T>(gs: seq<Glyph<T>>, i: nat, rtl: bool): seq<Glyph<T>>
    requires i <= |gs|
    decreases i
  {
    if i == 0 then []
    else if !IsTile(gs[i - 1].kind) then Cut(gs, i - 1, rtl) + [gs[i - 1]]
    else
      var s, p := TileStart(gs, i), RunPlan(gs, i);
      Cut(gs, s, rtl) + CutRun(gs, s, i, Half(p.rest), p, rtl)
  }

  /** The number of glyphs that the tiles s to k become. */
  function RunLength<T>(gs: seq<Glyph<T>>, s: nat, k: nat, copies: nat): (n: nat)
    requires s <= k <= |gs|
    decreases k
  {
    if k == s then 0 else RunLength(gs, s, k - 1, copies) + Times(gs[k - 1], copies)
  }

  lemma TimesOneMore(c: nat, r: nat)
    ensures c * (r + 1) == c * r + c
  {
  }

  lemma {:induction false} RunLengthIs<T>(gs: seq<Glyph<T>>, s: nat, k: nat, copies: nat)
    requires s <= k <= |gs|
    ensures RunLength(gs, s, k, copies) == k - s + copies * Repeats(gs, s, k)
    decreases k
  {
    if s < k {
      RunLengthIs(gs, s, k - 1, copies);
      TimesOneMore(copies, Repeats(gs, s, k - 1));
    }
  }

  lemma {:induction false} CutRunLength<T>(gs: seq<Glyph<T>>, s: nat, k: nat, x: int, p: Plan, rtl: bool)
    requires s <= k <= |gs|
    ensures |CutRun(gs, s, k, x, p, rtl)| == RunLength(gs, s, k, p.copies)
    decreases k
  {
    hide Reach, Placed;
    if s < k {
      var g := gs[k - 1];
      var reach := Reach(g, 0, Times(g, p.copies), p.overlap);
      CutRunLength(gs, s, k - 1, if rtl then x - reach else x + reach, p, rtl);
    }
  }

  /** The measured count is the count that the cut needs. */
  lemma {:induction false} CutLength<T>(gs: seq<Glyph<T>>, i: nat, rtl: bool)
    requires i <= |gs|
    ensures |Cut(gs, i, rtl)| == i + Extra(gs, i)
    decreases i
  {
    hide RunPlan;
    if i > 0 {
      if IsTile(gs[i - 1].kind) {
        var s, p := TileStart(gs, i), RunPlan(gs, i);
        CutLength(gs, s, rtl);
        CutRunLength(gs, s, i, Half(p.rest), p, rtl);
        RunLengthIs(gs, s, i, p.copies);
      } else {
        CutLength(gs, i - 1, rtl);
      }
    }
  }

  lemma {:induction false} ReachOfCopies<T>(g: Glyph<T>, n: nat, m: nat, overlap: nat)
    requires 1 <= n <= m
    ensures Reach(g, n, m, overlap) == (m - n) * (g.width - overlap)
    decreases m - n
  {
    if n < m {
      ReachOfCopies(g, n + 1, m, overlap);
      AddOne(m - n - 1, g.width - overlap);
    }
  }

  /** The tiles of a run reach as far as the plan says. */
  lemma {:induction false} RunReachIsCovered<T>(gs: seq<Glyph<T>>, s: nat, k: nat, p: Plan)
    requires s <= k <= |gs| && forall x :: s <= x < k ==> IsTile(gs[x].kind)
    ensures RunReach(gs, s, k, p) == Covered(p, Widths(gs, s, k, Fixed), Widths(gs, s, k, Repeating), Repeats(gs, s, k))
    decreases k
  {
    if s < k {
      RunReachIsCovered(gs, s, k - 1, p);
      var g := gs[k - 1];
      var fixed, repeating, n := Widths(gs, s, k - 1, Fixed), Widths(gs, s, k - 1, Repeating), Repeats(gs, s, k - 1);
      if g.kind.Repeating? {
        ReachOfCopies(g, 1, p.copies + 1, p.overlap);
        OneMoreRepeating(p, repeating, n, g.width);
      }
    }
  }

  lemma OneMoreRepeating(p: Plan, repeating: int, n: nat, w: int)
    ensures Covered(p, 0, repeating + w, n + 1) == Covered(p, 0, repeating, n) + w + p.copies * (w - p.overlap)
  {
    var c, o := p.copies, p.overlap;
    assert (c + 1) * (repeating + w) == (c + 1) * repeating + c * w + w;
    assert o * (c * (n + 1)) == o * (c * n) + c * o;
    assert c * (w - o) == c * w - c * o;
  }

  lemma {:induction false} TilesOnly<T>(gs: seq<Glyph<T>>, i: nat)
    requires i <= |gs|
    ensures forall x :: TileStart(gs, i) <= x < i ==> gs[x].kind.Fixed? || gs[x].kind.Repeating?
    ensures var s := TileStart(gs, i); s > 0 ==> !gs[s - 1].kind.Fixed? && !gs[s - 1].kind.Repeating?
  {
    if i > 0 && IsTile(gs[i - 1].kind) {
      TilesOnly(gs, i - 1);
    }
  }

  /** A run whose tiles are too narrow for the word before it, but repeat, covers the word, and
      reaches less than one unit farther for each copy. */
  lemma RunCoversWord<T>(gs: seq<Glyph<T>>, i: nat)
    requires i <= |gs|
    ensures var s := TileStart(gs, i);
      var fixed, repeating, n := Widths(gs, s, i, Fixed), Widths(gs, s, i, Repeating), Repeats(gs, s, i);
      repeating > 0 && n > 0 && WordWidth(gs, s) > fixed + repeating ==>
        WordWidth(gs, s) <= RunReach(gs, s, i, RunPlan(gs, i)) < WordWidth(gs, s) + RunPlan(gs, i).copies * n
  {
    hide PlanFor;
    var s := TileStart(gs, i);
    var fixed, repeating, n := Widths(gs, s, i, Fixed), Widths(gs, s, i, Repeating), Repeats(gs, s, i);
    TilesOnly(gs, i);
    RunReachIsCovered(gs, s, i, RunPlan(gs, i));
    if repeating > 0 && n > 0 && WordWidth(gs, s) > fixed + repeating {
      CoversWord(WordWidth(gs, s), fixed, repeating, n);
    }
  }

  // ---------------------------------------------------------------------- the passes

  /** What is found of the run of tiles that ends at i. */
  method MeasureRun<T>(a: array<Glyph<T>>, i: nat, ghost gs: seq<Glyph<T>>) returns (s: nat, p: Plan, n: nat)
    requires 0 < i <= a.Length == |gs| && a[..i] == gs[..i] && IsTile(gs[i - 1].kind)
    ensures s == TileStart(gs, i) && s < i && p == RunPlan(gs, i) && n == Repeats(gs, s, i)
  {
    hide PlanFor;
    var total, fixed, repeating := 0, 0, 0;
    s, n := i, 0;
    assert forall k :: 0 <= k < i ==> a[k] == a[..i][k] == gs[k];
    ghost var start := TileStart(gs, i);
    while s > 0 && IsTile(a[s - 1].kind)
      invariant s <= i && start <= s && TileStart(gs, s) == start
      invariant fixed + Widths(gs, start, s, Fixed) == Widths(gs, start, i, Fixed)
      invariant repeating + Widths(gs, start, s, Repeating) == Widths(gs, start, i, Repeating)
      invariant n + Repeats(gs, start, s) == Repeats(gs, start, i)
    {
      s := s - 1;
      if a[s].kind.Fixed? {
        fixed := fixed + a[s].width;
      } else {
        repeating, n := repeating + a[s].width, n + 1;
      }
    }
    var context := s;
    while context > 0 && a[context - 1].kind.Word?
      invariant context <= s && total + WordWidth(gs, context) == WordWidth(gs, s)
    {
      context := context - 1;
      total := total + a[context].xa;
    }
    p := PlanFor(total, fixed, repeating, n);
  }

  /** The first pass: how many glyphs there will be more. */
  method Measure<T>(a: array<Glyph<T>>) returns (extra: nat)
    ensures extra == Extra(a[..], a.Length)
  {
    hide RunPlan;
    var i: nat := a.Length;
    extra := 0;
    ghost var gs := a[..];
    while i > 0
      invariant i <= a.Length && extra + Extra(gs, i) == Extra(gs, a.Length)
    {
      if !IsTile(a[i - 1].kind) {
        i := i - 1;
      } else {
        assert a[..i] == gs[..i];
        var p, n;
        i, p, n := MeasureRun(a, i, gs);
        extra := extra + p.copies * n;
      }
    }
  }

  /** Puts the copies of one tile down, the last place first; j counts down to where they start. */
  method CutTile<T(0)>(a: array<Glyph<T>>, out: array<Glyph<T>>, k: nat, x0: int, j0: nat, times: nat, overlap: nat,
                   rtl: bool)
      returns (x: int, j: nat)
    requires k < a.Length && a != out && times <= j0 <= out.Length && times > 0
    modifies a, out
    ensures j == j0 - times && x == (var r := Reach(old(a[k]), 0, times, overlap); if rtl then x0 - r else x0 + r)
    ensures out[j..j0] == Placed(old(a[k]), x0, 0, times, overlap, rtl)
    ensures out[j0..] == old(out[j0..])
    ensures a[..k] == old(a[..k])
  {
    ghost var g, after := a[k], out[j0..];
    var width := a[k].width;
    x, j := x0, j0;
    a[k] := a[k].(xa := 0);
    for n := 0 to times
      invariant j == j0 - n && a[k].(xa := 0, xo := 0) == g.(xa := 0, xo := 0) && a[k].xa == 0
      invariant a[..k] == old(a[..k]) && out[j0..] == after
      invariant Placed(g, x0, 0, times, overlap, rtl) == Placed(g, x, n, times, overlap, rtl) + out[j..j0]
      invariant x + (if rtl then -Reach(g, n, times, overlap) else Reach(g, n, times, overlap))
             == x0 + (if rtl then -Reach(g, 0, times, overlap) else Reach(g, 0, times, overlap))
    {
      ghost var rest := out[j..j0];
      if rtl {
        x := x - width;
        if n > 0 {
          x := x + overlap;
        }
      }
      a[k] := a[k].(xo := x);
      j := j - 1;
      out[j] := a[k];
      assert out[j..j0] == [a[k]] + rest;
      if !rtl {
        x := x + width;
        if n > 0 {
          x := x - overlap;
        }
      }
    }
  }

  /** Puts the tiles of a run down. */
  method CutTiles<T(0)>(a: array<Glyph<T>>, out: array<Glyph<T>>, s: nat, e: nat, j0: nat, p: Plan, rtl: bool,
                    ghost gs: seq<Glyph<T>>)
      returns (j: nat)
    requires s <= e <= a.Length == |gs| && a != out && a[..e] == gs[..e]
      && RunLength(gs, s, e, p.copies) <= j0 <= out.Length
    modifies a, out
    ensures j == j0 - RunLength(gs, s, e, p.copies)
    ensures out[j..j0] == CutRun(gs, s, e, Half(p.rest), p, rtl)
    ensures out[j0..] == old(out[j0..]) && a[..s] == gs[..s]
  {
    hide Placed, Reach, Half;
    var x := Half(p.rest);
    var k: nat := e;
    j := j0;
    ghost var after := out[j0..];
    while k > s
      invariant s <= k <= e && RunLength(gs, s, k, p.copies) <= j <= j0
      invariant j - RunLength(gs, s, k, p.copies) == j0 - RunLength(gs, s, e, p.copies)
      invariant a[..k] == gs[..k] && out[j0..] == after
      invariant CutRun(gs, s, e, Half(p.rest), p, rtl) == CutRun(gs, s, k, x, p, rtl) + out[j..j0]
    {
      assert a[k - 1] == a[..k][k - 1] == gs[k - 1];
      ghost var was, before := j, out[..];
      x, j := CutTile(a, out, k - 1, x, j, Times(a[k - 1], p.copies), p.overlap, rtl);
      KeptTail(before, out[..], j, was, j0);
      assert a[..k - 1] == gs[..k][..k - 1] == gs[..k - 1];
      k := k - 1;
    }
  }

  /** What is put down before a place leaves what is after it. */
  lemma KeptTail<T>(s: seq<T>, r: seq<T>, j: nat, was: nat, end: nat)
    requires j <= was <= end <= |s| == |r| && r[was..] == s[was..]
    ensures r[j..end] == r[j..was] + s[was..end] && r[end..] == s[end..]
  {
    assert r[was..][..end - was] == r[was..end] && s[was..][..end - was] == s[was..end];
    assert r[was..][end - was..] == r[end..] && s[was..][end - was..] == s[end..];
  }

  /** The glyphs from i on are cut. */
  ghost predicate CutFrom<T>(gs: seq<Glyph<T>>, i: nat, rtl: bool, tail: seq<Glyph<T>>) {
    i <= |gs| && Cut(gs, |gs|, rtl) == Cut(gs, i, rtl) + tail
  }

  lemma CutOther<T>(gs: seq<Glyph<T>>, i: nat, rtl: bool, tail: seq<Glyph<T>>)
    requires CutFrom(gs, i, rtl, tail) && i > 0 && !IsTile(gs[i - 1].kind)
    ensures CutFrom(gs, i - 1, rtl, [gs[i - 1]] + tail) && |Cut(gs, i, rtl)| == |Cut(gs, i - 1, rtl)| + 1
  {
    assert Cut(gs, i - 1, rtl) + ([gs[i - 1]] + tail) == Cut(gs, i, rtl) + tail;
  }

  lemma CutOneRun<T>(gs: seq<Glyph<T>>, i: nat, rtl: bool, tail: seq<Glyph<T>>)
    requires CutFrom(gs, i, rtl, tail) && i > 0 && IsTile(gs[i - 1].kind)
    ensures var s, p := TileStart(gs, i), RunPlan(gs, i); var run := CutRun(gs, s, i, Half(p.rest), p, rtl);
      && CutFrom(gs, s, rtl, run + tail)
      && |run| == RunLength(gs, s, i, p.copies) && |Cut(gs, i, rtl)| == |Cut(gs, s, rtl)| + |run|
  {
    hide RunPlan, CutRun, Half, TileStart;
    var s, p := TileStart(gs, i), RunPlan(gs, i);
    var run := CutRun(gs, s, i, Half(p.rest), p, rtl);
    CutRunLength(gs, s, i, Half(p.rest), p, rtl);
    assert Cut(gs, s, rtl) + (run + tail) == Cut(gs, i, rtl) + tail;
  }

  lemma CutAtEnds<T>(gs: seq<Glyph<T>>, rtl: bool, tail: seq<Glyph<T>>)
    ensures CutFrom(gs, |gs|, rtl, []) && (CutFrom(gs, 0, rtl, tail) ==> tail == Cut(gs, |gs|, rtl))
    ensures |Cut(gs, 0, rtl)| == 0
  {
    assert Cut(gs, 0, rtl) + tail == tail;
  }

  /** The second pass: from the end, so that what is still to be measured again is as it was. Every
      place of the longer text is filled, from the last to the first. */
  method CutAll<T(0)>(a: array<Glyph<T>>, extra: nat, rtl: bool) returns (out: array<Glyph<T>>)
    requires extra == Extra(a[..], a.Length)
    modifies a
    ensures fresh(out) && out[..] == Cut(old(a[..]), a.Length, rtl)
  {
    hide RunPlan, CutRun, Half, Extra, Cut, CutFrom, RunLength, TileStart;
    ghost var gs := a[..];
    var count := a.Length;
    out := new Glyph<T>[count + extra];
    var j, i: nat := count + extra, count;
    CutLength(gs, count, rtl);
    CutAtEnds(gs, rtl, []);
    assert out[j..] == [];
    while i > 0
      invariant i <= count && a[..i] == gs[..i]
      invariant j == |Cut(gs, i, rtl)| <= out.Length && CutFrom(gs, i, rtl, out[j..])
    {
      assert a[i - 1] == a[..i][i - 1] == gs[i - 1];
      ghost var tail := out[j..];
      if !IsTile(a[i - 1].kind) {
        CutOther(gs, i, rtl, tail);
        j := j - 1;
        out[j] := a[i - 1];
        assert out[j..] == [gs[i - 1]] + tail;
        i := i - 1;
        assert a[..i] == gs[..i + 1][..i] == gs[..i];
      } else {
        CutOneRun(gs, i, rtl, tail);
        var s, p, n := MeasureRun(a, i, gs);
        ghost var was := j;
        j := CutTiles(a, out, s, i, j, p, rtl, gs);
        assert out[j..] == out[j..was] + tail;
        i := s;
      }
    }
    CutAtEnds(gs, rtl, out[j..]);
    assert out[..] == out[0..];
  }

  function Reversed<T>(s: seq<T>): (r: seq<T>)
    ensures |r| == |s| && forall k :: 0 <= k < |s| ==> r[k] == s[|s| - 1 - k]
  {
    seq(|s|, k requires 0 <= k < |s| => s[|s| - 1 - k])
  }

  /** The text stretched, in visual order meanwhile; as it was when it would get too long. */
  method Postprocess<T(0)>(glyphs: seq<Glyph<T>>, rtl: bool, maxLength: nat) returns (r: seq<Glyph<T>>)
    ensures var v := if rtl then glyphs else Reversed(glyphs);
      if |v| + Extra(v, |v|) > maxLength then r == glyphs
      else r == if rtl then Cut(v, |v|, rtl) else Reversed(Cut(v, |v|, rtl))
  {
    hide Cut, Extra;
    var v := if rtl then glyphs else Reversed(glyphs);
    var a := new Glyph<T>[|v|](k requires 0 <= k < |v| => v[k]);
    assert a[..] == v;
    var extra := Measure(a);
    if |v| + extra > maxLength {
      return glyphs;
    }
    var out := CutAll(a, extra, rtl);
    r := if rtl then out[..] else Reversed(out[..]);
  }
}
