/** The body of an icon (lib/ugfx/tools/uic.py): coordinates quantised with as many fraction bits
    as fit, written as commands and read back. */
module UicBody {
  import opened Wrappers
  import opened UicBytes

  // ---------------------------------------------------------------------- quantising

  /** To the nearest whole number, to the even one of two that are equally near. */
  function Round(x: real): int {
    var f := x.Floor;
    var d := x - f as real;
    if d < 0.5 then f else if d > 0.5 then f + 1 else if f % 2 == 0 then f else f + 1
  }

  /** q is nearest to x, and even if another whole number is as near. */
  ghost predicate Nearest(x: real, q: int) {
    var d := x - q as real;
    -1.0 <= 2.0 * d <= 1.0 && (2.0 * d == 1.0 || 2.0 * d == -1.0 ==> q % 2 == 0)
  }

  /** There is one such number, the rounded one. */
  lemma RoundIsNearest(x: real, q: int)
    ensures q == Round(x) <==> Nearest(x, q)
  {
    var f := x.Floor;
    var d := x - f as real;
    assert 0.0 <= d < 1.0;
    if q < f {
      assert x - q as real >= 1.0 + d;
    } else if q > f + 1 {
      assert x - q as real <= d - 2.0;
    } else if q == f {
      assert x - q as real == d;
    } else {
      assert q == f + 1 && x - q as real == d - 1.0;
    }
  }

  lemma RoundMonotone(x: real, y: real)
    requires x <= y
    ensures Round(x) <= Round(y)
  {
    assert x.Floor <= y.Floor;
  }

  lemma RoundZero()
    ensures Round(0.0) == 0
  {
  }

  lemma RoundOdd(x: real)
    ensures Round(-x) == -Round(x)
  {
    var f := x.Floor;
    if x == f as real {
      assert (-x).Floor == -f;
    } else {
      assert (-x).Floor == -f - 1;
    }
  }

  function Scale(f: nat): (s: int)
    ensures s >= 1
  {
    if f == 0 then 1 else 2 * Scale(f - 1)
  }

  function Times(a: real, b: real): real { a * b }

  function Scaled(v: real, f: nat): int { Round(Times(v, Scale(f) as real)) }

  const TOP: int := 32767

  /** A coordinate with f fraction bits; none when it does not fit 16 bits. */
  function Quantise(v: real, f: nat): Option<int> {
    var q := Scaled(v, f);
    if -32768 <= q <= TOP then Some(q) else None
  }

  /** q stands for v with f fraction bits: it fits 16 bits and is nearest to v * 2^f. */
  ghost predicate StandsFor(q: int, v: real, f: nat) {
    InRange(q) && Nearest(Times(v, Scale(f) as real), q)
  }

  lemma QuantiseNearest(v: real, f: nat, q: int)
    ensures Quantise(v, f) == Some(q) <==> StandsFor(q, v, f)
    ensures Quantise(v, f).Some? <==> StandsFor(Scaled(v, f), v, f)
  {
    hide Round, Nearest, Times;
    RoundIsNearest(Times(v, Scale(f) as real), q);
    RoundIsNearest(Times(v, Scale(f) as real), Scaled(v, f));
  }

  /** The scale is the f-th power of 2. */
  lemma {:induction false} ScaleIsPower(f: nat, g: nat)
    ensures Scale(0) == 1 && Scale(1) == 2 && Scale(f + g) == Scale(f) * Scale(g)
  {
    if f > 0 {
      ScaleIsPower(f - 1, g);
    }
  }

  function Abs(v: real): real { if v < 0.0 then -v else v }

  lemma ScaleMonotone(v: real, f: nat, g: nat)
    requires 0.0 <= v && f <= g
    ensures 0 <= Scaled(v, f) <= Scaled(v, g)
  {
    hide Round, Times;
    ScaleGrows(f, g);
    TimesMonotone(v, v, Scale(f) as real, Scale(g) as real);
    RoundMonotone(Times(v, Scale(f) as real), Times(v, Scale(g) as real));
    RoundMonotone(0.0, Times(v, Scale(f) as real));
    RoundZero();
  }

  lemma {:induction false} ScaleGrows(f: nat, g: nat)
    requires f <= g
    ensures Scale(f) <= Scale(g)
    decreases g
  {
    if f < g {
      ScaleGrows(f, g - 1);
    }
  }

  lemma TimesMonotone(a: real, b: real, s: real, t: real)
    requires 0.0 <= a <= b && 0.0 <= s <= t
    ensures 0.0 <= Times(a, s) <= Times(b, t)
  {
    assert a * s <= b * s by { assert (b - a) * s >= 0.0; }
    assert b * s <= b * t by { assert b * (t - s) >= 0.0; }
  }

  lemma ScaledMonotone(a: real, b: real, f: nat)
    requires 0.0 <= a <= b
    ensures 0 <= Scaled(a, f) <= Scaled(b, f)
  {
    hide Round, Times;
    var s := Scale(f) as real;
    TimesMonotone(a, b, s, s);
    RoundMonotone(Times(a, s), Times(b, s));
    RoundMonotone(0.0, Times(a, s));
    RoundZero();
  }

  lemma ScaledOdd(v: real, f: nat)
    ensures Scaled(-v, f) == -Scaled(v, f)
  {
    hide Round;
    assert Times(-v, Scale(f) as real) == -Times(v, Scale(f) as real);
    RoundOdd(Times(v, Scale(f) as real));
  }

  // ------------------------------------------------------------------------ commands

  datatype Op = Move | Line | Quad | Cubic

  type Nibble = x: int | 0 <= x < 16

  /** A command with coordinates of type N. */
  datatype Command<+N> =
    | Path(op: Op, at: seq<N>)
    | Close
    | Fill(slot: Byte, rule: Byte)
    | Stroke(slot: Byte, join: Nibble, cap: Nibble, width: N)
    | Opacity(alpha: Byte)

  function Coords(op: Op): nat {
    match op case Move => 2 case Line => 2 case Quad => 4 case Cubic => 6
  }

  function Code(op: Op): Byte {
    match op case Move => 1 case Line => 2 case Quad => 3 case Cubic => 4
  }

  const END: Byte := 0
  const CLOSE: Byte := 5
  const FILL: Byte := 16
  const STROKE: Byte := 17
  const OPACITY: Byte := 32

  function QuantiseAll(vs: seq<real>, f: nat): Option<seq<int>> {
    if vs == [] then Some([])
    else
      match (QuantiseAll(vs[..|vs| - 1], f), Quantise(vs[|vs| - 1], f))
      case (Some(qs), Some(q)) => Some(qs + [q])
      case _ => None
  }

  /** A command with its coordinates quantised; none when one does not fit, or when there are not
      as many as the command has. */
  function Quantised(c: Command<real>, f: nat): Option<Command<int>> {
    match c
    case Path(op, at) =>
      (match QuantiseAll(at, f)
       case None => None
       case Some(qs) => if |qs| == Coords(op) then Some(Path(op, qs)) else None)
    case Close => Some(Close)
    case Fill(slot, rule) => Some(Fill(slot, rule))
    case Stroke(slot, join, cap, width) =>
      (match Quantise(width, f)
       case None => None
       case Some(q) => Some(Stroke(slot, join, cap, q)))
    case Opacity(alpha) => Some(Opacity(alpha))
  }

  /** d is command c with each coordinate quantised, and nothing else changed. */
  ghost predicate CommandStandsFor(d: Command<int>, c: Command<real>, f: nat) {
    match c
    case Path(op, at) =>
      && d.Path? && d.op == op && |d.at| == |at| == Coords(op)
      && forall k :: 0 <= k < |at| ==> StandsFor(d.at[k], at[k], f)
    case Close => d.Close?
    case Fill(slot, rule) => d == Fill(slot, rule)
    case Stroke(slot, join, cap, width) => d.Stroke? && d == Stroke(slot, join, cap, d.width)
                                           && StandsFor(d.width, width, f)
    case Opacity(alpha) => d == Opacity(alpha)
  }

  lemma {:induction false} QuantiseAllNearest(vs: seq<real>, f: nat, qs: seq<int>)
    ensures QuantiseAll(vs, f) == Some(qs) <==> |qs| == |vs| && forall k :: 0 <= k < |vs| ==> StandsFor(qs[k], vs[k], f)
    decreases |vs|
  {
    hide Quantise, StandsFor;
    if vs != [] {
      var n := |vs| - 1;
      if |qs| == |vs| {
        assert qs == qs[..n] + [qs[n]];
        QuantiseAllNearest(vs[..n], f, qs[..n]);
        QuantiseNearest(vs[n], f, qs[n]);
      } else if QuantiseAll(vs, f).Some? {
        QuantiseAllNearest(vs[..n], f, QuantiseAll(vs[..n], f).value);
      }
    }
  }

  /** There is one such command, the quantised one. */
  lemma QuantisedNearest(c: Command<real>, f: nat, d: Command<int>)
    ensures Quantised(c, f) == Some(d) <==> CommandStandsFor(d, c, f)
  {
    hide Quantise, QuantiseAll, StandsFor;
    if c.Path? {
      if d.Path? {
        QuantiseAllNearest(c.at, f, d.at);
      }
      if QuantiseAll(c.at, f).Some? {
        QuantiseAllNearest(c.at, f, QuantiseAll(c.at, f).value);
      }
    } else if c.Stroke? && d.Stroke? {
      QuantiseNearest(c.width, f, d.width);
    }
  }

  // -------------------------------------------------------------- the fraction bits

  function MaxOf(m: real, vs: seq<real>): real {
    if vs == [] then m
    else
      var r := MaxOf(m, vs[..|vs| - 1]);
      if r < Abs(vs[|vs| - 1]) then Abs(vs[|vs| - 1]) else r
  }

  lemma {:induction false} MaxOfFacts(m: real, vs: seq<real>)
    ensures m <= MaxOf(m, vs) && forall k :: 0 <= k < |vs| ==> Abs(vs[k]) <= MaxOf(m, vs)
    ensures MaxOf(m, vs) == m || exists k :: 0 <= k < |vs| && Abs(vs[k]) == MaxOf(m, vs)
  {
    if vs != [] {
      MaxOfFacts(m, vs[..|vs| - 1]);
    }
  }

  function Numbers(c: Command<real>): seq<real> {
    if c.Path? then c.at else if c.Stroke? then [c.width] else []
  }

  /** All coordinates and widths. */
  function AllNumbers(cs: seq<Command<real>>): seq<real> {
    if cs == [] then [] else AllNumbers(cs[..|cs| - 1]) + Numbers(cs[|cs| - 1])
  }

  /** f fraction bits are enough for how far from 0 every coordinate is, which is what is asked. */
  ghost predicate AllFit(cs: seq<Command<real>>, f: nat) {
    forall k :: 0 <= k < |AllNumbers(cs)| ==> Scaled(Abs(AllNumbers(cs)[k]), f) <= TOP
  }

  /** f is the largest number of fraction bits up to 14 with which everything fits; 0 when none is. */
  ghost predicate Largest(cs: seq<Command<real>>, f: nat) {
    f <= 14 && (forall g :: f < g <= 14 ==> !AllFit(cs, g)) && (f > 0 ==> AllFit(cs, f))
  }

  method FractionBits(cs: seq<Command<real>>) returns (f: nat)
    ensures Largest(cs, f)
  {
    hide Scaled, MaxOf, AllNumbers, Numbers, AllFit;
    var m := 0.0;
    NumbersSoFar(cs, 0);
    for k := 0 to |cs|
      invariant m == MaxOf(0.0, AllNumbers(cs[..k]))
    {
      NumbersSoFar(cs, k);
      MaxOfBoth(0.0, AllNumbers(cs[..k]), Numbers(cs[k]));
      m := MaxOf(m, Numbers(cs[k]));
    }
    assert cs[..|cs|] == cs;
    f := 14;
    while f > 0 && Scaled(m, f) > TOP
      invariant f <= 14 && forall g :: f < g <= 14 ==> !AllFit(cs, g)
    {
      MaxDecides(cs, m, f);
      f := f - 1;
    }
    MaxDecides(cs, m, f);
  }

  lemma NumbersSoFar(cs: seq<Command<real>>, k: nat)
    requires k <= |cs|
    ensures k == 0 ==> MaxOf(0.0, AllNumbers(cs[..k])) == 0.0
    ensures k < |cs| ==> AllNumbers(cs[..k + 1]) == AllNumbers(cs[..k]) + Numbers(cs[k])
  {
    if k < |cs| {
      assert cs[..k + 1][..k] == cs[..k];
    }
  }

  lemma {:induction false} MaxOfBoth(m: real, a: seq<real>, b: seq<real>)
    ensures MaxOf(m, a + b) == MaxOf(MaxOf(m, a), b)
    decreases |b|
  {
    if b == [] {
      assert a + b == a;
    } else {
      assert (a + b)[..|a + b| - 1] == a + b[..|b| - 1];
      MaxOfBoth(m, a, b[..|b| - 1]);
    }
  }

  /** Everything fits exactly when the largest of all does. */
  lemma MaxDecides(cs: seq<Command<real>>, m: real, f: nat)
    requires m == MaxOf(0.0, AllNumbers(cs))
    ensures AllFit(cs, f) <==> Scaled(m, f) <= TOP
  {
    hide Round, Scale, MaxOf, AllNumbers;
    hide Scaled;
    var vs := AllNumbers(cs);
    MaxOfFacts(0.0, vs);
    if Scaled(m, f) <= TOP {
      forall k | 0 <= k < |vs| ensures Scaled(Abs(vs[k]), f) <= TOP {
        ScaledMonotone(Abs(vs[k]), m, f);
      }
    } else {
      ScaledZero(f);
    }
  }

  lemma ScaledZero(f: nat)
    ensures Scaled(0.0, f) == 0
  {
    assert Times(0.0, Scale(f) as real) == 0.0;
    RoundZero();
  }

  /** Whenever some number of fraction bits fits, fewer do. */
  lemma FewerFit(cs: seq<Command<real>>, f: nat, g: nat)
    requires f <= g && AllFit(cs, g)
    ensures AllFit(cs, f)
  {
    hide Scaled, AllNumbers;
    var vs := AllNumbers(cs);
    forall k | 0 <= k < |vs| ensures Scaled(Abs(vs[k]), f) <= TOP {
      ScaleMonotone(Abs(vs[k]), f, g);
    }
  }

  // ------------------------------------------------------------ what is written

  /** Every coordinate can be written with f fraction bits. */
  ghost predicate AllQuantise(cs: seq<Command<real>>, f: nat) {
    forall k :: 0 <= k < |AllNumbers(cs)| ==> Quantise(AllNumbers(cs)[k], f).Some?
  }

  /** Some coordinate would be the lowest number that 16 bits hold. */
  ghost predicate Lowest(cs: seq<Command<real>>, f: nat) {
    exists k :: 0 <= k < |AllNumbers(cs)| && Scaled(AllNumbers(cs)[k], f) == -TOP - 1
  }

  /** What is asked of f is that everything can be written and nothing as the lowest number. */
  lemma FitsUnlessLowest(cs: seq<Command<real>>, f: nat)
    ensures AllFit(cs, f) <==> AllQuantise(cs, f) && !Lowest(cs, f)
  {
    hide Scaled, AllNumbers;
    var vs := AllNumbers(cs);
    forall k | 0 <= k < |vs|
      ensures Scaled(Abs(vs[k]), f) <= TOP <==> Quantise(vs[k], f).Some? && Scaled(vs[k], f) != -TOP - 1
    {
      ScaledOdd(Abs(vs[k]), f);
      ScaledMonotone(0.0, Abs(vs[k]), f);
    }
  }

  /** The number chosen is the largest with which everything can be written just when no number
      from 1 to 14 lets everything be written and something as the lowest number. */
  lemma LargestWritable(cs: seq<Command<real>>, f: nat)
    requires Largest(cs, f)
    ensures (forall g :: f < g <= 14 ==> !AllQuantise(cs, g))
            <==> (forall g :: 1 <= g <= 14 ==> !(AllQuantise(cs, g) && Lowest(cs, g)))
  {
    hide AllFit, AllQuantise, Lowest;
    forall g | 1 <= g <= 14
      ensures g <= f ==> !(AllQuantise(cs, g) && Lowest(cs, g))
      ensures g > f ==> (AllQuantise(cs, g) ==> Lowest(cs, g))
    {
      FitsUnlessLowest(cs, g);
      if g <= f {
        FewerFit(cs, g, f);
      }
    }
  }

  /** One point at -2 can be written with 14 fraction bits; 13 are chosen. */
  lemma LowestIsPassedOver()
    ensures var cs := [Path(Move, [-2.0, 0.0])]; AllQuantise(cs, 14) && Largest(cs, 13)
  {
    var cs: seq<Command<real>> := [Path(Move, [-2.0, 0.0])];
    hide Scaled, Scale, AllNumbers, AllFit, AllQuantise, Lowest, Largest;
    PointNumbers([-2.0, 0.0]);
    TwiceScaled(13);
    TwiceScaled(14);
    Powers();
    PointQuantises(cs, 13);
    PointQuantises(cs, 14);
    FitsUnlessLowest(cs, 13);
    FitsUnlessLowest(cs, 14);
    LargestIs(cs, 13);
  }

  lemma PointNumbers(at: seq<real>)
    ensures AllNumbers([Path(Move, at)]) == at
  {
    var cs: seq<Command<real>> := [Path(Move, at)];
    assert cs[..0] == [];
    assert AllNumbers(cs) == [] + Numbers(cs[0]);
  }

  lemma PointQuantises(cs: seq<Command<real>>, f: nat)
    requires AllNumbers(cs) == [-2.0, 0.0] && Scaled(-2.0, f) == -2 * Scale(f) && Scaled(0.0, f) == 0
    requires 2 * Scale(f) <= TOP + 1
    ensures AllQuantise(cs, f) && (Lowest(cs, f) <==> 2 * Scale(f) == TOP + 1)
  {
    hide Scaled, AllNumbers, Scale;
    assert AllNumbers(cs)[0] == -2.0 && AllNumbers(cs)[1] == 0.0;
  }

  lemma LargestIs(cs: seq<Command<real>>, f: nat)
    requires 0 < f < 14 && AllFit(cs, f) && !AllFit(cs, f + 1)
    ensures Largest(cs, f)
  {
    hide AllFit;
    forall g | f < g <= 14 ensures !AllFit(cs, g) {
      if AllFit(cs, g) {
        FewerFit(cs, f + 1, g);
      }
    }
  }

  lemma TwiceScaled(f: nat)
    ensures Scaled(-2.0, f) == -2 * Scale(f) && Scaled(2.0, f) == 2 * Scale(f) && Scaled(0.0, f) == 0
  {
    assert Times(2.0, Scale(f) as real) == (2 * Scale(f)) as real;
    assert Scaled(2.0, f) == 2 * Scale(f);
    ScaledOdd(2.0, f);
    ScaledZero(f);
  }

  lemma Powers()
    ensures Scale(13) == 8192 && Scale(14) == 16384
  {
    assert Scale(4) == 16 && Scale(8) == 16 * Scale(4) && Scale(12) == 16 * Scale(8) && Scale(14) == 4 * Scale(12);
  }

  /** Whenever everything can be written with some number of fraction bits up to 14, it can with
      the one chosen. */
  lemma ChosenWrites(cs: seq<Command<real>>, f: nat, g: nat)
    requires Largest(cs, f) && g <= 14 && AllQuantise(cs, g)
    ensures AllQuantise(cs, f)
  {
    hide AllFit, Scaled, AllNumbers;
    if f > 0 {
      FitsUnlessLowest(cs, f);
    } else {
      var vs := AllNumbers(cs);
      forall k | 0 <= k < |vs| ensures Quantise(vs[k], 0).Some? {
        ScaleMonotone(Abs(vs[k]), 0, g);
        ScaledOdd(Abs(vs[k]), 0);
        ScaledOdd(Abs(vs[k]), g);
      }
    }
  }

  lemma {:induction false} QuantisesAll(vs: seq<real>, f: nat)
    requires forall k :: 0 <= k < |vs| ==> Quantise(vs[k], f).Some?
    ensures QuantiseAll(vs, f).Some? && |QuantiseAll(vs, f).value| == |vs|
  {
    hide Quantise;
    if vs != [] {
      QuantisesAll(vs[..|vs| - 1], f);
    }
  }

  /** A command has the coordinates that its kind has. */
  predicate Shaped<N>(c: Command<N>) { c.Path? ==> |c.at| == Coords(c.op) }

  /** When all coordinates can be written, so can every command. */
  lemma {:induction false} FittingQuantises(cs: seq<Command<real>>, f: nat, k: nat)
    requires AllQuantise(cs, f) && k < |cs| && Shaped(cs[k])
    ensures Quantised(cs[k], f).Some?
    decreases |cs|
  {
    hide Quantise;
    var n := |cs| - 1;
    var before, last := AllNumbers(cs[..n]), Numbers(cs[n]);
    assert AllNumbers(cs) == before + last;
    if k < n {
      assert forall x :: 0 <= x < |before| ==> (before + last)[x] == before[x];
      FittingQuantises(cs[..n], f, k);
    } else {
      assert forall x :: 0 <= x < |last| ==> (before + last)[|before| + x] == last[x];
      if cs[n].Path? {
        QuantisesAll(cs[n].at, f);
      } else if cs[n].Stroke? {
        assert last[0] == cs[n].width;
      }
    }
  }
}
