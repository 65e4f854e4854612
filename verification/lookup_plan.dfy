/** The lookups of a plan (MapBuilder.compile of lib/ufont/tools/shapemodel.py): what each stage's
    features ask for, collected and merged stage by stage. */
module LookupPlan {
  import opened Wrappers
  import opened LookupMerge
  import opened StableSort

  /** A feature that is used: where it is in the font, if it is there, its stage, the glyphs it
      applies to, and how its lookups work. */
  datatype Feature = Feature(index: Option<nat>, stage: nat, mask: bv32, autoZwnj: bool, autoZwj: bool, random: bool,
                             perSyllable: bool)

  /** The lookups of each feature of a font, and how many lookups there are. */
  datatype Font = Font(lookups: nat -> seq<nat>, count: nat)

  /** The feature that the language requires, and its stage. */
  datatype Required = Required(index: nat, stage: nat)

  const GLOBAL: bv32 := 0x8000_0000

  // ------------------------------------------------------------- what a stage asks for

  /** The request x for each of the lookups ls that is there. */
  function For(ls: seq<nat>, count: nat, x: Lookup): seq<Lookup> {
    if ls == [] then []
    else
      var li := ls[|ls| - 1];
      For(ls[..|ls| - 1], count, x) + if li < count then [x.(index := li)] else []
  }

  function Request(f: Feature): Lookup { Lookup(0, f.mask, f.autoZwnj, f.autoZwj, f.random, f.perSyllable) }

  function Everywhere(): Lookup { Lookup(0, GLOBAL, true, true, false, false) }

  function OfFeature(font: Font, f: Feature, stage: nat): seq<Lookup> {
    if f.stage == stage && f.index.Some? then For(font.lookups(f.index.value), font.count, Request(f)) else []
  }

  function OfFeatures(font: Font, fs: seq<Feature>, stage: nat): seq<Lookup> {
    if fs == [] then [] else OfFeatures(font, fs[..|fs| - 1], stage) + OfFeature(font, fs[|fs| - 1], stage)
  }

  function OfRequired(font: Font, req: Option<Required>, stage: nat): seq<Lookup> {
    if req.Some? && req.value.stage == stage then For(font.lookups(req.value.index), font.count, Everywhere()) else []
  }

  /** The requests of a stage, the required feature's first. */
  function Requests(font: Font, req: Option<Required>, fs: seq<Feature>, stage: nat): seq<Lookup> {
    OfRequired(font, req, stage) + OfFeatures(font, fs, stage)
  }

  // ------------------------------------------------------------------------ what it means

  /** The required feature of this stage uses lookup i. */
  ghost predicate RequiredUses(font: Font, req: Option<Required>, stage: nat, i: nat) {
    req.Some? && req.value.stage == stage && i < font.count && i in font.lookups(req.value.index)
  }

  /** Feature f is of this stage and uses lookup i. */
  ghost predicate Uses(font: Font, f: Feature, stage: nat, i: nat) {
    f.stage == stage && f.index.Some? && i < font.count && i in font.lookups(f.index.value)
  }

  ghost predicate SomeUses(font: Font, fs: seq<Feature>, stage: nat, i: nat) {
    exists k :: 0 <= k < |fs| && Uses(font, fs[k], stage, i)
  }

  ghost predicate SomeTests(font: Font, fs: seq<Feature>, stage: nat, i: nat, m: bv32) {
    exists k :: 0 <= k < |fs| && Uses(font, fs[k], stage, i) && Tests(fs[k].mask, m)
  }

  ghost predicate AllLetZwnj(font: Font, fs: seq<Feature>, stage: nat, i: nat) {
    forall k :: 0 <= k < |fs| && Uses(font, fs[k], stage, i) ==> fs[k].autoZwnj
  }

  ghost predicate AllLetZwj(font: Font, fs: seq<Feature>, stage: nat, i: nat) {
    forall k :: 0 <= k < |fs| && Uses(font, fs[k], stage, i) ==> fs[k].autoZwj
  }

  /** One feature more. */
  lemma UsesMore(font: Font, fs: seq<Feature>, stage: nat, i: nat, m: bv32)
    requires fs != []
    ensures var before, f := fs[..|fs| - 1], fs[|fs| - 1];
      && (SomeUses(font, fs, stage, i) <==> SomeUses(font, before, stage, i) || Uses(font, f, stage, i))
      && (SomeTests(font, fs, stage, i, m)
          <==> SomeTests(font, before, stage, i, m) || (Uses(font, f, stage, i) && Tests(f.mask, m)))
      && (AllLetZwnj(font, fs, stage, i)
          <==> AllLetZwnj(font, before, stage, i) && (f.autoZwnj || !Uses(font, f, stage, i)))
      && (AllLetZwj(font, fs, stage, i)
          <==> AllLetZwj(font, before, stage, i) && (f.autoZwj || !Uses(font, f, stage, i)))
  {
    hide Uses, Tests;
    assert forall k :: 0 <= k < |fs| - 1 ==> fs[..|fs| - 1][k] == fs[k];
  }

  /** Requests that all say the same of one lookup. */
  lemma {:induction false} ForAsks(ls: seq<nat>, count: nat, x: Lookup, i: nat, m: bv32)
    ensures Asked(For(ls, count, x), i) <==> i < count && i in ls
    ensures AskedFor(For(ls, count, x), i, m) <==> i < count && i in ls && Tests(x.mask, m)
    ensures AllZwnj(For(ls, count, x), i) <==> x.autoZwnj || !(i < count && i in ls)
    ensures AllZwj(For(ls, count, x), i) <==> x.autoZwj || !(i < count && i in ls)
  {
    if ls != [] {
      hide Asked, AskedFor, AllZwnj, AllZwj, Tests;
      var n := |ls| - 1;
      ForAsks(ls[..n], count, x, i, m);
      assert i in ls <==> i in ls[..n] || i == ls[n];
      if ls[n] < count {
        AskedMore(For(ls[..n], count, x), x.(index := ls[n]), i);
        AskedForMore(For(ls[..n], count, x), x.(index := ls[n]), i, m);
      } else {
        assert For(ls, count, x) == For(ls[..n], count, x);
      }
    }
  }

  lemma AskedOfBoth(xs: seq<Lookup>, ys: seq<Lookup>, i: nat, m: bv32)
    ensures Asked(xs + ys, i) <==> Asked(xs, i) || Asked(ys, i)
    ensures AskedFor(xs + ys, i, m) <==> AskedFor(xs, i, m) || AskedFor(ys, i, m)
    ensures AllZwnj(xs + ys, i) <==> AllZwnj(xs, i) && AllZwnj(ys, i)
    ensures AllZwj(xs + ys, i) <==> AllZwj(xs, i) && AllZwj(ys, i)
  {
    hide Tests;
    var zs := xs + ys;
    assert forall k :: 0 <= k < |xs| ==> zs[k] == xs[k];
    assert forall k :: 0 <= k < |ys| ==> zs[|xs| + k] == ys[k];
    assert forall k :: |xs| <= k < |zs| ==> zs[k] == ys[k - |xs|];
  }

  lemma OfFeatureAsks(font: Font, f: Feature, stage: nat, i: nat, m: bv32)
    ensures var xs := OfFeature(font, f, stage);
      && (Asked(xs, i) <==> Uses(font, f, stage, i))
      && (AskedFor(xs, i, m) <==> Uses(font, f, stage, i) && Tests(f.mask, m))
      && (AllZwnj(xs, i) <==> f.autoZwnj || !Uses(font, f, stage, i))
      && (AllZwj(xs, i) <==> f.autoZwj || !Uses(font, f, stage, i))
  {
    if f.stage == stage && f.index.Some? {
      ForAsks(font.lookups(f.index.value), font.count, Request(f), i, m);
    }
  }

  lemma {:induction false} OfFeaturesAsk(font: Font, fs: seq<Feature>, stage: nat, i: nat, m: bv32)
    ensures var xs := OfFeatures(font, fs, stage);
      && (Asked(xs, i) <==> SomeUses(font, fs, stage, i))
      && (AskedFor(xs, i, m) <==> SomeTests(font, fs, stage, i, m))
      && (AllZwnj(xs, i) <==> AllLetZwnj(font, fs, stage, i))
      && (AllZwj(xs, i) <==> AllLetZwj(font, fs, stage, i))
  {
    if fs != [] {
      hide Asked, AskedFor, AllZwnj, AllZwj, OfFeature, Uses, Tests, SomeUses, SomeTests, AllLetZwnj, AllLetZwj;
      var n := |fs| - 1;
      OfFeaturesAsk(font, fs[..n], stage, i, m);
      OfFeatureAsks(font, fs[n], stage, i, m);
      AskedOfBoth(OfFeatures(font, fs[..n], stage), OfFeature(font, fs[n], stage), i, m);
      UsesMore(font, fs, stage, i, m);
    }
  }

  /** x asks what feature f asks for its lookups, or what the required feature does. */
  ghost predicate AsksAs(font: Font, f: Feature, stage: nat, x: Lookup) {
    && Uses(font, f, stage, x.index) && x.mask == f.mask && x.autoZwnj == f.autoZwnj && x.autoZwj == f.autoZwj
    && x.random == f.random && x.perSyllable == f.perSyllable
  }

  ghost predicate AsksAsRequired(font: Font, req: Option<Required>, stage: nat, x: Lookup) {
    && RequiredUses(font, req, stage, x.index) && x.mask == GLOBAL && x.autoZwnj && x.autoZwj
    && !x.random && !x.perSyllable
  }

  ghost predicate AsksAsSome(font: Font, fs: seq<Feature>, stage: nat, x: Lookup) {
    exists j :: 0 <= j < |fs| && AsksAs(font, fs[j], stage, x)
  }

  lemma {:induction false} ForIs(ls: seq<nat>, count: nat, x: Lookup, k: nat)
    requires k < |For(ls, count, x)|
    ensures var y := For(ls, count, x)[k]; y.index < count && y.index in ls && y == x.(index := y.index)
  {
    if k < |For(ls[..|ls| - 1], count, x)| {
      ForIs(ls[..|ls| - 1], count, x, k);
    }
  }

  lemma {:induction false} OfFeaturesIs(font: Font, fs: seq<Feature>, stage: nat, k: nat)
    requires k < |OfFeatures(font, fs, stage)|
    ensures AsksAsSome(font, fs, stage, OfFeatures(font, fs, stage)[k])
  {
    var n := |fs| - 1;
    var before := OfFeatures(font, fs[..n], stage);
    var x := OfFeatures(font, fs, stage)[k];
    if k < |before| {
      OfFeaturesIs(font, fs[..n], stage, k);
      var j :| 0 <= j < n && AsksAs(font, fs[..n][j], stage, x);
      assert AsksAs(font, fs[j], stage, x);
    } else {
      ForIs(font.lookups(fs[n].index.value), font.count, Request(fs[n]), k - |before|);
      assert AsksAs(font, fs[n], stage, x);
    }
  }

  /** Every request of a stage is one of the required feature's, which come first, or asks for
      just what some feature of the stage does that uses the lookup. */
  lemma RequestIs(font: Font, req: Option<Required>, fs: seq<Feature>, stage: nat, k: nat)
    requires k < |Requests(font, req, fs, stage)|
    ensures var x := Requests(font, req, fs, stage)[k];
      if k < |OfRequired(font, req, stage)| then AsksAsRequired(font, req, stage, x)
      else AsksAsSome(font, fs, stage, x)
  {
    var n := |OfRequired(font, req, stage)|;
    if k < n {
      ForIs(font.lookups(req.value.index), font.count, Everywhere(), k);
    } else {
      OfFeaturesIs(font, fs, stage, k - n);
    }
  }

  // --------------------------------------------------------- random and per syllable

  /** o has the random and per-syllable flags r and s. */
  predicate Flagged(o: Lookup, r: bool, s: bool) { o.random == r && o.perSyllable == s }

  /** The k-th feature uses the lookup of o, and has its flags. */
  ghost predicate FlagsOf(font: Font, fs: seq<Feature>, stage: nat, o: Lookup, k: nat) {
    k < |fs| && Uses(font, fs[k], stage, o.index) && Flagged(o, fs[k].random, fs[k].perSyllable)
  }

  /** o has the flags of some feature that uses it, or none as the required feature asks. */
  ghost predicate FlagsOfSome(font: Font, req: Option<Required>, fs: seq<Feature>, stage: nat, o: Lookup) {
    || (RequiredUses(font, req, stage, o.index) && Flagged(o, false, false))
    || exists k: nat :: FlagsOf(font, fs, stage, o, k)
  }

  /** o has the flags of the first feature in the list that uses it. */
  ghost predicate FlagsOfFirst(font: Font, fs: seq<Feature>, stage: nat, o: Lookup) {
    exists k: nat :: FlagsOf(font, fs, stage, o, k) && forall j: nat :: j < k ==> !Uses(font, fs[j], stage, o.index)
  }

  lemma FlagsOfBoth(xs: seq<Lookup>, ys: seq<Lookup>, o: Lookup)
    ensures SomeFlags(xs + ys, o) <==> SomeFlags(xs, o) || SomeFlags(ys, o)
  {
    var zs := xs + ys;
    assert forall k :: 0 <= k < |xs| ==> zs[k] == xs[k];
    assert forall k :: 0 <= k < |ys| ==> zs[|xs| + k] == ys[k];
  }

  lemma {:induction false} PickAsked(xs: seq<Lookup>, i: nat)
    ensures Pick(xs, i, Index) != [] <==> Asked(xs, i)
  {
    if xs != [] {
      var n := |xs| - 1;
      assert xs == xs[..n] + [xs[n]];
      AskedMore(xs[..n], xs[n], i);
      PickAsked(xs[..n], i);
    }
  }

  lemma LedBoth(xs: seq<Lookup>, ys: seq<Lookup>, o: Lookup)
    ensures Led(xs + ys, o) <==> if Asked(xs, o.index) then Led(xs, o) else Led(ys, o)
  {
    hide Asked, Pick;
    PickBoth(xs, ys, o.index, Index);
    PickAsked(xs, o.index);
  }

  lemma OneAsks(x: Lookup, o: Lookup)
    ensures Led([x], o) <==> x.index == o.index && Flagged(o, x.random, x.perSyllable)
    ensures SomeFlags([x], o) <==> x.index == o.index && Flagged(o, x.random, x.perSyllable)
    ensures Asked([x], o.index) <==> x.index == o.index
  {
    assert [x][..0] == [] && [x][0] == x;
    assert Pick([x], o.index, Index) == Pick([], o.index, Index) + if x.index == o.index then [x] else [];
  }

  lemma {:induction false} ForFlags(ls: seq<nat>, count: nat, x: Lookup, o: Lookup)
    ensures var used := o.index < count && o.index in ls && Flagged(o, x.random, x.perSyllable);
      (Led(For(ls, count, x), o) <==> used) && (SomeFlags(For(ls, count, x), o) <==> used)
  {
    if ls != [] {
      hide Asked, Led, SomeFlags, Flagged;
      var n := |ls| - 1;
      ForFlags(ls[..n], count, x, o);
      ForAsks(ls[..n], count, x, o.index, 0);
      assert o.index in ls <==> o.index in ls[..n] || o.index == ls[n];
      if ls[n] < count {
        FlagsOfBoth(For(ls[..n], count, x), [x.(index := ls[n])], o);
        LedBoth(For(ls[..n], count, x), [x.(index := ls[n])], o);
        OneAsks(x.(index := ls[n]), o);
      } else {
        assert For(ls, count, x) == For(ls[..n], count, x);
      }
    } else {
      assert For(ls, count, x) == [];
    }
  }

  lemma OfFeatureFlags(font: Font, f: Feature, stage: nat, o: Lookup)
    ensures var used := Uses(font, f, stage, o.index) && Flagged(o, f.random, f.perSyllable);
      (Led(OfFeature(font, f, stage), o) <==> used) && (SomeFlags(OfFeature(font, f, stage), o) <==> used)
  {
    if f.stage == stage && f.index.Some? {
      ForFlags(font.lookups(f.index.value), font.count, Request(f), o);
    } else {
      assert OfFeature(font, f, stage) == [];
    }
  }

  /** One feature more. */
  lemma FlagsMoreFeatures(font: Font, fs: seq<Feature>, stage: nat, o: Lookup)
    requires fs != []
    ensures var before, n := fs[..|fs| - 1], |fs| - 1;
      && ((exists k: nat :: FlagsOf(font, fs, stage, o, k))
          <==> (exists k: nat :: FlagsOf(font, before, stage, o, k)) || FlagsOf(font, fs, stage, o, n))
      && (FlagsOfFirst(font, fs, stage, o)
          <==> if SomeUses(font, before, stage, o.index) then FlagsOfFirst(font, before, stage, o)
               else FlagsOf(font, fs, stage, o, n))
  {
    hide Uses, Flagged;
    var before, n := fs[..|fs| - 1], |fs| - 1;
    assert forall k: nat :: k < n ==> before[k] == fs[k];
    assert forall k: nat :: k < n ==> (FlagsOf(font, fs, stage, o, k) <==> FlagsOf(font, before, stage, o, k));
  }

  lemma {:induction false} OfFeaturesFlags(font: Font, fs: seq<Feature>, stage: nat, o: Lookup)
    ensures Led(OfFeatures(font, fs, stage), o) <==> FlagsOfFirst(font, fs, stage, o)
    ensures SomeFlags(OfFeatures(font, fs, stage), o) <==> exists k: nat :: FlagsOf(font, fs, stage, o, k)
  {
    if fs != [] {
      hide Asked, Led, SomeFlags, FlagsOfFirst, SomeUses, OfFeature;
      var n := |fs| - 1;
      OfFeaturesFlags(font, fs[..n], stage, o);
      OfFeatureFlags(font, fs[n], stage, o);
      OfFeaturesAsk(font, fs[..n], stage, o.index, 0);
      FlagsOfBoth(OfFeatures(font, fs[..n], stage), OfFeature(font, fs[n], stage), o);
      LedBoth(OfFeatures(font, fs[..n], stage), OfFeature(font, fs[n], stage), o);
      FlagsMoreFeatures(font, fs, stage, o);
    }
  }

  /** Whose flags a request can bring, and whose the first one brings: the required feature's
      before those of the features in order. */
  lemma RequestFlags(font: Font, req: Option<Required>, fs: seq<Feature>, stage: nat, o: Lookup)
    ensures var xs := Requests(font, req, fs, stage);
      && (SomeFlags(xs, o) <==> FlagsOfSome(font, req, fs, stage, o))
      && (Led(xs, o) <==> if RequiredUses(font, req, stage, o.index) then Flagged(o, false, false)
                          else FlagsOfFirst(font, fs, stage, o))
  {
    hide Asked, Led, SomeFlags, FlagsOfFirst, FlagsOf, Flagged, OfFeatures;
    OfFeaturesFlags(font, fs, stage, o);
    FlagsOfBoth(OfRequired(font, req, stage), OfFeatures(font, fs, stage), o);
    LedBoth(OfRequired(font, req, stage), OfFeatures(font, fs, stage), o);
    if req.Some? && req.value.stage == stage {
      ForFlags(font.lookups(req.value.index), font.count, Everywhere(), o);
      ForAsks(font.lookups(req.value.index), font.count, Everywhere(), o.index, 0);
    } else {
      NoFlags(o);
    }
  }

  lemma NoFlags(o: Lookup)
    ensures !Asked([], o.index) && !SomeFlags([], o) && !Led([], o)
  {
  }

  // ---------------------------------------------------------------------- what is planned

  /** The mask of all glyphs is the highest bit. */
  lemma GlobalIsHighest(m: bv32)
    ensures Tests(GLOBAL, m) <==> m >= 0x8000_0000
  {
  }

  /** The lookups of a stage: one for each that a feature of the stage uses; it applies to the
      glyphs that some such feature applies to, all glyphs if the required feature uses it, skips
      joiners when all such features let it, and is random or bound to syllables as some such
      feature says: with less than 10 requests the first one, the required feature before all. */
  ghost predicate Plans(font: Font, req: Option<Required>, fs: seq<Feature>, stage: nat, out: seq<Lookup>) {
    && Increasing(out)
    && (forall i: nat :: Asked(out, i) <==> RequiredUses(font, req, stage, i) || SomeUses(font, fs, stage, i))
    && (forall j :: 0 <= j < |out| ==> PlansOne(font, req, fs, stage, out[j]))
    && (|Requests(font, req, fs, stage)| < 10 ==>
          forall j :: 0 <= j < |out| ==> PlansFirst(font, req, fs, stage, out[j]))
  }

  ghost predicate PlansFirst(font: Font, req: Option<Required>, fs: seq<Feature>, stage: nat, o: Lookup) {
    if RequiredUses(font, req, stage, o.index) then !o.random && !o.perSyllable else FlagsOfFirst(font, fs, stage, o)
  }

  ghost predicate PlansOne(font: Font, req: Option<Required>, fs: seq<Feature>, stage: nat, o: Lookup) {
    && (forall m: bv32 :: Tests(o.mask, m) <==>
          (RequiredUses(font, req, stage, o.index) && Tests(GLOBAL, m)) || SomeTests(font, fs, stage, o.index, m))
    && (o.autoZwnj <==> AllLetZwnj(font, fs, stage, o.index))
    && (o.autoZwj <==> AllLetZwj(font, fs, stage, o.index))
    && FlagsOfSome(font, req, fs, stage, o)
  }

  lemma RequestsAsk(font: Font, req: Option<Required>, fs: seq<Feature>, stage: nat, i: nat, m: bv32)
    ensures var xs := Requests(font, req, fs, stage);
      && (Asked(xs, i) <==> RequiredUses(font, req, stage, i) || SomeUses(font, fs, stage, i))
      && (AskedFor(xs, i, m) <==> (RequiredUses(font, req, stage, i) && Tests(GLOBAL, m))
                                  || SomeTests(font, fs, stage, i, m))
      && (AllZwnj(xs, i) <==> AllLetZwnj(font, fs, stage, i))
      && (AllZwj(xs, i) <==> AllLetZwj(font, fs, stage, i))
  {
    hide Asked, AskedFor, AllZwnj, AllZwj, Uses, Tests, SomeUses, SomeTests, OfFeatures, AllLetZwnj, AllLetZwj;
    OfFeaturesAsk(font, fs, stage, i, m);
    AskedOfBoth(OfRequired(font, req, stage), OfFeatures(font, fs, stage), i, m);
    if req.Some? && req.value.stage == stage {
      ForAsks(font.lookups(req.value.index), font.count, Everywhere(), i, m);
    } else {
      NoneAsks(i, m);
    }
  }

  lemma NoneAsks(i: nat, m: bv32)
    ensures !Asked([], i) && !AskedFor([], i, m) && AllZwnj([], i) && AllZwj([], i)
  {
  }

  /** What combines a stage's requests is what the stage's features call for. */
  lemma CombinedPlans(font: Font, req: Option<Required>, fs: seq<Feature>, stage: nat, out: seq<Lookup>)
    requires Combines(Requests(font, req, fs, stage), out)
    requires |Requests(font, req, fs, stage)| < 10 ==> AllLed(Requests(font, req, fs, stage), out)
    ensures Plans(font, req, fs, stage, out)
  {
    hide Requests, RequiredUses, SomeUses, SomeTests, Uses, Tests, AskedFor, AllZwnj, AllZwj, SomeFlags, AllLetZwnj,
      AllLetZwj, Led, FlagsOfSome, FlagsOfFirst;
    var xs := Requests(font, req, fs, stage);
    forall i: nat ensures Asked(out, i) <==> RequiredUses(font, req, stage, i) || SomeUses(font, fs, stage, i) {
      RequestsAsk(font, req, fs, stage, i, 0);
      AskedIsThere(xs, i, out);
      if Asked(out, i) {
        var j :| 0 <= j < |out| && out[j].index == i;
        assert Merges(xs, out[j]);
      }
    }
    forall j | 0 <= j < |out| ensures PlansOne(font, req, fs, stage, out[j]) {
      assert Merges(xs, out[j]);
      RequestsAsk(font, req, fs, stage, out[j].index, 0);
      RequestFlags(font, req, fs, stage, out[j]);
      forall m: bv32
        ensures Tests(out[j].mask, m) <==>
          (RequiredUses(font, req, stage, out[j].index) && Tests(GLOBAL, m))
          || SomeTests(font, fs, stage, out[j].index, m)
      {
        RequestsAsk(font, req, fs, stage, out[j].index, m);
      }
    }
    if |xs| < 10 {
      forall j | 0 <= j < |out| ensures PlansFirst(font, req, fs, stage, out[j]) {
        RequestFlags(font, req, fs, stage, out[j]);
      }
    }
  }

  // ----------------------------------------------------------------------------- the plan

  method AddFor(lookups0: seq<Lookup>, ls: seq<nat>, count: nat, x: Lookup) returns (lookups: seq<Lookup>)
    ensures lookups == lookups0 + For(ls, count, x)
  {
    lookups := lookups0;
    for k := 0 to |ls|
      invariant lookups == lookups0 + For(ls[..k], count, x)
    {
      assert ls[..k + 1][..k] == ls[..k];
      if ls[k] < count {
        lookups := lookups + [x.(index := ls[k])];
      }
    }
    assert ls[..|ls|] == ls;
  }

  method Collect(lookups0: seq<Lookup>, font: Font, req: Option<Required>, fs: seq<Feature>, stage: nat)
      returns (lookups: seq<Lookup>)
    ensures lookups == lookups0 + Requests(font, req, fs, stage)
    ensures forall k :: |lookups0| <= k < |lookups| ==>
      AsksAsRequired(font, req, stage, lookups[k]) || AsksAsSome(font, fs, stage, lookups[k])
  {
    hide For, AsksAsRequired, AsksAsSome;
    lookups := lookups0;
    if req.Some? && req.value.stage == stage {
      lookups := AddFor(lookups, font.lookups(req.value.index), font.count, Everywhere());
    }
    ghost var before := lookups;
    for k := 0 to |fs|
      invariant lookups == before + OfFeatures(font, fs[..k], stage)
    {
      assert fs[..k + 1][..k] == fs[..k];
      if fs[k].stage == stage && fs[k].index.Some? {
        lookups := AddFor(lookups, font.lookups(fs[k].index.value), font.count, Request(fs[k]));
      }
    }
    assert fs[..|fs|] == fs;
    forall k | |lookups0| <= k < |lookups|
      ensures AsksAsRequired(font, req, stage, lookups[k]) || AsksAsSome(font, fs, stage, lookups[k])
    {
      RequestIs(font, req, fs, stage, k - |lookups0|);
    }
  }

  /** The requests of all stages. */
  function AllRequests(font: Font, req: Option<Required>, fs: seq<Feature>, stages: nat): (r: seq<seq<Lookup>>)
    ensures |r| == stages && forall s :: 0 <= s < stages ==> r[s] == Requests(font, req, fs, s)
  {
    seq(stages, s requires 0 <= s < stages => Requests(font, req, fs, s))
  }

  /** The lookups of all stages, and where each stage's end. */
  method Compile(font: Font, req: Option<Required>, fs: seq<Feature>, stages: nat)
      returns (lookups: seq<Lookup>, ends: seq<nat>)
    ensures |ends| == stages && Staged(AllRequests(font, req, fs, stages), lookups, ends)
    ensures forall s: nat :: s < stages ==> StagePlanned(font, req, fs, lookups, ends, s)
  {
    hide StageAt, Combines, AllLed, Requests, AsksAsRequired, AsksAsSome;
    ghost var requests := AllRequests(font, req, fs, stages);
    lookups, ends := [], [];
    for s := 0 to stages
      invariant |ends| == s && Staged(requests, lookups, ends)
    {
      ghost var before := lookups;
      var last := |lookups|;
      lookups := Collect(lookups, font, req, fs, s);
      assert lookups[last..] == requests[s] && lookups[..last] == before;
      lookups := MergeStage(lookups, last);
      StagedMore(requests, before, ends, lookups);
      ends := ends + [|lookups|];
    }
    forall s: nat | s < stages ensures StagePlanned(font, req, fs, lookups, ends, s) {
      OneStage(font, req, fs, stages, lookups, ends, s);
    }
  }

  ghost predicate StagePlanned(font: Font, req: Option<Required>, fs: seq<Feature>, lookups: seq<Lookup>,
                               ends: seq<nat>, s: nat) {
    && s < |ends| && StartOf(ends, s) <= ends[s] <= |lookups|
    && Plans(font, req, fs, s, lookups[StartOf(ends, s)..ends[s]])
  }

  lemma OneStage(font: Font, req: Option<Required>, fs: seq<Feature>, stages: nat, lookups: seq<Lookup>, ends: seq<nat>,
                 s: nat)
    requires |ends| == stages && Staged(AllRequests(font, req, fs, stages), lookups, ends) && s < stages
    ensures StagePlanned(font, req, fs, lookups, ends, s)
  {
    hide Combines, AllLed, Requests, Plans;
    assert StageAt(AllRequests(font, req, fs, stages), lookups, ends, s);
    CombinedPlans(font, req, fs, s, lookups[StartOf(ends, s)..ends[s]]);
  }
}
