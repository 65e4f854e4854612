/** Weak types (rules W1 to W7) in one isolating run sequence: each rule said at once for
    every place, and the loops that work place by place proved to do it. */
module BidiWeak {
  import opened Wrappers
  import opened BidiTypes

  type Types = seq<Class>

  predicate Direction(c: Class) { c == L || c == R }

  predicate AfterIsolate(c: Class) { Isolate(c) || c == PDI }

  // -------------------------------------------------------------------- W1

  /** The last place before k that is not a nonspacing mark. */
  ghost function BaseBefore(ty: Types, k: nat): (b: Option<nat>)
    requires k <= |ty|
    ensures b.Some? ==> b.value < k && ty[b.value] != NSM
  {
    if k == 0 then None else if ty[k - 1] != NSM then Some(k - 1) else BaseBefore(ty, k - 1)
  }

  /** W1: a mark takes the type of its base, ON after an isolate or PDI, sos without one. */
  ghost function W1At(ty: Types, sos: Class, k: nat): Class
    requires k < |ty|
  {
    if ty[k] != NSM then ty[k]
    else match BaseBefore(ty, k)
      case None => sos
      case Some(b) => if AfterIsolate(ty[b]) then ON else ty[b]
  }

  ghost function W1(ty: Types, sos: Class): Types {
    seq(|ty|, k requires 0 <= k < |ty| => W1At(ty, sos, k))
  }

  method RuleW1(ty0: Types, sos: Class) returns (ty: Types)
    requires Direction(sos)
    ensures ty == W1(ty0, sos)
  {
    ty := ty0;
    for k := 0 to |ty|
      invariant |ty| == |ty0|
      invariant forall j :: 0 <= j < k ==> ty[j] == W1At(ty0, sos, j)
      invariant forall j :: k <= j < |ty| ==> ty[j] == ty0[j]
    {
      if ty[k] == NSM {
        if k == 0 {
          ty := ty[k := sos];
        } else if AfterIsolate(ty[k - 1]) {
          ty := ty[k := ON];
        } else {
          ty := ty[k := ty[k - 1]];
        }
      }
    }
  }

  // ---------------------------------------------------------------- W2, W3

  predicate StrongType(c: Class) { c == L || c == R || c == AL }

  /** The last strong type before k, sos when there is none. */
  ghost function StrongBefore(ty: Types, sos: Class, k: nat): Class
    requires k <= |ty|
  {
    if k == 0 then sos else if StrongType(ty[k - 1]) then ty[k - 1] else StrongBefore(ty, sos, k - 1)
  }

  /** W2: a European number after an Arabic letter is an Arabic number. */
  ghost function W2(ty: Types, sos: Class): Types {
    seq(|ty|, k requires 0 <= k < |ty| => if ty[k] == EN && StrongBefore(ty, sos, k) == AL then AN else ty[k])
  }

  /** W3: Arabic letters are R. */
  ghost function W3(ty: Types): Types {
    seq(|ty|, k requires 0 <= k < |ty| => if ty[k] == AL then R else ty[k])
  }

  method RuleW2(ty0: Types, sos: Class) returns (ty: Types)
    ensures ty == W2(ty0, sos)
  {
    ty := ty0;
    var last := sos;
    for k := 0 to |ty|
      invariant |ty| == |ty0| && last == StrongBefore(ty0, sos, k)
      invariant forall j :: 0 <= j < k ==> ty[j] == W2(ty0, sos)[j]
      invariant forall j :: k <= j < |ty| ==> ty[j] == ty0[j]
    {
      if StrongType(ty[k]) {
        last := ty[k];
      } else if ty[k] == EN && last == AL {
        ty := ty[k := AN];
      }
    }
  }

  method RuleW3(ty0: Types) returns (ty: Types)
    ensures ty == W3(ty0)
  {
    ty := ty0;
    for k := 0 to |ty|
      invariant |ty| == |ty0|
      invariant forall j :: 0 <= j < |ty| ==> ty[j] == if j < k then W3(ty0)[j] else ty0[j]
    {
      if ty[k] == AL {
        ty := ty[k := R];
      }
    }
  }

  // -------------------------------------------------------------------- W4

  /** W4: a single separator between two numbers of one kind joins them. */
  ghost function W4At(ty: Types, k: nat): Class
    requires k < |ty|
  {
    if 0 < k < |ty| - 1 && ty[k] == ES && ty[k - 1] == EN && ty[k + 1] == EN then EN
    else if 0 < k < |ty| - 1 && ty[k] == CS && ty[k - 1] == ty[k + 1] && (ty[k - 1] == EN || ty[k - 1] == AN)
      then ty[k - 1]
    else ty[k]
  }

  ghost function W4(ty: Types): Types {
    seq(|ty|, k requires 0 <= k < |ty| => W4At(ty, k))
  }

  /** Changing places in order makes no difference: what a changed place joins is a number. */
  method RuleW4(ty0: Types) returns (ty: Types)
    ensures ty == W4(ty0)
  {
    ty := ty0;
    var k: nat := 1;
    while k + 1 < |ty|
      invariant 1 <= k && |ty| == |ty0|
      invariant forall j :: 0 <= j < |ty| ==> ty[j] == if j < k then W4At(ty0, j) else ty0[j]
      decreases |ty| - k
    {
      if ty[k] == ES && ty[k - 1] == EN && ty[k + 1] == EN {
        ty := ty[k := EN];
      } else if ty[k] == CS && ty[k - 1] == ty[k + 1] && (ty[k - 1] == EN || ty[k - 1] == AN) {
        ty := ty[k := ty[k - 1]];
      }
      k := k + 1;
    }
  }

  // ---------------------------------------------------------------- W5, W6

  predicate Terminator(c: Class) { c == ET }

  /** The stretch of places around k that satisfy p. */
  ghost function StretchStart(ty: Types, p: Class -> bool, k: nat): (s: nat)
    requires k <= |ty|
    ensures s <= k && (forall j :: s <= j < k ==> p(ty[j])) && (s > 0 ==> !p(ty[s - 1]))
  {
    if k > 0 && p(ty[k - 1]) then StretchStart(ty, p, k - 1) else k
  }

  ghost function StretchEnd(ty: Types, p: Class -> bool, k: nat): (e: nat)
    requires k <= |ty|
    ensures k <= e <= |ty| && (forall j :: k <= j < e ==> p(ty[j])) && (e < |ty| ==> !p(ty[e]))
    decreases |ty| - k
  {
    if k < |ty| && p(ty[k]) then StretchEnd(ty, p, k + 1) else k
  }

  lemma StretchIs(ty: Types, p: Class -> bool, s: nat, e: nat, k: nat)
    requires s <= k < e <= |ty| && (forall j :: s <= j < e ==> p(ty[j]))
    requires (s > 0 ==> !p(ty[s - 1])) && (e < |ty| ==> !p(ty[e]))
    ensures StretchStart(ty, p, k) == s && StretchEnd(ty, p, k) == e
  {
  }

  /** W5: terminators in a row next to a European number become European numbers. */
  ghost function W5At(ty: Types, k: nat): Class
    requires k < |ty|
  {
    var s, e := StretchStart(ty, Terminator, k), StretchEnd(ty, Terminator, k);
    if ty[k] == ET && ((s > 0 && ty[s - 1] == EN) || (e < |ty| && ty[e] == EN)) then EN else ty[k]
  }

  ghost function W5(ty: Types): Types {
    seq(|ty|, k requires 0 <= k < |ty| => W5At(ty, k))
  }

  /** ty is ty0 with the first k places changed to f's. */
  ghost predicate Half(f: Types, ty0: Types, ty: Types, k: nat) {
    |f| == |ty0| == |ty| && k <= |ty| && forall j :: 0 <= j < |ty| ==> ty[j] == if j < k then f[j] else ty0[j]
  }

  lemma HalfStretch(f: Types, ty0: Types, ty: Types, s: nat, e: nat, d: Class)
    requires Half(f, ty0, ty, s) && s <= e <= |ty| && forall j :: s <= j < e ==> f[j] == d
    ensures Half(f, ty0, ty[..s] + seq(e - s, _ => d) + ty[e..], e)
  {
  }

  /** The end of the stretch starting at k. */
  method FindEnd(ty: Types, p: Class -> bool, k: nat) returns (e: nat)
    requires k <= |ty|
    ensures e == StretchEnd(ty, p, k)
  {
    e := k;
    while e < |ty| && p(ty[e])
      invariant k <= e <= |ty| && StretchEnd(ty, p, e) == StretchEnd(ty, p, k)
      decreases |ty| - e
    {
      e := e + 1;
    }
  }

  lemma {:induction false} HalfEnd(f: Types, ty0: Types, ty: Types, p: Class -> bool, k: nat, e: nat)
    requires Half(f, ty0, ty, k) && k <= e <= |ty|
    ensures StretchEnd(ty, p, e) == StretchEnd(ty0, p, e)
    decreases |ty| - e
  {
    if e < |ty| && p(ty[e]) {
      HalfEnd(f, ty0, ty, p, k, e + 1);
    }
  }

  method RuleW5(ty0: Types) returns (ty: Types)
    ensures ty == W5(ty0)
  {
    ty := ty0;
    var k: nat := 0;
    while k < |ty|
      invariant Half(W5(ty0), ty0, ty, k)
      invariant 0 < k < |ty| ==> ty0[k] != ET || ty0[k - 1] != ET
      decreases |ty| - k
    {
      if ty[k] == ET {
        var e := FindEnd(ty, Terminator, k);
        HalfEnd(W5(ty0), ty0, ty, Terminator, k, k);
        W5Stretch(ty0, k, e);
        var d := if (k > 0 && ty[k - 1] == EN) || (e < |ty| && ty[e] == EN) then EN else ET;
        HalfStretch(W5(ty0), ty0, ty, k, e, d);
        ty := ty[..k] + seq(e - k, _ => d) + ty[e..];
        k := e;
      } else {
        k := k + 1;
      }
    }
  }

  lemma W5Stretch(ty: Types, k: nat, e: nat)
    requires k < |ty| && ty[k] == ET && e == StretchEnd(ty, Terminator, k) && (k > 0 ==> ty[k - 1] != ET)
    ensures k < e
    ensures forall j :: k <= j < e ==>
      W5(ty)[j] == if (k > 0 && ty[k - 1] == EN) || (e < |ty| && ty[e] == EN) then EN else ET
    ensures k > 0 ==> W5(ty)[k - 1] == ty[k - 1]
  {
    forall j | k <= j < e
      ensures W5At(ty, j) == if (k > 0 && ty[k - 1] == EN) || (e < |ty| && ty[e] == EN) then EN else ET
    {
      StretchIs(ty, Terminator, k, e, j);
    }
  }

  predicate Separator(c: Class) { c == ES || c == ET || c == CS }

  /** W6: separators and terminators left are ON. */
  ghost function W6(ty: Types): Types {
    seq(|ty|, k requires 0 <= k < |ty| => if Separator(ty[k]) then ON else ty[k])
  }

  method RuleW6(ty0: Types) returns (ty: Types)
    ensures ty == W6(ty0)
  {
    ty := ty0;
    for k := 0 to |ty|
      invariant Half(W6(ty0), ty0, ty, k)
    {
      if Separator(ty[k]) {
        ty := ty[k := ON];
      }
    }
  }

  // -------------------------------------------------------------------- W7

  /** The last direction before k, sos when there is none. */
  ghost function DirectionBefore(ty: Types, sos: Class, k: nat): Class
    requires k <= |ty|
  {
    if k == 0 then sos else if Direction(ty[k - 1]) then ty[k - 1] else DirectionBefore(ty, sos, k - 1)
  }

  /** W7: a European number after L is L. */
  ghost function W7(ty: Types, sos: Class): Types {
    seq(|ty|, k requires 0 <= k < |ty| => if ty[k] == EN && DirectionBefore(ty, sos, k) == L then L else ty[k])
  }

  method RuleW7(ty0: Types, sos: Class) returns (ty: Types)
    ensures ty == W7(ty0, sos)
  {
    ty := ty0;
    var last := sos;
    for k := 0 to |ty|
      invariant Half(W7(ty0, sos), ty0, ty, k) && last == DirectionBefore(ty0, sos, k)
    {
      if Direction(ty[k]) {
        last := ty[k];
      } else if ty[k] == EN && last == L {
        ty := ty[k := L];
      }
    }
  }

  // ------------------------------------------------------------- all of them

  ghost function Weak(ty: Types, sos: Class): (r: Types)
    ensures |r| == |ty|
  {
    W7(W6(W5(W4(W3(W2(W1(ty, sos), sos))))), sos)
  }

  method WeakRules(ty0: Types, sos: Class) returns (ty: Types)
    requires Direction(sos)
    ensures ty == Weak(ty0, sos)
  {
    ty := RuleW1(ty0, sos);
    ty := RuleW2(ty, sos);
    ty := RuleW3(ty);
    ty := RuleW4(ty);
    ty := RuleW5(ty);
    ty := RuleW6(ty);
    ty := RuleW7(ty, sos);
  }

  predicate Settled(c: Class) { c == L || c == R || c == EN || c == AN || Neutral(c) }

  /** After the weak rules every kept character is L, R, a number or a neutral. */
  lemma WeakSettles(ty: Types, sos: Class)
    requires Direction(sos) && forall k :: 0 <= k < |ty| ==> !Removed(ty[k])
    ensures forall k :: 0 <= k < |ty| ==> Settled(Weak(ty, sos)[k])
  {
    var t1 := W1(ty, sos);
    var t3 := W3(W2(t1, sos));
    var t6 := W6(W5(W4(t3)));
    assert forall k :: 0 <= k < |ty| ==> !Removed(t1[k]) && t1[k] != NSM;
    assert forall k :: 0 <= k < |ty| ==> !Removed(t3[k]) && t3[k] != NSM && t3[k] != AL;
    assert forall k :: 0 <= k < |ty| ==> Settled(W4(t3)[k]) || Separator(W4(t3)[k]);
    assert forall k :: 0 <= k < |ty| ==> Settled(t6[k]);
  }

  // --------------------------------------------------------- the rules place by place

  /** W1: a mark after a character and other marks takes that character's type, ON after an
      isolate control. */
  lemma {:induction false} MarkAfter(ty: Types, sos: Class, b: nat, k: nat)
    requires b < k < |ty| && ty[b] != NSM && forall x :: b < x <= k ==> ty[x] == NSM
    ensures W1(ty, sos)[k] ==
      if ty[b] == LRI || ty[b] == RLI || ty[b] == FSI || ty[b] == PDI then ON else ty[b]
  {
    if b < k - 1 {
      MarkAfter(ty, sos, b, k - 1);
    }
  }

  /** A mark after marks only takes sos, and what is no mark keeps its type. */
  lemma {:induction false} MarkFirst(ty: Types, sos: Class, k: nat)
    requires k < |ty|
    ensures ty[k] != NSM ==> W1(ty, sos)[k] == ty[k]
    ensures (forall x :: 0 <= x <= k ==> ty[x] == NSM) ==> W1(ty, sos)[k] == sos
  {
    if k > 0 {
      MarkFirst(ty, sos, k - 1);
    }
  }

  /** W2: a European number is an Arabic number just when the last of L, R and AL before it is AL. */
  lemma {:induction false} NumberAfter(ty: Types, sos: Class, j: nat, k: nat)
    requires j < k <= |ty| && (ty[j] == L || ty[j] == R || ty[j] == AL)
    requires forall x :: j < x < k ==> ty[x] != L && ty[x] != R && ty[x] != AL
    ensures StrongBefore(ty, sos, k) == ty[j]
    ensures k < |ty| && ty[k] == EN ==> W2(ty, sos)[k] == if ty[j] == AL then AN else EN
    decreases k
  {
    if j < k - 1 {
      NumberAfter(ty, sos, j, k - 1);
    }
  }

  lemma {:induction false} NumberFirst(ty: Types, sos: Class, k: nat)
    requires k <= |ty| && Direction(sos) && forall x :: 0 <= x < k ==> ty[x] != L && ty[x] != R && ty[x] != AL
    ensures StrongBefore(ty, sos, k) == sos
    ensures k < |ty| && ty[k] == EN ==> W2(ty, sos)[k] == EN
  {
    if k > 0 {
      NumberFirst(ty, sos, k - 1);
    }
  }

  /** W4: one separator between two European numbers, or a common one between two numbers of one
      kind, becomes such a number; nothing else changes. */
  lemma SeparatorBetween(ty: Types, k: nat, n: Class)
    requires k < |ty| && n != ty[k]
    ensures W4(ty)[k] == n <==>
      && 0 < k < |ty| - 1 && ty[k - 1] == n && ty[k + 1] == n
      && ((n == EN && (ty[k] == ES || ty[k] == CS)) || (n == AN && ty[k] == CS))
  {
  }

  /** W5: a whole stretch of terminators becomes European numbers just when one is next to it. */
  lemma TerminatorsBeside(ty: Types, s: nat, e: nat, k: nat)
    requires s <= k < e <= |ty| && forall x :: s <= x < e ==> ty[x] == ET
    requires (s > 0 ==> ty[s - 1] != ET) && (e < |ty| ==> ty[e] != ET)
    ensures W5(ty)[k] == if (s > 0 && ty[s - 1] == EN) || (e < |ty| && ty[e] == EN) then EN else ET
  {
    StretchIs(ty, Terminator, s, e, k);
  }

  /** W7: a European number is L just when the last of L and R before it is L. */
  lemma {:induction false} NumberAfterLeft(ty: Types, sos: Class, j: nat, k: nat)
    requires j < k <= |ty| && (ty[j] == L || ty[j] == R)
    requires forall x :: j < x < k ==> ty[x] != L && ty[x] != R
    ensures DirectionBefore(ty, sos, k) == ty[j]
    ensures k < |ty| && ty[k] == EN ==> W7(ty, sos)[k] == if ty[j] == L then L else EN
    decreases k
  {
    if j < k - 1 {
      NumberAfterLeft(ty, sos, j, k - 1);
    }
  }

  lemma {:induction false} NumberFirstLeft(ty: Types, sos: Class, k: nat)
    requires k <= |ty| && forall x :: 0 <= x < k ==> ty[x] != L && ty[x] != R
    ensures DirectionBefore(ty, sos, k) == sos
    ensures k < |ty| && ty[k] == EN ==> W7(ty, sos)[k] == if sos == L then L else EN
  {
    if k > 0 {
      NumberFirstLeft(ty, sos, k - 1);
    }
  }
}
