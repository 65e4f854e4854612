/** Bracket pairs (N0), neutrals (N1, N2) and implicit levels (I1, I2) in one isolating run
    sequence. */
module BidiNeutral {
  import opened Wrappers
  import opened BidiTypes
  import opened BidiWeak

  datatype Bracket = Bracket(id: int, opens: bool)

  type Brackets = seq<Option<Bracket>>

  const MAX_BRACKETS: nat := 63

  // ------------------------------------------------------------ bracket pairs

  /** The topmost stack entry with this bracket, or |stack|. */
  function TopMatch(stack: seq<(int, nat)>, id: int): (s: nat)
    ensures s <= |stack| && (s < |stack| ==> stack[s].0 == id)
    ensures forall x :: (if s < |stack| then s + 1 else 0) <= x < |stack| ==> stack[x].0 != id
  {
    if stack == [] then 0
    else
      var n := |stack| - 1;
      if stack[n].0 == id then n
      else var s := TopMatch(stack[..n], id); if s < n then s else |stack|
  }

  /** A place that counts as a bracket. */
  predicate Live(ty: Types, br: Brackets, k: nat)
    requires |br| == |ty| && k < |ty|
  {
    br[k].Some? && ty[k] == ON
  }

  /** The pairs found from place k on, with the openers on the stack so far. */
  ghost function PairsFrom(ty: Types, br: Brackets, k: nat, stack: seq<(int, nat)>): seq<(nat, nat)>
    requires |br| == |ty| && k <= |ty|
    decreases |ty| - k
  {
    if k == |ty| then []
    else if !Live(ty, br, k) then PairsFrom(ty, br, k + 1, stack)
    else if br[k].value.opens then
      if |stack| == MAX_BRACKETS then [] else PairsFrom(ty, br, k + 1, stack + [(br[k].value.id, k)])
    else
      var s := TopMatch(stack, br[k].value.id);
      if s == |stack| then PairsFrom(ty, br, k + 1, stack)
      else [(stack[s].1, k)] + PairsFrom(ty, br, k + 1, stack[..s])
  }

  method FindPairs(ty: Types, br: Brackets) returns (pairs: seq<(nat, nat)>)
    requires |br| == |ty|
    ensures pairs == PairsFrom(ty, br, 0, [])
  {
    pairs := [];
    var stack: seq<(int, nat)> := [];
    var k: nat := 0;
    while k < |ty|
      invariant k <= |ty| && PairsFrom(ty, br, 0, []) == pairs + PairsFrom(ty, br, k, stack)
      decreases |ty| - k
    {
      if !Live(ty, br, k) {
      } else if br[k].value.opens {
        if |stack| == MAX_BRACKETS {
          break;
        }
        stack := stack + [(br[k].value.id, k)];
      } else {
        var s := FindTop(stack, br[k].value.id);
        if s < |stack| {
          assert pairs + ([(stack[s].1, k)] + PairsFrom(ty, br, k + 1, stack[..s]))
              == (pairs + [(stack[s].1, k)]) + PairsFrom(ty, br, k + 1, stack[..s]);
          pairs := pairs + [(stack[s].1, k)];
          stack := stack[..s];
        }
      }
      k := k + 1;
    }
  }

  method FindTop(stack: seq<(int, nat)>, id: int) returns (s: nat)
    ensures s == TopMatch(stack, id)
  {
    var i: nat := |stack|;
    while i > 0
      invariant i <= |stack| && forall x :: i <= x < |stack| ==> stack[x].0 != id
    {
      i := i - 1;
      if stack[i].0 == id {
        return i;
      }
    }
    s := |stack|;
  }

  /** Every pair is an opener and a later closer of the same bracket, both live. */
  ghost predicate IsPair(ty: Types, br: Brackets, p: (nat, nat)) {
    && p.0 < p.1 < |ty| == |br| && ty[p.0] == ON && ty[p.1] == ON && br[p.0].Some? && br[p.1].Some?
    && br[p.0].value.opens && !br[p.1].value.opens && br[p.0].value.id == br[p.1].value.id
  }

  /** Openers on the stack: live, in order, before k. */
  ghost predicate Openers(ty: Types, br: Brackets, stack: seq<(int, nat)>, k: nat) {
    && |br| == |ty| && k <= |ty|
    && (forall s :: 0 <= s < |stack| ==>
          stack[s].1 < k && Live(ty, br, stack[s].1) && br[stack[s].1].value == Bracket(stack[s].0, true))
    && (forall s, s' :: 0 <= s < s' < |stack| ==> stack[s].1 < stack[s'].1)
  }

  ghost predicate Apart(p: (nat, nat), q: (nat, nat)) {
    p.1 < q.0 || q.1 < p.0 || (p.0 < q.0 && q.1 < p.1) || (q.0 < p.0 && p.1 < q.1)
  }

  ghost predicate OnStack(stack: seq<(int, nat)>, i: nat) { exists s :: 0 <= s < |stack| && stack[s].1 == i }

  /** Pairs found from k on close at k or later, and open there or at an opener on the stack. */
  ghost predicate Later(stack: seq<(int, nat)>, p: (nat, nat), k: nat) {
    k <= p.1 && (k <= p.0 || OnStack(stack, p.0))
  }

  /** All found pairs are real and later, any two nested or side by side. */
  ghost predicate Nested(ty: Types, br: Brackets, k: nat, stack: seq<(int, nat)>, ps: seq<(nat, nat)>) {
    && (forall x :: 0 <= x < |ps| ==> IsPair(ty, br, ps[x]) && Later(stack, ps[x], k))
    && (forall x, y :: 0 <= x < y < |ps| ==> Apart(ps[x], ps[y]))
  }

  lemma NestedSkip(ty: Types, br: Brackets, k: nat, stack: seq<(int, nat)>, ps: seq<(nat, nat)>)
    requires Nested(ty, br, k + 1, stack, ps)
    ensures Nested(ty, br, k, stack, ps)
  {
  }

  lemma NestedOpen(ty: Types, br: Brackets, k: nat, stack: seq<(int, nat)>, id: int, ps: seq<(nat, nat)>)
    requires Nested(ty, br, k + 1, stack + [(id, k)], ps)
    ensures Nested(ty, br, k, stack, ps)
  {
    var more := stack + [(id, k)];
    forall x | 0 <= x < |ps| ensures Later(stack, ps[x], k) {
      assert Later(more, ps[x], k + 1);
      if ps[x].0 < k {
        var s :| 0 <= s < |more| && more[s].1 == ps[x].0;
        assert stack[s].1 == ps[x].0;
      }
    }
  }

  lemma NestedClose(ty: Types, br: Brackets, k: nat, stack: seq<(int, nat)>, s: nat, ps: seq<(nat, nat)>)
    requires Openers(ty, br, stack, k) && s < |stack| && Nested(ty, br, k + 1, stack[..s], ps)
    requires IsPair(ty, br, (stack[s].1, k))
    ensures Nested(ty, br, k, stack, [(stack[s].1, k)] + ps)
  {
    var p := (stack[s].1, k);
    assert OnStack(stack, p.0);
    forall x | 0 <= x < |ps| ensures Apart(p, ps[x]) && Later(stack, ps[x], k) {
      assert Later(stack[..s], ps[x], k + 1);
      if ps[x].0 <= k {
        var s' :| 0 <= s' < |stack[..s]| && stack[..s][s'].1 == ps[x].0;
        assert stack[s'].1 == ps[x].0;
      }
    }
  }

  /** BD16: the pairs are real, and any two are nested or side by side. */
  lemma {:induction false} PairsNest(ty: Types, br: Brackets, k: nat, stack: seq<(int, nat)>)
    requires Openers(ty, br, stack, k)
    ensures Nested(ty, br, k, stack, PairsFrom(ty, br, k, stack))
    decreases |ty| - k
  {
    if k == |ty| {
    } else if !Live(ty, br, k) {
      PairsNest(ty, br, k + 1, stack);
      NestedSkip(ty, br, k, stack, PairsFrom(ty, br, k + 1, stack));
    } else if br[k].value.opens {
      if |stack| != MAX_BRACKETS {
        var more := stack + [(br[k].value.id, k)];
        PairsNest(ty, br, k + 1, more);
        NestedOpen(ty, br, k, stack, br[k].value.id, PairsFrom(ty, br, k + 1, more));
      }
    } else {
      var s := TopMatch(stack, br[k].value.id);
      if s == |stack| {
        PairsNest(ty, br, k + 1, stack);
        NestedSkip(ty, br, k, stack, PairsFrom(ty, br, k + 1, stack));
      } else {
        PairsNest(ty, br, k + 1, stack[..s]);
        NestedClose(ty, br, k, stack, s, PairsFrom(ty, br, k + 1, stack[..s]));
      }
    }
  }

  // ---------------------------------------------------------- in opener order

  function InsertPair(p: (nat, nat), ps: seq<(nat, nat)>): (r: seq<(nat, nat)>)
    ensures |r| == |ps| + 1 && multiset(r) == multiset(ps) + multiset{p}
  {
    if ps == [] then [p]
    else if p.0 <= ps[0].0 then assert ps == [ps[0]] + ps[1..]; [p] + ps
    else
      assert ps == [ps[0]] + ps[1..];
      [ps[0]] + InsertPair(p, ps[1..])
  }

  /** The pairs in order of their openers, which are all different. */
  function SortPairs(ps: seq<(nat, nat)>): (r: seq<(nat, nat)>)
    ensures multiset(r) == multiset(ps)
  {
    if ps == [] then []
    else
      assert ps == [ps[0]] + ps[1..];
      InsertPair(ps[0], SortPairs(ps[1..]))
  }

  ghost predicate ByOpener(ps: seq<(nat, nat)>) {
    forall x, y :: 0 <= x < y < |ps| ==> ps[x].0 <= ps[y].0
  }

  lemma {:induction false} InsertInOrder(p: (nat, nat), ps: seq<(nat, nat)>)
    requires ByOpener(ps)
    ensures ByOpener(InsertPair(p, ps))
    ensures forall x :: 0 <= x < |InsertPair(p, ps)| ==> InsertPair(p, ps)[x] == p || InsertPair(p, ps)[x] in ps
  {
    if ps != [] && p.0 > ps[0].0 {
      InsertInOrder(p, ps[1..]);
      var t := InsertPair(p, ps[1..]);
      forall x | 0 <= x < |t| ensures ps[0].0 <= t[x].0 {
        if t[x] != p {
          assert t[x] in ps[1..];
        }
      }
    }
  }

  lemma {:induction false} SortedByOpener(ps: seq<(nat, nat)>)
    ensures ByOpener(SortPairs(ps))
  {
    if ps != [] {
      SortedByOpener(ps[1..]);
      InsertInOrder(ps[0], SortPairs(ps[1..]));
    }
  }

  // ------------------------------------------------------------ how many are followed

  /** n openers of one bracket, and as many closers after them. */
  ghost predicate OneNest(ty: Types, br: Brackets, n: nat, id: int) {
    && |ty| == |br| == 2 * n
    && forall x :: 0 <= x < 2 * n ==> ty[x] == ON && br[x] == Some(Bracket(id, x < n))
  }

  ghost function Stacked(id: int, m: nat): (r: seq<(int, nat)>)
    ensures |r| == m
  {
    seq(m, x requires 0 <= x < m => (id, x))
  }

  lemma {:induction false} NestOpens(ty: Types, br: Brackets, n: nat, id: int, k: nat)
    requires OneNest(ty, br, n, id) && k <= n && k <= 63
    ensures PairsFrom(ty, br, 0, []) == PairsFrom(ty, br, k, Stacked(id, k))
  {
    if k > 0 {
      NestOpens(ty, br, n, id, k - 1);
      assert Live(ty, br, k - 1) && Stacked(id, k - 1) + [(id, k - 1)] == Stacked(id, k);
    } else {
      assert Stacked(id, 0) == [];
    }
  }

  lemma {:induction false} NestCloses(ty: Types, br: Brackets, n: nat, id: int, j: nat)
    requires OneNest(ty, br, n, id) && j <= n
    ensures var ps := PairsFrom(ty, br, n + j, Stacked(id, n - j));
      |ps| == n - j && forall x :: 0 <= x < n - j ==> ps[x] == (n - 1 - j - x, n + j + x)
    decreases n - j
  {
    if j < n {
      var m := n - j;
      assert Live(ty, br, n + j) && TopMatch(Stacked(id, m), id) == m - 1;
      assert Stacked(id, m)[..m - 1] == Stacked(id, m - 1);
      NestCloses(ty, br, n, id, j + 1);
    }
  }

  /** Up to 63 nested pairs are all found, inside out; with one more opener none is. */
  lemma NestFound(ty: Types, br: Brackets, n: nat, id: int)
    requires OneNest(ty, br, n, id)
    ensures var ps := PairsFrom(ty, br, 0, []);
      if n <= 63 then |ps| == n && forall x :: 0 <= x < n ==> ps[x] == (n - 1 - x, n + x) else ps == []
  {
    if n <= 63 {
      NestOpens(ty, br, n, id, n);
      NestCloses(ty, br, n, id, 0);
    } else {
      NestOpens(ty, br, n, id, 63);
      assert Live(ty, br, 63);
    }
  }

  // -------------------------------------------------------------------- N0

  /** The direction a character counts as; numbers count as R. */
  function StrongOf(c: Class): Option<Class> {
    if c == L then Some(L) else if c == R || c == EN || c == AN then Some(R) else None
  }

  /** The strong direction between lo and hi: e if there is one, else the other, if any. */
  ghost function FoundInside(ty: Types, lo: nat, hi: nat, e: Class): Option<Class>
    requires hi <= |ty|
  {
    if exists k :: lo <= k < hi && StrongOf(ty[k]) == Some(e) then Some(e)
    else if exists k :: lo <= k < hi && StrongOf(ty[k]).Some? then Some(if e == L then R else L)
    else None
  }

  /** The strong direction before place k. */
  ghost function FoundBefore(ty: Types, sos: Class, k: nat): Class
    requires k <= |ty|
  {
    if k == 0 then sos
    else match StrongOf(ty[k - 1])
      case Some(d) => d
      case None => FoundBefore(ty, sos, k - 1)
  }

  /** The direction of a bracket pair: the embedding direction if found inside; else, when
      the other is found inside, the direction before the pair if that is the other too, and
      the embedding direction otherwise; none when nothing strong is inside. */
  ghost function PairDirection(ty: Types, p: (nat, nat), e: Class, sos: Class): Option<Class>
    requires p.0 < p.1 < |ty|
  {
    match FoundInside(ty, p.0 + 1, p.1, e)
    case None => None
    case Some(d) => if d == e then Some(e) else Some(FoundBefore(ty, sos, p.0))
  }

  /** The marks right after a bracket take its new type. */
  ghost function MarksEnd(orig: Types, k: nat): (m: nat)
    requires k <= |orig|
    ensures k <= m <= |orig|
  {
    StretchEnd(orig, Mark, k)
  }

  predicate Mark(c: Class) { c == NSM }

  ghost function SetPair(ty: Types, orig: Types, p: (nat, nat), d: Class): (r: Types)
    requires |orig| == |ty| && p.0 < p.1 < |ty|
    ensures |r| == |ty|
  {
    seq(|ty|, k requires 0 <= k < |ty| =>
      if k == p.0 || k == p.1 || p.0 < k < MarksEnd(orig, p.0 + 1) || p.1 < k < MarksEnd(orig, p.1 + 1) then d
      else ty[k])
  }

  ghost function OnePair(ty: Types, orig: Types, p: (nat, nat), e: Class, sos: Class): (r: Types)
    requires |orig| == |ty| && p.0 < p.1 < |ty|
    ensures |r| == |ty|
  {
    match PairDirection(ty, p, e, sos)
    case None => ty
    case Some(d) => SetPair(ty, orig, p, d)
  }

  /** All pairs one after the other, each seeing what the ones before made. */
  ghost function AllPairs(ty: Types, orig: Types, ps: seq<(nat, nat)>, e: Class, sos: Class): (r: Types)
    requires |orig| == |ty| && forall x :: 0 <= x < |ps| ==> ps[x].0 < ps[x].1 < |ty|
    ensures |r| == |ty|
    decreases |ps|
  {
    if ps == [] then ty else AllPairs(OnePair(ty, orig, ps[0], e, sos), orig, ps[1..], e, sos)
  }

  /** c counts as direction d: numbers count as R. */
  ghost predicate Counts(c: Class, d: Class) {
    (d == L && c == L) || (d == R && (c == R || c == EN || c == AN))
  }

  /** A pair with the embedding direction inside takes it; one with only the other inside takes
      what stands before it; one with neither stays. */
  lemma PairTakes(ty: Types, p: (nat, nat), e: Class, sos: Class)
    requires p.0 < p.1 < |ty| && Direction(e)
    ensures var other := if e == L then R else L;
      var same := exists k :: p.0 < k < p.1 && Counts(ty[k], e);
      var opposite := exists k :: p.0 < k < p.1 && Counts(ty[k], other);
      PairDirection(ty, p, e, sos) ==
      if same then Some(e) else if opposite then Some(FoundBefore(ty, sos, p.0)) else None
  {
    var other := if e == L then R else L;
    forall k | p.0 < k < p.1
      ensures Counts(ty[k], e) <==> StrongOf(ty[k]) == Some(e)
      ensures StrongOf(ty[k]).Some? <==> Counts(ty[k], e) || Counts(ty[k], other)
    {
    }
  }

  /** What stands before is the last strong direction, sos if there is none. */
  lemma {:induction false} FoundBeforeIs(ty: Types, sos: Class, j: nat, k: nat)
    requires j <= k <= |ty| && forall x :: j <= x < k ==> !Counts(ty[x], L) && !Counts(ty[x], R)
    ensures j == 0 ==> FoundBefore(ty, sos, k) == sos
    ensures j > 0 && Counts(ty[j - 1], L) ==> FoundBefore(ty, sos, k) == L
    ensures j > 0 && Counts(ty[j - 1], R) ==> FoundBefore(ty, sos, k) == R
    decreases k
  {
    if j < k {
      FoundBeforeIs(ty, sos, j, k - 1);
    }
  }

  /** The brackets and the marks right after each take the direction, nothing else changes. */
  lemma SetPairIs(ty: Types, orig: Types, p: (nat, nat), d: Class, k: nat)
    requires |orig| == |ty| && p.0 < p.1 < |ty| && k < |ty|
    ensures SetPair(ty, orig, p, d)[k] ==
      if k == p.0 || k == p.1 || MarksFrom(orig, p.0, k) || MarksFrom(orig, p.1, k) then d else ty[k]
  {
    MarksFromIs(orig, p.0, k);
    MarksFromIs(orig, p.1, k);
  }

  /** From b to k there are only nonspacing marks. */
  ghost predicate MarksFrom(orig: Types, b: nat, k: nat)
    requires k < |orig|
  {
    b < k && forall x :: b < x <= k ==> orig[x] == NSM
  }

  lemma MarksFromIs(orig: Types, b: nat, k: nat)
    requires b < |orig| && k < |orig|
    ensures MarksFrom(orig, b, k) <==> b < k < MarksEnd(orig, b + 1)
  {
  }

  method Inside(ty: Types, lo: nat, hi: nat, e: Class) returns (found: Option<Class>)
    requires hi <= |ty| && Direction(e)
    ensures found == FoundInside(ty, lo, hi, e)
  {
    found := None;
    var k := lo;
    while k < hi
      invariant lo <= k && forall j :: lo <= j < k && j < hi ==> StrongOf(ty[j]) != Some(e)
      invariant found == if exists j :: lo <= j < k && j < hi && StrongOf(ty[j]).Some?
                         then Some(if e == L then R else L) else None
    {
      var s := StrongOf(ty[k]);
      if s == Some(e) {
        return Some(e);
      }
      if s.Some? {
        found := s;
      }
      k := k + 1;
    }
  }

  method Before(ty: Types, sos: Class, o: nat) returns (before: Class)
    requires o <= |ty|
    ensures before == FoundBefore(ty, sos, o)
  {
    var k: nat := o;
    while k > 0
      invariant k <= o && FoundBefore(ty, sos, o) == FoundBefore(ty, sos, k)
    {
      k := k - 1;
      var s := StrongOf(ty[k]);
      if s.Some? {
        return s.value;
      }
    }
    before := sos;
  }

  method SetMarks(ty0: Types, orig: Types, b: nat, d: Class) returns (ty: Types)
    requires b < |ty0| == |orig|
    ensures |ty| == |ty0|
    ensures forall k :: 0 <= k < |ty| ==> ty[k] == if b < k < MarksEnd(orig, b + 1) then d else ty0[k]
  {
    ty := ty0;
    var k := b + 1;
    while k < |ty| && orig[k] == NSM
      invariant b < k <= |ty| == |ty0| && StretchEnd(orig, Mark, k) == MarksEnd(orig, b + 1)
      invariant forall j :: 0 <= j < |ty| ==> ty[j] == if b < j < k then d else ty0[j]
    {
      ty := ty[k := d];
      k := k + 1;
    }
  }

  lemma BeforeIsDirection(ty: Types, sos: Class, k: nat)
    requires k <= |ty| && Direction(sos)
    ensures Direction(FoundBefore(ty, sos, k))
    decreases k
  {
    if k > 0 {
      BeforeIsDirection(ty, sos, k - 1);
    }
  }

  lemma NothingInside(ty: Types, orig: Types, p: (nat, nat), e: Class, sos: Class)
    requires |orig| == |ty| && p.0 < p.1 < |ty| && FoundInside(ty, p.0 + 1, p.1, e).None?
    ensures OnePair(ty, orig, p, e, sos) == ty
  {
  }

  lemma SameInside(ty: Types, orig: Types, p: (nat, nat), e: Class, sos: Class)
    requires |orig| == |ty| && p.0 < p.1 < |ty| && FoundInside(ty, p.0 + 1, p.1, e) == Some(e)
    ensures OnePair(ty, orig, p, e, sos) == SetPair(ty, orig, p, e)
  {
    hide FoundInside, SetPair;
  }

  lemma OtherInside(ty: Types, orig: Types, p: (nat, nat), e: Class, sos: Class, d: Class)
    requires |orig| == |ty| && p.0 < p.1 < |ty| && FoundInside(ty, p.0 + 1, p.1, e) == Some(d) && d != e
    ensures OnePair(ty, orig, p, e, sos) == SetPair(ty, orig, p, FoundBefore(ty, sos, p.0))
  {
    hide FoundInside, FoundBefore, SetPair;
  }

  method ResolvePair(ty0: Types, orig: Types, p: (nat, nat), e: Class, sos: Class) returns (ty: Types)
    requires |orig| == |ty0| && p.0 < p.1 < |ty0| && Direction(e) && Direction(sos)
    ensures ty == OnePair(ty0, orig, p, e, sos)
  {
    hide OnePair, SetPair, FoundInside, FoundBefore;
    var found := Inside(ty0, p.0 + 1, p.1, e);
    if found.None? {
      NothingInside(ty0, orig, p, e, sos);
      return ty0;
    }
    var d := found.value;
    if d != e {
      OtherInside(ty0, orig, p, e, sos, d);
      var before := Before(ty0, sos, p.0);
      d := if before != e then before else e;
    } else {
      SameInside(ty0, orig, p, e, sos);
    }
    ty := SetBoth(ty0, orig, p, d);
  }

  method SetBoth(ty0: Types, orig: Types, p: (nat, nat), d: Class) returns (ty: Types)
    requires |orig| == |ty0| && p.0 < p.1 < |ty0|
    ensures ty == SetPair(ty0, orig, p, d)
  {
    hide StretchEnd;
    ty := ty0[p.0 := d][p.1 := d];
    ty := SetMarks(ty, orig, p.0, d);
    ty := SetMarks(ty, orig, p.1, d);
  }

  method ResolveBrackets(ty0: Types, orig: Types, br: Brackets, e: Class, sos: Class) returns (ty: Types)
    requires |br| == |orig| == |ty0| && Direction(e) && Direction(sos)
    ensures RealPairs(ty0, br) && ty == AllPairs(ty0, orig, SortPairs(PairsFrom(ty0, br, 0, [])), e, sos)
  {
    hide PairsFrom, SortPairs, Live, OnePair, AllPairs;
    var found := FindPairs(ty0, br);
    PairsAreReal(ty0, br);
    var pairs := SortPairs(found);
    ty := ty0;
    assert pairs[0..] == pairs;
    for x := 0 to |pairs|
      invariant |ty| == |ty0| && AllPairs(ty0, orig, pairs, e, sos) == AllPairs(ty, orig, pairs[x..], e, sos)
    {
      NextPair(ty, orig, pairs, x, e, sos);
      ty := ResolvePair(ty, orig, pairs[x], e, sos);
    }
    NoPairLeft(ty, orig, e, sos);
  }

  lemma NextPair(ty: Types, orig: Types, ps: seq<(nat, nat)>, x: nat, e: Class, sos: Class)
    requires |orig| == |ty| && x < |ps| && forall y :: 0 <= y < |ps| ==> ps[y].0 < ps[y].1 < |ty|
    ensures AllPairs(ty, orig, ps[x..], e, sos) == AllPairs(OnePair(ty, orig, ps[x], e, sos), orig, ps[x + 1..], e, sos)
  {
    hide OnePair;
    assert ps[x..][1..] == ps[x + 1..];
  }

  lemma NoPairLeft(ty: Types, orig: Types, e: Class, sos: Class)
    requires |orig| == |ty|
    ensures AllPairs(ty, orig, [], e, sos) == ty
  {
  }

  ghost predicate RealPairs(ty: Types, br: Brackets) {
    |br| == |ty| &&
    var ps := SortPairs(PairsFrom(ty, br, 0, []));
    forall x :: 0 <= x < |ps| ==> IsPair(ty, br, ps[x])
  }

  lemma PairsAreReal(ty: Types, br: Brackets)
    requires |br| == |ty|
    ensures RealPairs(ty, br)
  {
    PairsNest(ty, br, 0, []);
    var ps := PairsFrom(ty, br, 0, []);
    var sorted := SortPairs(ps);
    forall x | 0 <= x < |sorted| ensures IsPair(ty, br, sorted[x]) {
      assert sorted[x] in multiset(sorted);
      assert sorted[x] in multiset(ps);
      var y :| 0 <= y < |ps| && ps[y] == sorted[x];
    }
  }

  // ---------------------------------------------------------------- N1, N2

  /** N1, N2: neutrals from s to n between two equal directions take theirs, other neutrals
      the embedding direction. */
  function NeutralDirection(ty: Types, e: Class, sos: Class, eos: Class, s: nat, n: nat): Class
    requires s <= n <= |ty|
  {
    var before := if s == 0 then Some(sos) else StrongOf(ty[s - 1]);
    var after := if n == |ty| then Some(eos) else StrongOf(ty[n]);
    if before == after && before.Some? then before.value else e
  }

  ghost function NeutralAt(ty: Types, e: Class, sos: Class, eos: Class, k: nat): Class
    requires k < |ty|
  {
    if !Neutral(ty[k]) then ty[k]
    else NeutralDirection(ty, e, sos, eos, StretchStart(ty, Neutral, k), StretchEnd(ty, Neutral, k))
  }

  ghost function Neutrals(ty: Types, e: Class, sos: Class, eos: Class): (r: Types)
    ensures |r| == |ty|
  {
    seq(|ty|, k requires 0 <= k < |ty| => NeutralAt(ty, e, sos, eos, k))
  }

  /** A stretch of neutrals between two characters that count as one direction takes it; at the ends
      of the sequence sos and eos count. All other neutrals take the embedding direction, and what
      is no neutral keeps its type. */
  lemma NeutralsTake(ty: Types, e: Class, sos: Class, eos: Class, s: nat, n: nat, k: nat)
    requires s <= k < n <= |ty| && Direction(sos) && Direction(eos)
    requires (forall x :: 0 <= x < |ty| ==> Settled(ty[x])) && forall x :: s <= x < n ==> Neutral(ty[x])
    requires (s > 0 ==> !Neutral(ty[s - 1])) && (n < |ty| ==> !Neutral(ty[n]))
    ensures var left := if s > 0 then ty[s - 1] == L else sos == L;
      var right := if n < |ty| then ty[n] == L else eos == L;
      Neutrals(ty, e, sos, eos)[k] == if left && right then L else if !left && !right then R else e
    ensures forall x :: 0 <= x < |ty| && !Neutral(ty[x]) ==> Neutrals(ty, e, sos, eos)[x] == ty[x]
  {
    hide StretchStart, StretchEnd;
    StretchIs(ty, Neutral, s, n, k);
    assert NeutralAt(ty, e, sos, eos, k) == NeutralDirection(ty, e, sos, eos, s, n);
    SidesSettled(ty, s, n);
  }

  lemma SidesSettled(ty: Types, s: nat, n: nat)
    requires s <= n <= |ty| && forall x :: 0 <= x < |ty| ==> Settled(ty[x])
    requires (s > 0 ==> !Neutral(ty[s - 1])) && (n < |ty| ==> !Neutral(ty[n]))
    ensures s > 0 ==> StrongOf(ty[s - 1]) == Some(if ty[s - 1] == L then L else R)
    ensures n < |ty| ==> StrongOf(ty[n]) == Some(if ty[n] == L then L else R)
  {
  }

  lemma NeutralStretch(ty: Types, e: Class, sos: Class, eos: Class, s: nat, n: nat)
    requires s < |ty| && Neutral(ty[s]) && n == StretchEnd(ty, Neutral, s) && (s > 0 ==> !Neutral(ty[s - 1]))
    ensures s < n && forall j :: s <= j < n ==> Neutrals(ty, e, sos, eos)[j] == NeutralDirection(ty, e, sos, eos, s, n)
  {
    forall j | s <= j < n ensures NeutralAt(ty, e, sos, eos, j) == NeutralDirection(ty, e, sos, eos, s, n) {
      StretchIs(ty, Neutral, s, n, j);
    }
  }

  /** The types around a stretch are final, so both directions there exist. */
  lemma StretchSides(ty0: Types, ty: Types, f: Types, e: Class, sos: Class, eos: Class, s: nat, n: nat)
    requires f == Neutrals(ty0, e, sos, eos) && Half(f, ty0, ty, s) && s <= n <= |ty|
    requires (s > 0 ==> !Neutral(ty0[s - 1])) && (n < |ty| ==> !Neutral(ty0[n]))
    requires forall k :: 0 <= k < |ty0| ==> Settled(ty0[k])
    ensures s > 0 ==> ty[s - 1] == ty0[s - 1] && StrongOf(ty0[s - 1]).Some?
    ensures n < |ty| ==> ty[n] == ty0[n] && StrongOf(ty0[n]).Some?
  {
  }

  lemma SameDirection(ty0: Types, ty: Types, e: Class, sos: Class, eos: Class, s: nat, n: nat)
    requires |ty| == |ty0| && s <= n <= |ty|
    requires (s > 0 ==> ty[s - 1] == ty0[s - 1]) && (n < |ty| ==> ty[n] == ty0[n])
    ensures NeutralDirection(ty, e, sos, eos, s, n) == NeutralDirection(ty0, e, sos, eos, s, n)
  {
  }

  lemma StretchDone(ty0: Types, ty: Types, e: Class, sos: Class, eos: Class, s: nat, n: nat)
    requires (forall j :: 0 <= j < |ty0| ==> Settled(ty0[j])) && Half(Neutrals(ty0, e, sos, eos), ty0, ty, s)
    requires s < |ty| && Neutral(ty0[s]) && (s > 0 ==> !Neutral(ty0[s - 1])) && n == StretchEnd(ty0, Neutral, s)
    ensures s < n && (n < |ty| ==> !Neutral(ty0[n]))
    ensures var d := NeutralDirection(ty, e, sos, eos, s, n);
      Half(Neutrals(ty0, e, sos, eos), ty0, ty[..s] + seq(n - s, _ => d) + ty[n..], n)
  {
    var f := Neutrals(ty0, e, sos, eos);
    NeutralStretch(ty0, e, sos, eos, s, n);
    StretchSides(ty0, ty, f, e, sos, eos, s, n);
    SameDirection(ty0, ty, e, sos, eos, s, n);
    HalfStretch(f, ty0, ty, s, n, NeutralDirection(ty, e, sos, eos, s, n));
  }

  /** One stretch of neutrals, from s. */
  method ResolveStretch(ghost ty0: Types, ty: Types, e: Class, sos: Class, eos: Class, s: nat)
      returns (r: Types, k: nat)
    requires (forall j :: 0 <= j < |ty0| ==> Settled(ty0[j])) && Half(Neutrals(ty0, e, sos, eos), ty0, ty, s)
    requires s < |ty| && Neutral(ty[s]) && (s > 0 ==> !Neutral(ty0[s - 1]))
    ensures Half(Neutrals(ty0, e, sos, eos), ty0, r, k) && s < k <= |r| == |ty0| && (k < |r| ==> !Neutral(ty0[k]))
  {
    k := FindEnd(ty, Neutral, s);
    HalfEnd(Neutrals(ty0, e, sos, eos), ty0, ty, Neutral, s, s);
    StretchDone(ty0, ty, e, sos, eos, s, k);
    var d := NeutralDirection(ty, e, sos, eos, s, k);
    r := ty[..s] + seq(k - s, _ => d) + ty[k..];
  }

  method ResolveNeutrals(ty0: Types, e: Class, sos: Class, eos: Class) returns (ty: Types)
    requires forall k :: 0 <= k < |ty0| ==> Settled(ty0[k])
    ensures ty == Neutrals(ty0, e, sos, eos)
  {
    hide Neutrals, Half, Settled, Neutral;
    ghost var f := Neutrals(ty0, e, sos, eos);
    ty := ty0;
    var k: nat := 0;
    HalfEnds(f, ty0, ty);
    while k < |ty|
      invariant |ty| == |ty0| && k <= |ty| && Half(f, ty0, ty, k)
      invariant 0 < k < |ty| ==> !Neutral(ty0[k]) || !Neutral(ty0[k - 1])
      decreases |ty| - k
    {
      HalfNext(ty0, ty, e, sos, eos, k);
      if Neutral(ty[k]) {
        ty, k := ResolveStretch(ty0, ty, e, sos, eos, k);
      } else {
        k := k + 1;
      }
    }
    HalfEnds(f, ty0, ty);
  }

  lemma HalfEnds(f: Types, ty0: Types, ty: Types)
    requires |f| == |ty0| == |ty|
    ensures ty == ty0 ==> Half(f, ty0, ty, 0)
    ensures Half(f, ty0, ty, |ty|) ==> ty == f
  {
  }

  /** What is not neutral is not changed. */
  lemma HalfNext(ty0: Types, ty: Types, e: Class, sos: Class, eos: Class, k: nat)
    requires Half(Neutrals(ty0, e, sos, eos), ty0, ty, k) && k < |ty|
    ensures ty[k] == ty0[k]
    ensures !Neutral(ty[k]) ==> Half(Neutrals(ty0, e, sos, eos), ty0, ty, k + 1)
  {
    hide StretchStart, StretchEnd;
  }

  // ------------------------------------------------------------- one sequence

  ghost function EmbeddingOf(level: nat): Class { if level % 2 == 1 then R else L }

  /** What a sequence's types become: t are its types after X1 to X8, orig its classes. */
  ghost function Resolved(t: Types, orig: Types, br: Brackets, level: nat, sos: Class, eos: Class): (r: Types)
    requires |orig| == |br| == |t|
    ensures |r| == |t|
  {
    var w, e := Weak(t, sos), EmbeddingOf(level);
    PairsAreReal(w, br);
    Neutrals(AllPairs(w, orig, SortPairs(PairsFrom(w, br, 0, [])), e, sos), e, sos, eos)
  }

  lemma {:induction false} AllPairsSettle(ty: Types, orig: Types, ps: seq<(nat, nat)>, e: Class, sos: Class)
    requires |orig| == |ty| && forall x :: 0 <= x < |ps| ==> ps[x].0 < ps[x].1 < |ty|
    requires Direction(e) && Direction(sos) && forall k :: 0 <= k < |ty| ==> Settled(ty[k])
    ensures forall k :: 0 <= k < |ty| ==> Settled(AllPairs(ty, orig, ps, e, sos)[k])
    decreases |ps|
  {
    if ps != [] {
      BeforeIsDirection(ty, sos, ps[0].0);
      AllPairsSettle(OnePair(ty, orig, ps[0], e, sos), orig, ps[1..], e, sos);
    }
  }

  predicate Final(c: Class) { c == L || c == R || c == EN || c == AN }

  /** Every kept character of a sequence ends as L, R, EN or AN. */
  lemma ResolvedIsFinal(t: Types, orig: Types, br: Brackets, level: nat, sos: Class, eos: Class)
    requires |orig| == |br| == |t| && Direction(sos) && Direction(eos)
    requires forall k :: 0 <= k < |t| ==> !Removed(t[k])
    ensures forall k :: 0 <= k < |t| ==> Final(Resolved(t, orig, br, level, sos, eos)[k])
  {
    var w, e := Weak(t, sos), EmbeddingOf(level);
    WeakSettles(t, sos);
    PairsAreReal(w, br);
    AllPairsSettle(w, orig, SortPairs(PairsFrom(w, br, 0, [])), e, sos);
  }

  method ResolveSequence(t: Types, orig: Types, br: Brackets, level: nat, sos: Class, eos: Class) returns (ty: Types)
    requires |orig| == |br| == |t| && Direction(sos) && Direction(eos)
    requires forall k :: 0 <= k < |t| ==> !Removed(t[k])
    ensures ty == Resolved(t, orig, br, level, sos, eos)
  {
    ty := WeakRules(t, sos);
    WeakSettles(t, sos);
    var e := if level % 2 == 1 then R else L;
    PairsAreReal(ty, br);
    AllPairsSettle(ty, orig, SortPairs(PairsFrom(ty, br, 0, [])), e, sos);
    ty := ResolveBrackets(ty, orig, br, e, sos);
    ty := ResolveNeutrals(ty, e, sos, eos);
  }

  // ---------------------------------------------------------------- I1, I2

  /** The level of a resolved type. */
  function Implicit(level: nat, c: Class): nat {
    if level % 2 == 1 then if c == L || c == EN || c == AN then level + 1 else level
    else if c == R then level + 1
    else if c == AN || c == EN then level + 2
    else level
  }

  /** m suits a resolved character: not below its explicit level, odd for R and even for all
      others, and above the explicit level for a number. */
  ghost predicate Suits(level: nat, c: Class, m: nat) {
    m >= level && (m % 2 == 1 <==> c == R) && (c == EN || c == AN ==> m > level)
  }

  ghost predicate LeastSuited(level: nat, c: Class, m: nat) {
    Suits(level, c, m) && forall n: nat :: Suits(level, c, n) ==> m <= n
  }

  /** A resolved character's level is the least that suits it, and no other level is; that is at
      most two higher than before, and from an explicit level of at most 125 at most 126. */
  lemma ImplicitLevel(level: nat, c: Class, m: nat)
    requires Final(c)
    ensures m == Implicit(level, c) <==> LeastSuited(level, c, m)
    ensures level <= Implicit(level, c) <= level + 2
    ensures level <= MAX_DEPTH ==> Implicit(level, c) <= MAX_DEPTH + 1
  {
    var i := Implicit(level, c);
    assert Suits(level, c, i);
    if LeastSuited(level, c, m) {
      assert m <= i;
    }
  }

  /** What takes the embedding direction keeps its explicit level. */
  lemma EmbeddingKeepsLevel(level: nat)
    ensures Implicit(level, EmbeddingOf(level)) == level
  {
  }
}
