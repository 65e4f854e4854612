/** Attachments settled after positioning (propagate of lib/ufont/tools/shapemodel.py): a glyph
    moves with the one it is attached to, which may itself be attached to another. */
module Propagate {

  /** Advances, offsets, how far away the glyph that this one is attached to is (0 for none), and
      the kind of attachment. */
  datatype Pos = Pos(xa: int, ya: int, xo: int, yo: int, chain: int, cursive: bool, mark: bool)

  const MAX_NESTING: nat := 64

  // ---------------------------------------------------------------- what is attached to what

  predicate HasParent(p: seq<Pos>, i: nat)
    requires i < |p|
  {
    p[i].chain != 0 && 0 <= i + p[i].chain < |p|
  }

  function Parent(p: seq<Pos>, i: nat): (j: nat)
    requires i < |p| && HasParent(p, i)
    ensures j < |p|
  {
    i + p[i].chain
  }

  /** From i there are at most n attachments to a glyph that is not attached. */
  ghost predicate Rooted(p: seq<Pos>, i: nat, n: nat)
    requires i < |p|
    decreases n
  {
    HasParent(p, i) ==> n > 0 && Rooted(p, Parent(p, i), n - 1)
  }

  ghost predicate Forest(p: seq<Pos>, n: nat) { forall i: nat :: i < |p| ==> Rooted(p, i, n) }

  ghost function Depth(p: seq<Pos>, i: nat, n: nat): (d: nat)
    requires i < |p| && Rooted(p, i, n)
    ensures d <= n
    decreases n
  {
    if HasParent(p, i) then 1 + Depth(p, Parent(p, i), n - 1) else 0
  }

  lemma {:induction false} DepthStable(p: seq<Pos>, i: nat, m: nat, n: nat)
    requires i < |p| && Rooted(p, i, m) && m <= n
    ensures Rooted(p, i, n) && Depth(p, i, n) == Depth(p, i, m)
    decreases m
  {
    if HasParent(p, i) {
      DepthStable(p, Parent(p, i), m - 1, n - 1);
    }
  }

  // ------------------------------------------------------------------- final offsets

  function SumX(p: seq<Pos>, lo: nat, hi: nat): int
    requires hi <= |p|
  {
    if hi <= lo then 0 else SumX(p, lo, hi - 1) + p[hi - 1].xa
  }

  function SumY(p: seq<Pos>, lo: nat, hi: nat): int
    requires hi <= |p|
  {
    if hi <= lo then 0 else SumY(p, lo, hi - 1) + p[hi - 1].ya
  }

  datatype Point = Point(x: int, y: int)

  /** Back over the advances from the glyph attached to up to this one, or in a text from right to
      left forward over those after it up to and with this one. */
  function Between(p: seq<Pos>, j: nat, i: nat, rtl: bool): Point
    requires j < |p| && i < |p|
  {
    if rtl then Point(SumX(p, j + 1, i + 1), SumY(p, j + 1, i + 1)) else Point(-SumX(p, j, i), -SumY(p, j, i))
  }

  /** The offsets of a glyph in the end: its own, and for a cursive attachment the vertical offset
      the other glyph has in the end, for a mark both its offsets and the advances between. */
  function Final(p: seq<Pos>, i: nat, n: nat, rtl: bool): Point
    requires i < |p|
    decreases n
  {
    if !HasParent(p, i) || n == 0 then Point(p[i].xo, p[i].yo)
    else
      var f, b := Final(p, Parent(p, i), n - 1, rtl), Between(p, Parent(p, i), i, rtl);
      if p[i].cursive then Point(p[i].xo, p[i].yo + f.y)
      else if p[i].mark then Point(p[i].xo + f.x + b.x, p[i].yo + f.y + b.y)
      else Point(p[i].xo, p[i].yo)
  }

  lemma {:induction false} FinalStable(p: seq<Pos>, i: nat, m: nat, n: nat, rtl: bool)
    requires i < |p| && Rooted(p, i, m) && m <= n
    ensures Final(p, i, m, rtl) == Final(p, i, n, rtl)
    decreases m
  {
    if HasParent(p, i) {
      FinalStable(p, Parent(p, i), m - 1, n - 1, rtl);
    }
  }

  // -------------------------------------------------------------------------- where they are

  /** From left to right glyph i of p, moved to x and y, is to one moved to fx and fy at j as its
      own offsets say: each is drawn where the advances of all glyphs before it lead. */
  ghost predicate DrawnLtr(p: seq<Pos>, i: nat, x: int, y: int, j: nat, fx: int, fy: int)
    requires i < |p| && j < |p|
  {
    && SumX(p, 0, i) + x == SumX(p, 0, j) + fx + p[i].xo
    && SumY(p, 0, i) + y == SumY(p, 0, j) + fy + p[i].yo
  }

  /** From right to left the advances of the glyphs after it lead there. */
  ghost predicate DrawnRtl(p: seq<Pos>, i: nat, x: int, y: int, j: nat, fx: int, fy: int)
    requires i < |p| && j < |p|
  {
    && SumX(p, i + 1, |p|) + x == SumX(p, j + 1, |p|) + fx + p[i].xo
    && SumY(p, i + 1, |p|) + y == SumY(p, j + 1, |p|) + fy + p[i].yo
  }

  /** Glyph i, moved to x and y, is attached to the one at j that is moved to fx and fy: a cursive
      glyph only at the height of that one; a mark by its own offsets from where an earlier one is
      drawn, and from the other's offsets when that comes later. */
  ghost predicate Attached(p: seq<Pos>, i: nat, x: int, y: int, j: nat, fx: int, fy: int, rtl: bool)
    requires i < |p| && j < |p|
  {
    if p[i].cursive then x == p[i].xo && y == fy + p[i].yo
    else if !p[i].mark then x == p[i].xo && y == p[i].yo
    else if j > i then x == fx + p[i].xo && y == fy + p[i].yo
    else if rtl then DrawnRtl(p, i, x, y, j, fx, fy)
    else DrawnLtr(p, i, x, y, j, fx, fy)
  }

  lemma {:induction false} SumParts(p: seq<Pos>, lo: nat, mid: nat, hi: nat)
    requires lo <= mid <= hi <= |p|
    ensures SumX(p, lo, hi) == SumX(p, lo, mid) + SumX(p, mid, hi)
    ensures SumY(p, lo, hi) == SumY(p, lo, mid) + SumY(p, mid, hi)
    decreases hi
  {
    if mid < hi {
      SumParts(p, lo, mid, hi - 1);
    }
  }

  lemma SumOne(p: seq<Pos>, k: nat)
    requires k < |p|
    ensures SumX(p, k, k) == SumY(p, k, k) == 0
    ensures SumX(p, k, k + 1) == p[k].xa && SumY(p, k, k + 1) == p[k].ya
  {
  }

  /** In a forest each glyph ends up attached to its parent as its parent ends up, and there is no
      other place where it is; one without a parent stays where it was. */
  lemma FinalAttached(p: seq<Pos>, i: nat, n: nat, rtl: bool, x: int, y: int)
    requires i < |p| && Rooted(p, i, n)
    ensures !HasParent(p, i) ==> Final(p, i, n, rtl) == Point(p[i].xo, p[i].yo)
    ensures HasParent(p, i) ==>
      var f := Final(p, Parent(p, i), n, rtl);
      Attached(p, i, x, y, Parent(p, i), f.x, f.y, rtl) <==> Final(p, i, n, rtl) == Point(x, y)
  {
    if HasParent(p, i) {
      var j := Parent(p, i);
      FinalStable(p, j, n - 1, n, rtl);
      if j <= i {
        SumParts(p, 0, j, i);
        SumParts(p, j + 1, i + 1, |p|);
      }
    }
  }

  /** q is where the glyphs of p are when those in order are settled: each attached one to its
      parent, where that is one of them. */
  ghost predicate AllAttached(p: seq<Pos>, q: seq<Pos>, order: seq<nat>, rtl: bool)
    requires |p| == |q|
  {
    forall i: nat :: i < |p| && i in order ==>
      if !HasParent(p, i) then q[i].xo == p[i].xo && q[i].yo == p[i].yo
      else var j := Parent(p, i); j in order ==> Attached(p, i, q[i].xo, q[i].yo, j, q[j].xo, q[j].yo, rtl)
  }

  lemma SettledAttached(p: seq<Pos>, q: seq<Pos>, order: seq<nat>, n: nat, rtl: bool)
    requires Forest(p, n) && SettledTo(p, q, order, |order|, n, rtl)
    ensures AllAttached(p, q, order, rtl)
  {
    hide Attached, Final;
    assert order[..|order|] == order;
    forall i: nat | i < |p| && i in order
      ensures if !HasParent(p, i) then q[i].xo == p[i].xo && q[i].yo == p[i].yo
        else var j := Parent(p, i); j in order ==> Attached(p, i, q[i].xo, q[i].yo, j, q[j].xo, q[j].yo, rtl)
    {
      FinalAttached(p, i, n, rtl, q[i].xo, q[i].yo);
    }
  }

  // ---------------------------------------------------------------------- while it runs

  /** q differs from p at most in offsets and chains. */
  ghost predicate Alike(p: seq<Pos>, q: seq<Pos>) {
    |p| == |q| && forall k :: 0 <= k < |p| ==> q[k] == p[k].(xo := q[k].xo, yo := q[k].yo, chain := q[k].chain)
  }

  /** The glyph at k is in its final place, and no longer attached. */
  ghost predicate Settled(p: seq<Pos>, q: seq<Pos>, k: nat, n: nat, rtl: bool)
    requires k < |p| == |q|
  {
    q[k] == p[k].(xo := Final(p, k, n, rtl).x, yo := Final(p, k, n, rtl).y, chain := 0)
  }

  ghost predicate Ok(p: seq<Pos>, q: seq<Pos>, k: nat, n: nat, rtl: bool)
    requires k < |p| == |q|
  {
    q[k] == p[k] || Settled(p, q, k, n, rtl)
  }

  /** All glyphs with at most d attachments to a root are as they were or settled. */
  ghost predicate OkTo(p: seq<Pos>, q: seq<Pos>, d: int, n: nat, rtl: bool)
    requires Forest(p, n) && |p| == |q|
  {
    forall k: nat :: k < |p| && Depth(p, k, n) <= d ==> Ok(p, q, k, n, rtl)
  }

  /** What settling one glyph of depth d may change: glyphs of no greater depth, which become
      settled; those that were settled stay so. */
  ghost predicate Settles(p: seq<Pos>, q: seq<Pos>, r: seq<Pos>, d: nat, n: nat, rtl: bool)
    requires Forest(p, n) && |p| == |q| == |r|
  {
    forall k: nat :: k < |p| ==> r[k] == q[k] || (Depth(p, k, n) <= d && Settled(p, r, k, n, rtl))
  }

  lemma SumsAlike(p: seq<Pos>, q: seq<Pos>, lo: nat, hi: nat)
    requires Alike(p, q) && hi <= |p|
    ensures SumX(q, lo, hi) == SumX(p, lo, hi) && SumY(q, lo, hi) == SumY(p, lo, hi)
  {
    if lo < hi {
      SumsAlike(p, q, lo, hi - 1);
    }
  }

  /** Adds the advances from lo to hi to the offsets of the glyph at i, or takes them off. */
  method AddAdvances(pos: array<Pos>, i: nat, lo: nat, hi: nat, sign: int, ghost p: seq<Pos>)
    requires i < pos.Length && hi <= pos.Length && Alike(p, pos[..])
    modifies pos
    ensures var q := old(pos[..]);
      pos[..] == q[i := q[i].(xo := q[i].xo + sign * SumX(p, lo, hi), yo := q[i].yo + sign * SumY(p, lo, hi))]
  {
    ghost var q := pos[..];
    if hi <= lo {
      assert pos[..] == q[i := q[i]];
      return;
    }
    for k := lo to hi
      invariant pos[..] == q[i := q[i].(xo := q[i].xo + sign * SumX(p, lo, k), yo := q[i].yo + sign * SumY(p, lo, k))]
    {
      assert pos[k].xa == p[k].xa && pos[k].ya == p[k].ya;
      Distributes(sign, SumX(p, lo, k), p[k].xa);
      Distributes(sign, SumY(p, lo, k), p[k].ya);
      pos[i] := pos[i].(xo := pos[i].xo + sign * pos[k].xa, yo := pos[i].yo + sign * pos[k].ya);
    }
  }

  lemma Distributes(a: int, b: int, c: int)
    ensures a * (b + c) == a * b + a * c
  {
  }

  /** What the settling of glyph i can rely on when the glyphs p are a forest. */
  ghost predicate Expected(p: seq<Pos>, q: seq<Pos>, i: nat, nesting: nat, n: nat, rtl: bool) {
    && i < |p| == |q| && Forest(p, n) && Alike(p, q)
    && Depth(p, i, n) <= nesting && OkTo(p, q, Depth(p, i, n), n, rtl)
  }

  /** ... and what it does then. */
  ghost predicate Achieved(p: seq<Pos>, q: seq<Pos>, r: seq<Pos>, i: nat, n: nat, rtl: bool)
    requires i < |p| == |q| && Forest(p, n)
  {
    |r| == |p| && Alike(p, r) && Settles(p, q, r, Depth(p, i, n), n, rtl) && Settled(p, r, i, n, rtl)
  }

  lemma ExpectedAlike(p: seq<Pos>, q: seq<Pos>, i: nat, nesting: nat, n: nat, rtl: bool)
    requires Expected(p, q, i, nesting, n, rtl)
    ensures Alike(p, q)
  {
  }

  /** A glyph that is not attached, or no more, is in its place. */
  lemma NotAttached(p: seq<Pos>, q: seq<Pos>, i: nat, nesting: nat, n: nat, rtl: bool)
    requires Expected(p, q, i, nesting, n, rtl) && q[i].chain == 0
    ensures Achieved(p, q, q, i, n, rtl)
  {
  }

  /** A glyph attached to nothing that is there. */
  lemma NoParent(p: seq<Pos>, q: seq<Pos>, i: nat, nesting: nat, n: nat, rtl: bool)
    requires Expected(p, q, i, nesting, n, rtl) && q[i].chain != 0
    requires i + q[i].chain < 0 || i + q[i].chain >= |p| || nesting == 0
    ensures Achieved(p, q, q[i := q[i].(chain := 0)], i, n, rtl)
  {
    assert Ok(p, q, i, n, rtl);
    assert q[i] == p[i] && !HasParent(p, i);
  }

  /** The glyph that i is attached to is settled first, on what i can rely on too. */
  lemma ParentExpected(p: seq<Pos>, q: seq<Pos>, i: nat, nesting: nat, n: nat, rtl: bool)
    requires Expected(p, q, i, nesting, n, rtl) && q[i].chain != 0 && 0 <= i + q[i].chain < |p| && nesting > 0
    ensures q[i] == p[i] && HasParent(p, i) && Depth(p, i, n) == 1 + Depth(p, Parent(p, i), n)
    ensures Expected(p, q[i := q[i].(chain := 0)], Parent(p, i), nesting - 1, n, rtl)
  {
    assert Ok(p, q, i, n, rtl);
    var j := Parent(p, i);
    assert Rooted(p, i, n);
    DepthStable(p, j, n - 1, n);
  }

  /** Then i moves with it. */
  lemma MovesWith(p: seq<Pos>, q: seq<Pos>, q1: seq<Pos>, r: seq<Pos>, i: nat, nesting: nat, n: nat, rtl: bool)
    requires Expected(p, q, i, nesting, n, rtl) && HasParent(p, i) && q[i] == p[i]
    requires var j := Parent(p, i);
      && Depth(p, i, n) == 1 + Depth(p, j, n)
      && Achieved(p, q[i := q[i].(chain := 0)], q1, j, n, rtl)
      && var b := Between(p, j, i, rtl);
        r == q1[i := q1[i].(xo := q1[i].xo + (if !p[i].cursive && p[i].mark then q1[j].xo + b.x else 0),
                            yo := q1[i].yo + (if p[i].cursive then q1[j].yo
                                              else if p[i].mark then q1[j].yo + b.y else 0))]
    ensures Achieved(p, q, r, i, n, rtl)
  {
    hide SumX, SumY;
    var j := Parent(p, i);
    assert Rooted(p, i, n);
    FinalStable(p, j, n - 1, n, rtl);
    assert q1[i] == q[i].(chain := 0);
  }

  method Settle(pos: array<Pos>, i: nat, nesting: nat, rtl: bool, ghost p: seq<Pos>, ghost n: nat)
    requires i < pos.Length
    modifies pos
    ensures Alike(old(pos[..]), pos[..]) && pos[i].chain == 0
    ensures forall k :: 0 <= k < pos.Length ==> pos[k].chain == old(pos[k].chain) || pos[k].chain == 0
    ensures old(Expected(p, pos[..], i, nesting, n, rtl)) ==> Achieved(p, old(pos[..]), pos[..], i, n, rtl)
    decreases nesting
  {
    hide Expected, Achieved, SumX, SumY;
    ghost var q := pos[..];
    ghost var known := Expected(p, q, i, nesting, n, rtl);
    var chain, cursive, mark := pos[i].chain, pos[i].cursive, pos[i].mark;
    if chain == 0 {
      if known {
        NotAttached(p, q, i, nesting, n, rtl);
      }
      return;
    }
    assert q[i].chain == chain;
    pos[i] := pos[i].(chain := 0);
    assert pos[..] == q[i := q[i].(chain := 0)];
    var j := i + chain;
    if j >= pos.Length || j < 0 || nesting == 0 {
      if known {
        ExpectedAlike(p, q, i, nesting, n, rtl);
        NoParent(p, q, i, nesting, n, rtl);
      }
      return;
    }
    if known {
      ExpectedAlike(p, q, i, nesting, n, rtl);
      ParentExpected(p, q, i, nesting, n, rtl);
    }
    Settle(pos, j, nesting - 1, rtl, p, n);
    ghost var q1 := pos[..];
    if cursive {
      pos[i] := pos[i].(yo := pos[i].yo + pos[j].yo);
    } else if mark {
      pos[i] := pos[i].(xo := pos[i].xo + pos[j].xo, yo := pos[i].yo + pos[j].yo);
      if !rtl {
        AddAdvances(pos, i, j, i, -1, q);
      } else {
        AddAdvances(pos, i, j + 1, i + 1, 1, q);
      }
    }
    if known {
      SumsAlike(p, q, if rtl then j + 1 else j, if rtl then i + 1 else i);
      MovesWith(p, q, q1, pos[..], i, nesting, n, rtl);
    }
  }

  /** All glyphs, in the order given: each that comes up is settled, and if they are a forest at
      most as deep as the nesting allows, each is where its attachments put it. */
  method SettleAll(pos: array<Pos>, order: seq<nat>, rtl: bool)
    requires forall x :: 0 <= x < |order| ==> order[x] < pos.Length
    modifies pos
    ensures Alike(old(pos[..]), pos[..])
    ensures Forest(old(pos[..]), MAX_NESTING) ==>
      forall k: nat :: k < pos.Length ==>
        if k in order then Settled(old(pos[..]), pos[..], k, MAX_NESTING, rtl)
          else Ok(old(pos[..]), pos[..], k, MAX_NESTING, rtl)
    ensures Forest(old(pos[..]), MAX_NESTING) ==> AllAttached(old(pos[..]), pos[..], order, rtl)
  {
    hide Expected, Achieved, Settled, Forest, AllAttached;
    ghost var p := pos[..];
    ghost var known := Forest(p, MAX_NESTING);
    for x := 0 to |order|
      invariant Alike(p, pos[..])
      invariant known ==> SettledTo(p, pos[..], order, x, MAX_NESTING, rtl)
    {
      ghost var q := pos[..];
      if known {
        NextExpected(p, q, order, x, MAX_NESTING, rtl);
      }
      Settle(pos, order[x], MAX_NESTING, rtl, p, MAX_NESTING);
      if known {
        NextSettled(p, q, pos[..], order, x, MAX_NESTING, rtl);
      }
    }
    assert order[..|order|] == order;
    if known {
      SettledAttached(p, pos[..], order, MAX_NESTING, rtl);
    }
  }

  ghost predicate SettledTo(p: seq<Pos>, q: seq<Pos>, order: seq<nat>, x: nat, n: nat, rtl: bool) {
    && |p| == |q| && x <= |order|
    && forall k: nat :: k < |p| ==> if k in order[..x] then Settled(p, q, k, n, rtl) else Ok(p, q, k, n, rtl)
  }

  lemma NextExpected(p: seq<Pos>, q: seq<Pos>, order: seq<nat>, x: nat, n: nat, rtl: bool)
    requires SettledTo(p, q, order, x, n, rtl) && x < |order| && order[x] < |p| && Forest(p, n) && Alike(p, q)
    ensures Expected(p, q, order[x], n, n, rtl)
  {
    hide Final;
  }

  lemma NextSettled(p: seq<Pos>, q: seq<Pos>, r: seq<Pos>, order: seq<nat>, x: nat, n: nat, rtl: bool)
    requires SettledTo(p, q, order, x, n, rtl) && x < |order| && order[x] < |p| && Forest(p, n)
    requires Achieved(p, q, r, order[x], n, rtl)
    ensures SettledTo(p, r, order, x + 1, n, rtl)
  {
    hide Final;
    assert order[..x + 1] == order[..x] + [order[x]];
    forall k: nat | k < |p| ensures if k in order[..x + 1] then Settled(p, r, k, n, rtl) else Ok(p, r, k, n, rtl) {
      assert k in order[..x + 1] <==> k in order[..x] || k == order[x];
    }
  }
}
