/** Rule L2: from the levels of a line to the visual order of its characters, by reversing
    in place, and the closed form of that order. */
module BidiReorder {
  import opened Wrappers

  type Levels = seq<Option<nat>>

  predicate Kept(levels: Levels, i: int) { 0 <= i < |levels| && levels[i].Some? }

  /** The least level of the kept characters from i to j. */
  ghost function MinLevel(levels: Levels, i: nat, j: nat): nat
    requires i <= j && Kept(levels, i)
    decreases j - i
  {
    if i == j then levels[i].value
    else
      var m := MinLevel(levels, i, j - 1);
      if Kept(levels, j) && levels[j].value < m then levels[j].value else m
  }

  lemma {:induction false} MinLevelBelow(levels: Levels, i: nat, j: nat, c: nat)
    requires i <= c <= j && Kept(levels, i) && Kept(levels, c)
    ensures MinLevel(levels, i, j) <= levels[c].value
    decreases j - i
  {
    if c < j {
      MinLevelBelow(levels, i, j - 1, c);
    }
  }

  lemma {:induction false} MinLevelAttained(levels: Levels, i: nat, j: nat) returns (c: nat)
    requires i <= j && Kept(levels, i)
    ensures i <= c <= j && Kept(levels, c) && MinLevel(levels, i, j) == levels[c].value
    decreases j - i
  {
    if i == j || (Kept(levels, j) && levels[j].value < MinLevel(levels, i, j - 1)) {
      c := j;
    } else {
      c := MinLevelAttained(levels, i, j - 1);
    }
  }

  /** The least level over the text between two kept characters, in either order. */
  ghost function Least(levels: Levels, i: nat, j: nat): nat
    requires Kept(levels, i) && Kept(levels, j)
  {
    if i <= j then MinLevel(levels, i, j) else MinLevel(levels, j, i)
  }

  lemma LeastBelow(levels: Levels, i: nat, j: nat, c: nat)
    requires Kept(levels, i) && Kept(levels, j) && Kept(levels, c)
    requires i <= c <= j || j <= c <= i
    ensures Least(levels, i, j) <= levels[c].value
  {
    MinLevelBelow(levels, if i <= j then i else j, if i <= j then j else i, c);
  }

  lemma LeastAttained(levels: Levels, i: nat, j: nat) returns (c: nat)
    requires Kept(levels, i) && Kept(levels, j)
    ensures (i <= c <= j || j <= c <= i) && Kept(levels, c) && Least(levels, i, j) == levels[c].value
  {
    c := MinLevelAttained(levels, if i <= j then i else j, if i <= j then j else i);
  }

  /** Whether i stands left of j once the levels from l up have been reversed. */
  ghost predicate LeftOf(levels: Levels, l: nat, i: nat, j: nat) {
    && Kept(levels, i) && Kept(levels, j)
    && var m := Least(levels, i, j);
       if m < l then i < j else i < j <==> (m - l + 1) % 2 == 0
  }

  /** idx holds each kept character once. */
  ghost predicate Arranges(levels: Levels, idx: seq<nat>) {
    && (forall k :: 0 <= k < |idx| ==> Kept(levels, idx[k]))
    && (forall c :: Kept(levels, c) ==> c in idx)
    && (forall p, q :: 0 <= p < q < |idx| ==> idx[p] != idx[q])
  }

  ghost predicate Ordered(levels: Levels, l: nat, idx: seq<nat>) {
    forall p, q :: 0 <= p < q < |idx| ==> LeftOf(levels, l, idx[p], idx[q])
  }

  ghost predicate Tagged(levels: Levels, idx: seq<nat>, lv: seq<nat>) {
    |idx| == |lv| && forall k :: 0 <= k < |idx| ==> Kept(levels, idx[k]) && lv[k] == levels[idx[k]].value
  }

  // ------------------------------------------------------------- one level

  /** Where the stretch of levels at least l around k starts, and ends. */
  ghost function RunStart(lv: seq<nat>, l: nat, k: nat): (s: nat)
    requires k < |lv|
    ensures s <= k && forall c :: s <= c < k ==> lv[c] >= l
    ensures s > 0 ==> lv[s - 1] < l
  {
    if k == 0 || lv[k - 1] < l then k else RunStart(lv, l, k - 1)
  }

  ghost function RunEnd(lv: seq<nat>, l: nat, k: nat): (e: nat)
    requires k < |lv|
    ensures k < e <= |lv| && forall c :: k < c < e ==> lv[c] >= l
    ensures e < |lv| ==> lv[e] < l
    decreases |lv| - k
  {
    if k + 1 == |lv| || lv[k + 1] < l then k + 1 else RunEnd(lv, l, k + 1)
  }

  /** The place whose character comes to place k when the stretches of level l are reversed. */
  ghost function Mirror(lv: seq<nat>, l: nat, k: nat): (m: nat)
    requires k < |lv|
    ensures m < |lv|
  {
    if lv[k] < l then k else RunStart(lv, l, k) + RunEnd(lv, l, k) - 1 - k
  }

  /** Two places in one stretch. */
  ghost predicate SameRun(lv: seq<nat>, l: nat, p: nat, q: nat) {
    p <= q < |lv| && forall c :: p <= c <= q ==> lv[c] >= l
  }

  lemma StretchEnds(lv: seq<nat>, l: nat, s: nat, e: nat, k: nat)
    requires s <= k < e <= |lv| && SameRun(lv, l, s, e - 1)
    requires (s > 0 ==> lv[s - 1] < l) && (e < |lv| ==> lv[e] < l)
    ensures RunStart(lv, l, k) == s && RunEnd(lv, l, k) == e
  {
  }

  lemma MirrorTwice(lv: seq<nat>, l: nat, k: nat)
    requires k < |lv|
    ensures Mirror(lv, l, Mirror(lv, l, k)) == k
  {
    if lv[k] >= l {
      StretchEnds(lv, l, RunStart(lv, l, k), RunEnd(lv, l, k), Mirror(lv, l, k));
    }
  }

  lemma MirrorOrder(lv: seq<nat>, l: nat, p: nat, q: nat)
    requires p < q < |lv|
    ensures SameRun(lv, l, p, q) ==>
      Mirror(lv, l, q) < Mirror(lv, l, p) && SameRun(lv, l, Mirror(lv, l, q), Mirror(lv, l, p))
    ensures !SameRun(lv, l, p, q) ==>
      Mirror(lv, l, p) < Mirror(lv, l, q) && !SameRun(lv, l, Mirror(lv, l, p), Mirror(lv, l, q))
  {
    if SameRun(lv, l, p, q) {
      StretchEnds(lv, l, RunStart(lv, l, p), RunEnd(lv, l, p), q);
    } else {
      var c :| p <= c <= q && lv[c] < l;
      assert Mirror(lv, l, p) <= c <= Mirror(lv, l, q);
      assert c != p || c != q;
    }
  }

  /** A lower character between two others in the text stands between them in the order. */
  lemma LowerStandsBetween(levels: Levels, idx: seq<nat>, l: nat, p: nat, q: nat, k: nat)
    requires Ordered(levels, l + 1, idx) && p < q < |idx| && k < |idx|
    requires idx[p] < idx[k] < idx[q] || idx[q] < idx[k] < idx[p]
    requires Kept(levels, idx[k]) && levels[idx[k]].value < l
    ensures p < k < q
  {
    assert (k < p ==> LeftOf(levels, l + 1, idx[k], idx[p])) && (q < k ==> LeftOf(levels, l + 1, idx[q], idx[k]));
    assert LeftOf(levels, l + 1, idx[p], idx[q]);
    LeastBelow(levels, idx[p], idx[q], idx[k]);
    LeastBelow(levels, idx[p], idx[k], idx[k]);
    LeastBelow(levels, idx[k], idx[q], idx[k]);
  }

  /** A lower character that stands between two others is between them in the text. */
  lemma LowerIsBetween(levels: Levels, idx: seq<nat>, l: nat, p: nat, q: nat, k: nat)
    requires Ordered(levels, l + 1, idx) && p <= k <= q < |idx| && p < q
    requires Kept(levels, idx[k]) && levels[idx[k]].value < l
    ensures idx[p] <= idx[k] <= idx[q]
  {
    if p < k {
      assert LeftOf(levels, l + 1, idx[p], idx[k]);
      LeastBelow(levels, idx[p], idx[k], idx[k]);
    }
    if k < q {
      assert LeftOf(levels, l + 1, idx[k], idx[q]);
      LeastBelow(levels, idx[k], idx[q], idx[k]);
    }
  }

  /** Characters in one stretch of an order are those with no lower level between them in
      the text. */
  lemma StretchIsInterval(levels: Levels, idx: seq<nat>, lv: seq<nat>, l: nat, p: nat, q: nat)
    requires Arranges(levels, idx) && Tagged(levels, idx, lv) && Ordered(levels, l + 1, idx)
    requires p < q < |idx|
    ensures SameRun(lv, l, p, q) <==> Least(levels, idx[p], idx[q]) >= l
  {
    if Least(levels, idx[p], idx[q]) < l {
      var c := LeastAttained(levels, idx[p], idx[q]);
      var k :| 0 <= k < |idx| && idx[k] == c;
      if k != p && k != q {
        LowerStandsBetween(levels, idx, l, p, q, k);
      }
      assert lv[k] < l;
    }
    if !SameRun(lv, l, p, q) {
      var k :| p <= k <= q && lv[k] < l;
      LowerIsBetween(levels, idx, l, p, q, k);
      LeastBelow(levels, idx[p], idx[q], idx[k]);
    }
  }

  lemma MirrorArranges(levels: Levels, idx: seq<nat>, lv: seq<nat>, l: nat, idx': seq<nat>)
    requires Arranges(levels, idx) && |lv| == |idx|
    requires |idx'| == |idx| && forall k :: 0 <= k < |idx| ==> idx'[k] == idx[Mirror(lv, l, k)]
    ensures Arranges(levels, idx')
  {
    forall c | Kept(levels, c) ensures c in idx' {
      var k :| 0 <= k < |idx| && idx[k] == c;
      MirrorTwice(lv, l, k);
      assert idx'[Mirror(lv, l, k)] == c;
    }
    forall p, q | 0 <= p < q < |idx'| ensures idx'[p] != idx'[q] {
      MirrorTwice(lv, l, p);
      MirrorTwice(lv, l, q);
    }
  }

  /** How two places of the new order come from two places of the old one. */
  lemma PassPair(levels: Levels, l: nat, i: nat, j: nat)
    requires i != j && Kept(levels, i) && Kept(levels, j)
    ensures LeftOf(levels, l + 1, j, i) && Least(levels, i, j) >= l ==> LeftOf(levels, l, i, j)
    ensures LeftOf(levels, l + 1, i, j) && Least(levels, i, j) < l ==> LeftOf(levels, l, i, j)
  {
  }

  /** Reversing the stretches of level l turns an order for l + 1 into one for l. */
  lemma PassOrders(levels: Levels, idx: seq<nat>, lv: seq<nat>, l: nat, idx': seq<nat>)
    requires Arranges(levels, idx) && Tagged(levels, idx, lv) && Ordered(levels, l + 1, idx)
    requires |idx'| == |idx| && forall k :: 0 <= k < |idx| ==> idx'[k] == idx[Mirror(lv, l, k)]
    ensures Ordered(levels, l, idx')
  {
    forall p, q | 0 <= p < q < |idx'| ensures LeftOf(levels, l, idx'[p], idx'[q]) {
      PassOrdersPair(levels, idx, lv, l, p, q);
    }
  }

  lemma PassOrdersPair(levels: Levels, idx: seq<nat>, lv: seq<nat>, l: nat, p: nat, q: nat)
    requires Arranges(levels, idx) && Tagged(levels, idx, lv) && Ordered(levels, l + 1, idx)
    requires p < q < |idx|
    ensures LeftOf(levels, l, idx[Mirror(lv, l, p)], idx[Mirror(lv, l, q)])
  {
    MirrorOrder(lv, l, p, q);
    var p', q' := Mirror(lv, l, p), Mirror(lv, l, q);
    if SameRun(lv, l, p, q) {
      StretchIsInterval(levels, idx, lv, l, q', p');
      assert LeftOf(levels, l + 1, idx[q'], idx[p']);
    } else {
      StretchIsInterval(levels, idx, lv, l, p', q');
      assert LeftOf(levels, l + 1, idx[p'], idx[q']);
    }
    PassPair(levels, l, idx[p'], idx[q']);
  }

  function Reverse<T>(s: seq<T>): (r: seq<T>)
    ensures |r| == |s| && forall k :: 0 <= k < |s| ==> r[k] == s[|s| - 1 - k]
  {
    if s == [] then [] else Reverse(s[1..]) + [s[0]]
  }

  /** The first k places hold their mirrors, the rest is untouched. */
  ghost predicate MirroredTo(xs0: seq<nat>, xs: seq<nat>, lv0: seq<nat>, level: nat, k: nat) {
    && |xs0| == |xs| == |lv0| && k <= |xs|
    && (forall c :: 0 <= c < k ==> xs[c] == xs0[Mirror(lv0, level, c)])
    && (forall c :: k <= c < |xs| ==> xs[c] == xs0[c])
  }

  lemma ReverseStretch(xs0: seq<nat>, xs: seq<nat>, lv0: seq<nat>, level: nat, s: nat, k: nat)
    requires MirroredTo(xs0, xs, lv0, level, s) && s < k <= |xs| && SameRun(lv0, level, s, k - 1)
    requires (s > 0 ==> lv0[s - 1] < level) && (k < |xs| ==> lv0[k] < level)
    ensures MirroredTo(xs0, xs[..s] + Reverse(xs[s..k]) + xs[k..], lv0, level, k)
  {
    hide Mirror, Reverse;
    var ys := xs[..s] + Reverse(xs[s..k]) + xs[k..];
    forall c: nat | c < k ensures ys[c] == xs0[Mirror(lv0, level, c)] {
      if s <= c {
        StretchMirror(lv0, level, s, k, c);
        assert ys[c] == Reverse(xs[s..k])[c - s] == xs[s + k - 1 - c];
      }
    }
  }

  lemma StretchMirror(lv0: seq<nat>, level: nat, s: nat, k: nat, c: nat)
    requires s <= c < k <= |lv0| && SameRun(lv0, level, s, k - 1)
    requires (s > 0 ==> lv0[s - 1] < level) && (k < |lv0| ==> lv0[k] < level)
    ensures Mirror(lv0, level, c) == s + k - 1 - c
  {
    StretchEnds(lv0, level, s, k, c);
  }

  method ReversePass(idx0: seq<nat>, lv0: seq<nat>, level: nat) returns (idx: seq<nat>, lv: seq<nat>)
    requires |idx0| == |lv0|
    ensures |idx| == |lv| == |idx0|
    ensures forall k :: 0 <= k < |idx| ==> idx[k] == idx0[Mirror(lv0, level, k)]
    ensures forall k :: 0 <= k < |idx| ==> lv[k] == lv0[Mirror(lv0, level, k)]
  {
    idx, lv := idx0, lv0;
    var k: nat := 0;
    while k < |idx|
      invariant MirroredTo(idx0, idx, lv0, level, k) && MirroredTo(lv0, lv, lv0, level, k)
      invariant 0 < k < |idx| ==> lv0[k - 1] < level || lv0[k] < level
      decreases |idx| - k
    {
      if lv[k] >= level {
        var s := k;
        while k < |idx| && lv[k] >= level
          invariant s <= k <= |idx|
          invariant forall c :: s <= c < k ==> lv0[c] >= level
          decreases |idx| - k
        {
          k := k + 1;
        }
        ReverseStretch(idx0, idx, lv0, level, s, k);
        ReverseStretch(lv0, lv, lv0, level, s, k);
        idx := idx[..s] + Reverse(idx[s..k]) + idx[k..];
        lv := lv[..s] + Reverse(lv[s..k]) + lv[k..];
      } else {
        k := k + 1;
      }
    }
  }

  // -------------------------------------------------------------- all levels

  function MaxOf(lv: seq<nat>): (m: nat)
    ensures forall k :: 0 <= k < |lv| ==> lv[k] <= m
  {
    if lv == [] then 0 else if lv[0] > MaxOf(lv[1..]) then lv[0] else MaxOf(lv[1..])
  }

  /** The lowest odd level, or none when all are even. */
  function LowestOdd(lv: seq<nat>, none: nat): (m: nat)
    requires forall k :: 0 <= k < |lv| ==> lv[k] < none
    ensures m <= none && (m < none ==> m % 2 == 1)
    ensures forall k :: 0 <= k < |lv| && lv[k] % 2 == 1 ==> m <= lv[k]
  {
    if lv == [] then none
    else
      var m := LowestOdd(lv[1..], none);
      if lv[0] % 2 == 1 && lv[0] < m then lv[0] else m
  }

  /** The visual order: each kept character once, and of two of them the earlier one is on
      the left exactly when the least level from one to the other is even. */
  ghost predicate VisualOrder(levels: Levels, idx: seq<nat>) {
    && Arranges(levels, idx)
    && forall p, q :: 0 <= p < q < |idx| ==> (idx[p] < idx[q] <==> Least(levels, idx[p], idx[q]) % 2 == 0)
  }

  /** One round of L2 takes an order for level + 1 to one for level. */
  method ReverseLevel(ghost levels: Levels, idx0: seq<nat>, lv0: seq<nat>, level: nat)
      returns (idx: seq<nat>, lv: seq<nat>)
    requires Arranges(levels, idx0) && Tagged(levels, idx0, lv0) && Ordered(levels, level + 1, idx0)
    ensures Arranges(levels, idx) && Tagged(levels, idx, lv) && Ordered(levels, level, idx)
  {
    idx, lv := ReversePass(idx0, lv0, level);
    MirrorArranges(levels, idx0, lv0, level, idx);
    PassOrders(levels, idx0, lv0, level, idx);
  }

  method Reorder(levels: Levels) returns (idx: seq<nat>)
    ensures VisualOrder(levels, idx)
  {
    hide Tagged, Arranges, Ordered, VisualOrder;
    var lv;
    idx, lv := KeptOf(levels);
    TaggedLength(levels, idx, lv);
    if idx == [] {
      NothingToOrder(levels);
      return;
    }
    var hi := MaxOf(lv);
    var lo := LowestOdd(lv, hi + 1);
    StartOrder(levels, idx, lv, hi);
    LevelRange(levels, idx, lv, hi, lo);
    var level := hi + 1;
    while level > lo
      invariant lo <= level <= hi + 1 && Tagged(levels, idx, lv)
      invariant Arranges(levels, idx) && Ordered(levels, level, idx)
      decreases level
    {
      level := level - 1;
      idx, lv := ReverseLevel(levels, idx, lv, level);
    }
    OrderAtLowestOdd(levels, idx, hi, lo);
  }

  lemma TaggedLength(levels: Levels, idx: seq<nat>, lv: seq<nat>)
    requires Tagged(levels, idx, lv)
    ensures |idx| == |lv|
  {
  }

  lemma NothingToOrder(levels: Levels)
    requires Arranges(levels, [])
    ensures VisualOrder(levels, [])
  {
  }

  method KeptOf(levels: Levels) returns (idx: seq<nat>, lv: seq<nat>)
    ensures Arranges(levels, idx) && Tagged(levels, idx, lv)
    ensures forall p, q :: 0 <= p < q < |idx| ==> idx[p] < idx[q]
  {
    idx, lv := [], [];
    for i := 0 to |levels|
      invariant |idx| == |lv|
      invariant forall k :: 0 <= k < |idx| ==> idx[k] < i && Kept(levels, idx[k]) && lv[k] == levels[idx[k]].value
      invariant forall c :: 0 <= c < i && Kept(levels, c) ==> c in idx
      invariant forall p, q :: 0 <= p < q < |idx| ==> idx[p] < idx[q]
    {
      if levels[i].Some? {
        idx, lv := idx + [i], lv + [levels[i].value];
      }
    }
  }

  lemma StartOrder(levels: Levels, idx: seq<nat>, lv: seq<nat>, hi: nat)
    requires Tagged(levels, idx, lv) && forall p, q :: 0 <= p < q < |idx| ==> idx[p] < idx[q]
    requires forall k :: 0 <= k < |lv| ==> lv[k] <= hi
    ensures Ordered(levels, hi + 1, idx)
  {
    forall p, q | 0 <= p < q < |idx| ensures LeftOf(levels, hi + 1, idx[p], idx[q]) {
      LeastBelow(levels, idx[p], idx[q], idx[p]);
    }
  }

  lemma LevelRange(levels: Levels, idx: seq<nat>, lv: seq<nat>, hi: nat, lo: nat)
    requires Arranges(levels, idx) && Tagged(levels, idx, lv)
    requires forall k :: 0 <= k < |lv| ==> lv[k] <= hi && (lv[k] % 2 == 1 ==> lo <= lv[k])
    ensures forall c :: Kept(levels, c) ==>
      levels[c].value <= hi && (levels[c].value % 2 == 1 ==> lo <= levels[c].value)
  {
    forall c | Kept(levels, c)
      ensures levels[c].value <= hi && (levels[c].value % 2 == 1 ==> lo <= levels[c].value)
    {
      var k :| 0 <= k < |idx| && idx[k] == c;
      assert lv[k] == levels[c].value;
    }
  }

  /** The order for the lowest odd level is the visual order. */
  lemma OrderAtLowestOdd(levels: Levels, idx: seq<nat>, hi: nat, lo: nat)
    requires Arranges(levels, idx) && Ordered(levels, lo, idx)
    requires lo <= hi + 1 && (lo <= hi ==> lo % 2 == 1)
    requires forall c :: Kept(levels, c) ==>
      levels[c].value <= hi && (levels[c].value % 2 == 1 ==> lo <= levels[c].value)
    ensures VisualOrder(levels, idx)
  {
    forall p, q | 0 <= p < q < |idx| ensures idx[p] < idx[q] <==> Least(levels, idx[p], idx[q]) % 2 == 0 {
      assert LeftOf(levels, lo, idx[p], idx[q]);
      var c := LeastAttained(levels, idx[p], idx[q]);
    }
  }
}
