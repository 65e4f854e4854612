/** Reading one prefix code from the stream (sections 3.4 and 3.5 of RFC 7932): whatever the bits
    are, a code that is returned has one symbol only or leaves no code space. */
module BrotliHeader {
  import opened Wrappers
  import opened BrotliBits
  import opened BrotliCode
  import opened BrotliLengths

  // ------------------------------------------------------------------ simple codes

  function BitLength(n: nat): nat {
    if n == 0 then 0 else 1 + BitLength(n / 2)
  }

  /** The number of bits of a symbol in a simple code. */
  function SymbolBits(size: nat): nat
    requires size >= 1
  {
    if BitLength(size - 1) > 1 then BitLength(size - 1) else 1
  }

  lemma {:induction false} BitLengthFits(n: nat)
    ensures n < Pow2(BitLength(n)) && (n > 0 ==> Pow2(BitLength(n)) <= 2 * n)
  {
    if n > 0 {
      BitLengthFits(n / 2);
    }
  }

  /** Every symbol can be written, and with one bit less (if there are two or more) not every one. */
  lemma SymbolBitsFit(size: nat)
    requires size >= 1
    ensures size <= Pow2(SymbolBits(size)) && (SymbolBits(size) > 1 ==> Pow2(SymbolBits(size) - 1) < size)
  {
    BitLengthFits(size - 1);
    assert Pow2(1) == 2 * Pow2(0);
    Pow2Next(SymbolBits(size) - 1);
  }

  predicate Distinct(ss: seq<nat>) { forall i, j :: 0 <= i < j < |ss| ==> ss[i] != ss[j] }

  predicate Below(ss: seq<nat>, size: nat) { forall i :: 0 <= i < |ss| ==> ss[i] < size }

  /** The lengths of a simple code's symbols, in the order they are written. */
  function Shape(k: nat, deep: bool): Lengths
    requires 2 <= k <= 4
  {
    if k == 2 then [1, 1] else if k == 3 then [1, 2, 2] else if deep then [1, 2, 3, 3] else [2, 2, 2, 2]
  }

  ghost predicate HasShape(lengths: Lengths, size: nat, ss: seq<nat>, shape: Lengths, n: nat)
    requires n <= |ss| && |ss| == |shape|
  {
    && |lengths| == size && Below(ss, size)
    && (forall i :: 0 <= i < n ==> lengths[ss[i]] == shape[i])
    && (forall s: nat :: s < size && s !in ss[..n] ==> lengths[s] == 0)
  }

  lemma ShapeLength(lengths: Lengths, size: nat, ss: seq<nat>, shape: Lengths, n: nat)
    requires n <= |ss| && |ss| == |shape| && HasShape(lengths, size, ss, shape, n)
    ensures |lengths| == size
  {
  }

  /** The lengths of a shape never get smaller and the last two are equal; all are equal for two
      symbols, and for four that are not deep. */
  lemma ShapeOrder(k: nat, deep: bool)
    requires 2 <= k <= 4
    ensures var s := Shape(k, deep);
      && |s| == k && (forall i, j :: 0 <= i < j < k ==> s[i] <= s[j]) && s[k - 1] == s[k - 2]
      && (s[0] == s[k - 1] <==> k == 2 || (k == 4 && !deep))
  {
  }

  function Weights(shape: Lengths, n: nat): nat
    requires n <= |shape| && Proper(shape)
  {
    if n == 0 then 0 else Weights(shape, n - 1) + Weight(shape[n - 1])
  }

  lemma ShapesAreFull(k: nat, deep: bool)
    requires 2 <= k <= 4
    ensures Proper(Shape(k, deep)) && Weights(Shape(k, deep), k) == FULL
  {
    assert Pow2(10) == 1024 && Pow2(12) == 4096;
    assert Pow2(13) == 8192 && Pow2(14) == 16384;
    var s := Shape(k, deep);
    assert Weights(s, 1) == Weights(s, 0) + Weight(s[0]);
    assert Weights(s, 2) == Weights(s, 1) + Weight(s[1]);
    if k > 2 {
      assert Weights(s, 3) == Weights(s, 2) + Weight(s[2]);
    }
    if k > 3 {
      assert Weights(s, 4) == Weights(s, 3) + Weight(s[3]);
    }
  }

  /** The lengths once the first n symbols have theirs. */
  function Assigned(size: nat, ss: seq<nat>, shape: Lengths, n: nat): (r: Lengths)
    requires n <= |ss| == |shape| && Below(ss, size)
    ensures |r| == size
  {
    if n == 0 then Copies(0, size) else Assigned(size, ss, shape, n - 1)[ss[n - 1] := shape[n - 1]]
  }

  lemma {:induction false} AssignedShape(size: nat, ss: seq<nat>, shape: Lengths, n: nat)
    requires n <= |ss| == |shape| && Distinct(ss) && Proper(shape) && Below(ss, size)
    ensures var r := Assigned(size, ss, shape, n);
      HasShape(r, size, ss, shape, n) && Proper(r) && Kraft(r, size) == Weights(shape, n)
  {
    hide Kraft, Weight;
    if n == 0 {
      NoWeight(size, size);
    } else {
      AssignedShape(size, ss, shape, n - 1);
      assert ss[n - 1] !in ss[..n - 1];
      assert ss[..n] == ss[..n - 1] + [ss[n - 1]];
      KraftSet(Assigned(size, ss, shape, n - 1), ss[n - 1], shape[n - 1], size);
    }
  }

  /** There is one way only to give the symbols their lengths and all others 0. */
  lemma ShapeIsAssigned(lengths: Lengths, size: nat, ss: seq<nat>, shape: Lengths)
    requires |ss| == |shape| && Distinct(ss) && Proper(shape) && HasShape(lengths, size, ss, shape, |ss|)
    ensures lengths == Assigned(size, ss, shape, |ss|)
  {
    var r := Assigned(size, ss, shape, |ss|);
    AssignedShape(size, ss, shape, |ss|);
    assert ss[..|ss|] == ss;
    forall s: nat | s < size ensures lengths[s] == r[s] {
      if s in ss {
        var i :| 0 <= i < |ss| && ss[i] == s;
      }
    }
  }

  method Shaped(size: nat, ss: seq<nat>, shape: Lengths) returns (lengths: Lengths)
    requires |ss| == |shape| && Distinct(ss) && Below(ss, size) && Proper(shape)
    ensures HasShape(lengths, size, ss, shape, |ss|) && Proper(lengths)
    ensures Kraft(lengths, size) == Weights(shape, |ss|)
  {
    lengths := Copies(0, size);
    for n := 0 to |ss|
      invariant lengths == Assigned(size, ss, shape, n)
    {
      lengths := lengths[ss[n] := shape[n]];
    }
    AssignedShape(size, ss, shape, |ss|);
  }

  /** The symbols of a simple code whose description starts at p. */
  function SimpleSymbols(data: seq<Byte>, p: nat, size: nat, k: nat): (ss: seq<nat>)
    requires size >= 1 && p + k * SymbolBits(size) <= 8 * |data|
    ensures |ss| == k
  {
    if k == 0 then []
    else
      ShorterFits(k, SymbolBits(size));
      SimpleSymbols(data, p, size, k - 1) + [Value(data, p + (k - 1) * SymbolBits(size), SymbolBits(size))]
  }

  lemma ShorterFits(k: nat, n: nat)
    requires k > 0
    ensures (k - 1) * n + n == k * n && (k - 1) * n >= 0
  {
  }

  /** What the description of a simple code at p says: a table and where the description
      ends, or nothing. */
  ghost predicate SimpleCode(data: seq<Byte>, p: nat, size: nat, t: Option<Table>, q: nat)
    requires size >= 1
  {
    if p + 2 > 8 * |data| then t.None?
    else
      var k := Value(data, p, 2) + 1;
      var e := p + 2 + k * SymbolBits(size);
      if e > 8 * |data| then t.None?
      else
        var ss := SimpleSymbols(data, p + 2, size, k);
        if !Below(ss, size) || !Distinct(ss) then t.None?
        else if k == 1 then t == Some(Lone(ss[0])) && q == e
        else if k == 4 && e == 8 * |data| then t.None?
        else
          && t.Some? && t.value.Canonical? && q == (if k == 4 then e + 1 else e)
          && HasShape(t.value.lengths, size, ss, Shape(k, k == 4 && Bit(data, e) == 1), k)
  }

  method ReadSimpleSymbols(b: Bits, size: nat, k: nat) returns (r: Option<seq<nat>>)
    requires b.Valid() && size >= 1
    modifies b
    ensures b.Valid() && old(b.At()) <= b.At()
    ensures r.Some? <==> old(b.At()) + k * SymbolBits(size) <= 8 * |b.data|
    ensures r.Some? ==> b.At() == old(b.At()) + k * SymbolBits(size)
                        && r.value == SimpleSymbols(b.data, old(b.At()), size, k)
  {
    hide Value;
    var ss: seq<nat> := [];
    ghost var p := b.At();
    var nbits := SymbolBits(size);
    for i := 0 to k
      invariant b.Valid() && b.At() == p + i * nbits && ss == SimpleSymbols(b.data, p, size, i)
    {
      ShorterFits(i + 1, nbits);
      var s := b.Read(nbits);
      if s.None? {
        MulMono(i + 1, k, nbits);
        return None;
      }
      ss := ss + [s.value];
    }
    r := Some(ss);
  }

  method ReadSimple(b: Bits, size: nat) returns (r: Option<Code>, ghost t: Option<Table>)
    requires b.Valid() && size >= 1
    modifies b
    ensures b.Valid() && old(b.At()) <= b.At()
    ensures SimpleCode(b.data, old(b.At()), size, t, b.At())
    ensures if r.Some? then t.Some? && Represents(r.value, t.value) && Complete(t.value, size) else t.None?
  {
    hide Value, Kraft, Weights, Weight, Counts, SortedSymbols, HasShape, SimpleSymbols;
    var n := b.Read(2);
    if n.None? {
      return None, None;
    }
    assert n.value < 4 by { assert Pow2(2) == 4; }
    var k := n.value + 1;
    var ss := ReadSimpleSymbols(b, size, k);
    if ss.None? {
      return None, None;
    }
    if !Below(ss.value, size) || !Distinct(ss.value) {
      return None, None;
    }
    if k == 1 {
      var c := MakeCode(Copies(0, size));
      return Some(c.(single := Some(ss.value[0]))), Some(Lone(ss.value[0]));
    }
    var deep := false;
    if k == 4 {
      var d := b.Read(1);
      if d.None? {
        return None, None;
      }
      OneBit(b.data, b.At() - 1);
      deep := d.value == 1;
    }
    ShapesAreFull(k, deep);
    var lengths := Shaped(size, ss.value, Shape(k, deep));
    var c := MakeCode(lengths);
    ShapeLength(lengths, size, ss.value, Shape(k, deep), k);
    return Some(c), Some(Canonical(lengths));
  }

  // --------------------------------------------------------------- any prefix code

  /** What the description of a code by code lengths says: the lengths vs of the code length
      code stand from p to m; then, if those make a code u, the tokens ts from m to e. */
  ghost predicate ComplexCode(data: seq<Byte>, p: nat, skip: nat, size: nat, t: Option<Table>, q: nat,
                              vs: seq<nat>, m: nat, u: Option<Table>, ts: seq<Token>)
    requires skip <= 3
  {
    && Spelled(Canonical(SMALL), data, p, vs, m)
    && |vs| + skip <= 18 && Small(vs) && (forall k :: 0 <= k < |vs| ==> Room(vs, k) > 0)
    && if |vs| + skip < 18 && Room(vs, |vs|) > 0 then t.None? && Dry(Canonical(SMALL), data, m)
       else if NonZero(vs, |vs|) != 1 && Room(vs, |vs|) != 0 then t.None?
       else
         && u.Some? && LengthTable(vs, skip, u.value)
         && TokensAt(u.value, data, m, ts, q) && OpenBefore(ts, size)
         && if Fills(ts, size) then
              t == Some(Canonical(Meaning(ts, |ts|) + Copies(0, size - |Meaning(ts, |ts|)|)))
            else t.None? && (Open(ts, |ts|, size) ==> NoToken(u.value, data, q))
  }

  /** The table of the code length code. */
  ghost predicate LengthTable(vs: seq<nat>, skip: nat, u: Table)
    requires |vs| + skip <= 18
  {
    var lengths := Placed(vs, skip, |vs|);
    if NonZero(vs, |vs|) == 1 then u.Lone? && FirstOf(lengths, u.symbol)
    else u == Canonical(lengths)
  }

  /** What the description at p says: the table t and where the description ends, or nothing. */
  ghost predicate Written(data: seq<Byte>, p: nat, size: nat, t: Option<Table>, q: nat)
    requires size >= 1
  {
    if p + 2 > 8 * |data| then t.None?
    else
      var kind, start := Value(data, p, 2), p + 2;
      if kind == 1 then SimpleCode(data, start, size, t, q)
      else kind <= 3 && exists vs, m: nat, u, ts :: ComplexCode(data, start, kind, size, t, q, vs, m, u, ts)
  }

  method ReadComplex(b: Bits, skip: nat, size: nat)
      returns (r: Option<Code>, ghost t: Option<Table>, ghost q: nat)
    requires b.Valid() && skip <= 3
    modifies b
    ensures b.Valid() && old(b.At()) <= q <= b.At()
    ensures exists vs, m: nat, u, ts :: ComplexCode(b.data, old(b.At()), skip, size, t, q, vs, m, u, ts)
    ensures r.Some? ==> q == b.At()
    ensures if r.Some? then t.Some? && Represents(r.value, t.value) && Complete(t.value, size) else t.None?
  {
    hide Spelled, TokensAt, TokenAt, Kraft, Meaning, OpenBefore, Open, Room, NonZero, Placed, Represents, NoToken, Dry;
    ghost var p := b.At();
    ghost var u, vs, m;
    var c;
    t := None;
    c, u, vs, m := ReadLengthCode(b, skip);
    if c.None? {
      assert Spelled(Canonical(SMALL), b.data, p, vs, m);
      assert ComplexCode(b.data, p, skip, size, None, m, vs, m, None, []);
      return None, None, m;
    }
    ghost var ts;
    var lengths;
    lengths, ts, q := ReadLengths(c.value, b, size, u);
    if lengths.None? {
      assert ComplexCode(b.data, p, skip, size, None, q, vs, m, Some(u), ts);
      return None, None, q;
    }
    t := Some(Canonical(lengths.value));
    assert ComplexCode(b.data, p, skip, size, t, q, vs, m, Some(u), ts);
    FilledIsComplete(ts, size);
    var d := MakeCode(lengths.value);
    r := Some(d);
  }

  lemma FilledIsComplete(ts: seq<Token>, size: nat)
    requires Fills(ts, size)
    ensures Complete(Canonical(Meaning(ts, |ts|) + Copies(0, size - |Meaning(ts, |ts|)|)), size)
  {
    hide Kraft, Meaning;
    KraftCopies(Meaning(ts, |ts|), 0, size - |Meaning(ts, |ts|)|);
  }

  /** A prefix code over size symbols. */
  method ReadCode(b: Bits, size: nat) returns (r: Option<Code>, ghost t: Option<Table>, ghost q: nat)
    requires b.Valid() && size >= 1
    modifies b
    ensures b.Valid() && old(b.At()) <= q <= b.At()
    ensures Written(b.data, old(b.At()), size, t, q)
    ensures if r.Some? then t.Some? && Represents(r.value, t.value) && Complete(t.value, size) && q == b.At()
      else t.None?
  {
    hide Value, SimpleCode, ComplexCode, Represents, Complete;
    ghost var p := b.At();
    var kind := b.Read(2);
    t, q := None, p;
    if kind.None? {
      return None, None, p;
    }
    assert kind.value < 4 by { assert Pow2(2) == 4; }
    if kind.value == 1 {
      r, t := ReadSimple(b, size);
      q := b.At();
    } else {
      r, t, q := ReadComplex(b, kind.value, size);
    }
  }

  // ---------------------------------------------- a description says one thing only

  lemma SymbolOnce(t: Table, data: seq<Byte>, p: nat, s: nat, m: nat, s': nat, m': nat)
    requires SymbolAt(t, data, p, s, m) && SymbolAt(t, data, p, s', m')
    ensures s == s' && m == m'
  {
    hide CodeStandsAt;
    if t.Canonical? {
      OneCodeStands(t.lengths, s, s', data, p);
    }
  }

  /** Of two readings from one place one starts as the other, and does not end where no symbol stands. */
  lemma {:induction false} SpelledOnce(t: Table, data: seq<Byte>, p: nat, vs: seq<nat>, m: nat, ws: seq<nat>, n: nat)
    requires Spelled(t, data, p, vs, m) && Spelled(t, data, p, ws, n) && |vs| <= |ws|
    ensures vs <= ws && (|vs| == |ws| ==> m == n) && (|vs| < |ws| ==> !Dry(t, data, m))
    decreases |ws|
  {
    hide SymbolAt;
    if ws != [] {
      var ws0, w := ws[..|ws| - 1], ws[|ws| - 1];
      var n0: nat :| Spelled(t, data, p, ws0, n0) && SymbolAt(t, data, n0, w, n);
      if |vs| < |ws| {
        SpelledOnce(t, data, p, vs, m, ws0, n0);
      } else {
        var vs0, v := vs[..|vs| - 1], vs[|vs| - 1];
        var m0: nat :| Spelled(t, data, p, vs0, m0) && SymbolAt(t, data, m0, v, m);
        SpelledOnce(t, data, p, vs0, m0, ws0, n0);
        SymbolOnce(t, data, m0, v, m, w, n);
        assert vs == vs0 + [v] && ws == ws0 + [w];
      }
    }
  }

  lemma TokenOnce(t: Table, data: seq<Byte>, p: nat, x: Token, m: nat, y: Token, n: nat)
    requires TokenAt(t, data, p, x, m) && TokenAt(t, data, p, y, n)
    ensures x == y && m == n
  {
    hide SymbolAt, Value;
    SymbolOnce(t, data, p,
               if x.Length? then x.n else if x.Again? then 16 else 17,
               if x.Length? then m else if x.Again? then m - 2 else m - 3,
               if y.Length? then y.n else if y.Again? then 16 else 17,
               if y.Length? then n else if y.Again? then n - 2 else n - 3);
  }

  lemma {:induction false} TokensOnce(t: Table, data: seq<Byte>, p: nat, xs: seq<Token>, m: nat, ys: seq<Token>, n: nat)
    requires TokensAt(t, data, p, xs, m) && TokensAt(t, data, p, ys, n) && |xs| <= |ys|
    ensures xs <= ys && (|xs| == |ys| ==> m == n) && (|xs| < |ys| ==> !NoToken(t, data, m))
    decreases |ys|
  {
    hide TokenAt;
    if ys != [] {
      var ys0, y := ys[..|ys| - 1], ys[|ys| - 1];
      var n0: nat :| TokensAt(t, data, p, ys0, n0) && TokenAt(t, data, n0, y, n);
      if |xs| < |ys| {
        TokensOnce(t, data, p, xs, m, ys0, n0);
      } else {
        var xs0, x := xs[..|xs| - 1], xs[|xs| - 1];
        var m0: nat :| TokensAt(t, data, p, xs0, m0) && TokenAt(t, data, m0, x, m);
        TokensOnce(t, data, p, xs0, m0, ys0, n0);
        TokenOnce(t, data, m0, x, m, y, n);
        assert xs == xs0 + [x] && ys == ys0 + [y];
      }
    }
  }

  lemma {:induction false} PrefixMeaning(xs: seq<Token>, ys: seq<Token>)
    requires xs <= ys
    ensures Meaning(xs, |xs|) == Meaning(ys, |xs|)
    decreases |ys|
  {
    if |xs| < |ys| {
      var ys0 := ys[..|ys| - 1];
      PrefixMeaning(xs, ys0);
      Stable(ys0, ys[|ys| - 1], |xs|);
      assert ys0 + [ys[|ys| - 1]] == ys;
    } else {
      assert xs == ys;
    }
  }

  lemma OpenInside(xs: seq<Token>, ys: seq<Token>, size: nat)
    requires xs <= ys && |xs| < |ys| && OpenBefore(ys, size)
    ensures ValidTokens(xs) && Open(xs, |xs|, size)
  {
    hide Meaning, Kraft;
    assert forall k :: 0 <= k < |xs| ==> xs[k] == ys[k];
    PrefixMeaning(xs, ys);
    assert Open(ys, |xs|, size);
  }

  lemma LengthsOnce(data: seq<Byte>, p: nat, size: nat, u: Table, xs: seq<Token>, q: nat, ys: seq<Token>, e: nat)
    requires TokensAt(u, data, p, xs, q) && OpenBefore(xs, size) && (Open(xs, |xs|, size) ==> NoToken(u, data, q))
    requires TokensAt(u, data, p, ys, e) && OpenBefore(ys, size)
    requires |xs| <= |ys|
    ensures xs == ys && q == e
  {
    hide TokensAt, Meaning, NoToken, Kraft;
    TokensOnce(u, data, p, xs, q, ys, e);
    if |xs| < |ys| {
      OpenInside(xs, ys, size);
      assert false;
    }
  }

  lemma VsOnce(data: seq<Byte>, p: nat, skip: nat, vs: seq<nat>, m: nat, ws: seq<nat>, n: nat)
    requires Spelled(Canonical(SMALL), data, p, vs, m) && |vs| + skip <= 18
    requires |vs| + skip < 18 && Room(vs, |vs|) > 0 ==> Dry(Canonical(SMALL), data, m)
    requires Spelled(Canonical(SMALL), data, p, ws, n) && |ws| + skip <= 18
    requires forall k :: 0 <= k < |ws| ==> Room(ws, k) > 0
    requires |vs| <= |ws|
    ensures vs == ws && m == n
  {
    hide Spelled, Dry;
    SpelledOnce(Canonical(SMALL), data, p, vs, m, ws, n);
    if |vs| < |ws| {
      RoomOfPrefix(vs, ws, |vs|);
      assert false;
    }
  }

  lemma {:induction false} RoomOfPrefix(vs: seq<nat>, ws: seq<nat>, n: nat)
    requires vs <= ws && n <= |vs|
    ensures Room(vs, n) == Room(ws, n)
  {
    if n > 0 {
      RoomOfPrefix(vs, ws, n - 1);
    }
  }

  lemma FilledIsNotOpen(ts: seq<Token>, size: nat)
    requires Fills(ts, size)
    ensures !Open(ts, |ts|, size)
  {
  }

  lemma ComplexOnce(data: seq<Byte>, p: nat, skip: nat, size: nat, t: Option<Table>, q: nat, vs: seq<nat>, m: nat,
                    u: Option<Table>, ts: seq<Token>, t': Option<Table>, q': nat, vs': seq<nat>, m': nat,
                    u': Option<Table>, ts': seq<Token>)
    requires skip <= 3 && ComplexCode(data, p, skip, size, t, q, vs, m, u, ts)
    requires ComplexCode(data, p, skip, size, t', q', vs', m', u', ts')
    ensures t == t' && (t.Some? ==> q == q')
  {
    hide Spelled, Dry, TokensAt, NoToken, Placed, Open, OpenBefore, Fills, Room, NonZero;
    if |vs| <= |vs'| {
      VsOnce(data, p, skip, vs, m, vs', m');
    } else {
      VsOnce(data, p, skip, vs', m', vs, m);
    }
    if (|vs| + skip == 18 || Room(vs, |vs|) <= 0) && (NonZero(vs, |vs|) == 1 || Room(vs, |vs|) == 0) {
      assert u == u';
      if Fills(ts, size) {
        FilledIsNotOpen(ts, size);
      }
      if Fills(ts', size) {
        FilledIsNotOpen(ts', size);
      }
      if |ts| <= |ts'| {
        LengthsOnce(data, m, size, u.value, ts, q, ts', q');
      } else {
        LengthsOnce(data, m, size, u.value, ts', q', ts, q);
      }
    }
  }

  lemma SimpleOnce(data: seq<Byte>, p: nat, size: nat, t: Option<Table>, q: nat, t': Option<Table>, q': nat)
    requires size >= 1 && SimpleCode(data, p, size, t, q) && SimpleCode(data, p, size, t', q')
    ensures t == t' && (t.Some? ==> q == q')
    ensures t.Some? ==> Complete(t.value, size) && p <= q <= 8 * |data|
  {
    hide Value, Bit, SimpleSymbols, HasShape, Kraft, Weights, Assigned;
    if t.Some? && t.value.Canonical? {
      var k := Value(data, p, 2) + 1;
      var ss := SimpleSymbols(data, p + 2, size, k);
      var deep := k == 4 && Bit(data, p + 2 + k * SymbolBits(size)) == 1;
      assert k <= 4 by { assert Pow2(2) == 4; }
      ShapesAreFull(k, deep);
      AssignedShape(size, ss, Shape(k, deep), k);
      ShapeIsAssigned(t.value.lengths, size, ss, Shape(k, deep));
      ShapeIsAssigned(t'.value.lengths, size, ss, Shape(k, deep));
    }
  }

  /** The bits at a place describe one table, or none; so what ReadCode returns is all in the
      input. */
  lemma WrittenOnce(data: seq<Byte>, p: nat, size: nat, t: Option<Table>, q: nat, t': Option<Table>, q': nat)
    requires size >= 1 && Written(data, p, size, t, q) && Written(data, p, size, t', q')
    ensures t == t' && (t.Some? ==> q == q')
  {
    hide Value, SimpleCode, ComplexCode;
    if p + 2 <= 8 * |data| {
      var kind, start := Value(data, p, 2), p + 2;
      if kind == 1 {
        SimpleOnce(data, start, size, t, q, t', q');
      } else {
        var vs, m: nat, u, ts :| ComplexCode(data, start, kind, size, t, q, vs, m, u, ts);
        var vs', m': nat, u', ts' :| ComplexCode(data, start, kind, size, t', q', vs', m', u', ts');
        ComplexOnce(data, start, kind, size, t, q, vs, m, u, ts, t', q', vs', m', u', ts');
      }
    }
  }

  lemma SymbolRange(t: Table, data: seq<Byte>, p: nat, s: nat, q: nat)
    requires SymbolAt(t, data, p, s, q) && p <= 8 * |data|
    ensures p <= q <= 8 * |data|
  {
    hide CodeAt, Canon;
  }

  lemma {:induction false} SpelledRange(t: Table, data: seq<Byte>, p: nat, vs: seq<nat>, q: nat)
    requires Spelled(t, data, p, vs, q) && p <= 8 * |data|
    ensures p <= q <= 8 * |data|
  {
    hide SymbolAt;
    if vs != [] {
      var before, last := vs[..|vs| - 1], vs[|vs| - 1];
      var m: nat :| Spelled(t, data, p, before, m) && SymbolAt(t, data, m, last, q);
      SpelledRange(t, data, p, before, m);
      SymbolRange(t, data, m, last, q);
    }
  }

  lemma {:induction false} TokensRange(t: Table, data: seq<Byte>, p: nat, ts: seq<Token>, q: nat)
    requires TokensAt(t, data, p, ts, q) && p <= 8 * |data|
    ensures p <= q <= 8 * |data|
  {
    hide SymbolAt, Value;
    if ts != [] {
      var before, last := ts[..|ts| - 1], ts[|ts| - 1];
      var m: nat :| TokensAt(t, data, p, before, m) && TokenAt(t, data, m, last, q);
      TokensRange(t, data, p, before, m);
      match last {
        case Length(n) => SymbolRange(t, data, m, n, q);
        case Again(_) => SymbolRange(t, data, m, 16, q - 2);
        case Zeros(_) => SymbolRange(t, data, m, 17, q - 3);
      }
    }
  }

  /** Every table that can be described is complete. */
  lemma WrittenComplete(data: seq<Byte>, p: nat, size: nat, t: Table, q: nat)
    requires size >= 1 && Written(data, p, size, Some(t), q)
    ensures Complete(t, size) && p + 2 <= q <= 8 * |data|
  {
    hide Value, SimpleCode, Complete, Spelled, TokensAt, Fills;
    var kind, start := Value(data, p, 2), p + 2;
    if kind == 1 {
      SimpleOnce(data, start, size, Some(t), q, Some(t), q);
    } else {
      var vs, m: nat, u, ts :| ComplexCode(data, start, kind, size, Some(t), q, vs, m, u, ts);
      SpelledRange(Canonical(SMALL), data, start, vs, m);
      TokensRange(u.value, data, m, ts, q);
      FilledIsComplete(ts, size);
    }
  }
}
