/** Distance codes (section 4 of RFC 7932): direct codes, and codes with postfix and extra bits. */
module BrotliDistance {
  import opened BrotliBits

  /** How many extra bits follow a distance code from 16 on. */
  function ExtraBits(npostfix: nat, ndirect: nat, code: nat): nat {
    if code < 16 + ndirect then 0 else 1 + Quotient(code - ndirect - 16, Pow2(npostfix + 1))
  }

  /** Where the distances (before the postfix) of a bit and a number of extra bits start. */
  function Offset(h: nat, nbits: nat): nat
    requires nbits >= 1
  {
    OffsetIsNat(h, nbits);
    (2 + h) * Pow2(nbits) - 4
  }

  lemma OffsetIsNat(h: nat, n: nat)
    requires n >= 1
    ensures (2 + h) * Pow2(n) >= 4
  {
    assert Pow2(n) >= 2;
    assert (2 + h) * Pow2(n) == 2 * Pow2(n) + h * Pow2(n);
  }

  function Times(a: nat, b: nat): nat { a * b }

  function Quotient(a: nat, b: nat): nat
    requires b > 0
  {
    a / b
  }

  function Rest(a: nat, b: nat): nat
    requires b > 0
  {
    a % b
  }

  /** The distance of a code from 16 on with its extra bits. */
  function Distance(npostfix: nat, ndirect: nat, code: nat, extra: nat): (d: nat)
    requires code >= 16
    ensures d >= 1
  {
    if code < 16 + ndirect then code - 15
    else
      var x := code - ndirect - 16;
      var nbits := 1 + Quotient(x, Pow2(npostfix + 1));
      var hcode, lcode := Quotient(x, Pow2(npostfix)), Rest(x, Pow2(npostfix));
      Times(Offset(hcode % 2, nbits) + extra, Pow2(npostfix)) + lcode + ndirect + 1
  }

  // ------------------------------------------------------------------ the inverse

  /** A number from 4 on as (2 + h) * 2^n + e with h one bit, n at least 1 and e of n bits. */
  datatype Parts = Parts(h: nat, n: nat, e: nat)

  ghost predicate IsParts(w: nat, s: Parts) {
    s.h < 2 && s.n >= 1 && s.e < Pow2(s.n) && w == (2 + s.h) * Pow2(s.n) + s.e
  }

  function Split(w: nat): (s: Parts)
    requires w >= 4
  {
    if w < 8 then Parts((w - 4) / 2, 1, w % 2)
    else
      var s := Split(w / 2);
      Parts(s.h, s.n + 1, 2 * s.e + w % 2)
  }

  lemma {:induction false} SplitIsParts(w: nat)
    requires w >= 4
    ensures IsParts(w, Split(w))
  {
    if w < 8 {
      assert Pow2(1) == 2 * Pow2(0) && Pow2(0) == 1;
    } else {
      SplitIsParts(w / 2);
      var s := Split(w / 2);
      Doubled(2 + s.h, Pow2(s.n));
    }
  }

  lemma Doubled(a: nat, b: nat)
    ensures a * (2 * b) == 2 * (a * b)
  {
  }

  /** There is one way only to write a number like that. */
  lemma {:induction false} PartsAreSplit(w: nat, s: Parts)
    requires IsParts(w, s)
    ensures w >= 4 && s == Split(w)
    decreases w
  {
    OffsetIsNat(s.h, s.n);
    if s.n == 1 {
      assert Pow2(1) == 2 * Pow2(0) && Pow2(0) == 1;
    } else {
      var half := Parts(s.h, s.n - 1, s.e / 2);
      Doubled(2 + s.h, Pow2(s.n - 1));
      OffsetIsNat(s.h, s.n - 1);
      assert IsParts(w / 2, half);
      PartsAreSplit(w / 2, half);
    }
  }

  /** A distance code with its extra bits. */
  datatype Coded = Coded(code: nat, extra: nat)

  ghost predicate IsCoded(npostfix: nat, ndirect: nat, c: Coded) {
    c.code >= 16 && c.extra < Pow2(ExtraBits(npostfix, ndirect, c.code))
  }

  /** The code of a distance. */
  function Encode(npostfix: nat, ndirect: nat, d: nat): Coded
    requires d >= 1
  {
    if d <= ndirect then Coded(d + 15, 0)
    else
      var y := d - ndirect - 1;
      var s := Split(Quotient(y, Pow2(npostfix)) + 4);
      Coded(16 + ndirect + Times(2 * (s.n - 1) + s.h, Pow2(npostfix)) + Rest(y, Pow2(npostfix)), s.e)
  }

  lemma DivMod(q: nat, k: nat, r: nat)
    requires r < k
    ensures (q * k + r) / k == q && (q * k + r) % k == r
  {
    var n := q * k + r;
    Unique(k, q, r, n / k, n % k);
  }

  /** The parts of a code's number: a bit count, a bit and the postfix. */
  lemma CodeParts(npostfix: nat, x: nat)
    ensures var h := x / Pow2(npostfix); x / Pow2(npostfix + 1) == h / 2 && x == h * Pow2(npostfix) + x % Pow2(npostfix)
  {
    var p := Pow2(npostfix);
    var h, l := x / p, x % p;
    var n, b := h / 2, h % 2;
    assert x == h * p + l && h == 2 * n + b;
    Distribute(n, b, p);
    assert b * p + l < 2 * p;
    DivMod(n, 2 * p, b * p + l);
  }

  lemma Distribute(n: nat, b: nat, p: nat)
    ensures (2 * n + b) * p == n * (2 * p) + b * p
    ensures b < 2 ==> b * p == if b == 0 then 0 else p
  {
  }

  /** What a code with postfix l stands for. */
  lemma DistanceIs(npostfix: nat, ndirect: nat, h: nat, l: nat, extra: nat)
    requires l < Pow2(npostfix)
    ensures var code := 16 + ndirect + Times(h, Pow2(npostfix)) + l;
      && ExtraBits(npostfix, ndirect, code) == 1 + h / 2
      && Distance(npostfix, ndirect, code, extra)
         == Times(Offset(h % 2, 1 + h / 2) + extra, Pow2(npostfix)) + l + ndirect + 1
  {
    hide Pow2, Offset;
    var x := Times(h, Pow2(npostfix)) + l;
    DivMod(h, Pow2(npostfix), l);
    CodeParts(npostfix, x);
  }

  lemma SplitOffset(z: nat)
    ensures var s := Split(z + 4);
      s.h < 2 && s.n >= 1 && s.e < Pow2(s.n) && Offset(s.h, s.n) + s.e == z
  {
    SplitIsParts(z + 4);
  }

  lemma Divided(y: nat, p: nat)
    requires p > 0
    ensures y == Times(Quotient(y, p), p) + Rest(y, p) && Rest(y, p) < p
  {
  }

  /** Every distance has a code, and that code stands for it. */
  lemma EncodeDistance(npostfix: nat, ndirect: nat, d: nat)
    requires d >= 1
    ensures var c := Encode(npostfix, ndirect, d);
      IsCoded(npostfix, ndirect, c) && Distance(npostfix, ndirect, c.code, c.extra) == d
  {
    if d > ndirect {
      hide Split, Pow2, Distance, ExtraBits, Times, Offset, Quotient, Rest;
      var y, p := d - ndirect - 1, Pow2(npostfix);
      Divided(y, p);
      var z, l := Quotient(y, p), Rest(y, p);
      SplitOffset(z);
      var s := Split(z + 4);
      var h := 2 * (s.n - 1) + s.h;
      assert h % 2 == s.h && h / 2 == s.n - 1;
      DistanceIs(npostfix, ndirect, h, l, s.e);
    } else {
      assert Pow2(0) == 1;
    }
  }

  /** Every code with its extra bits is the code of its distance: two never give one distance. */
  lemma DistanceEncode(npostfix: nat, ndirect: nat, c: Coded)
    requires IsCoded(npostfix, ndirect, c)
    ensures Encode(npostfix, ndirect, Distance(npostfix, ndirect, c.code, c.extra)) == c
  {
    if c.code >= 16 + ndirect {
      hide Split, Pow2;
      var x, p := c.code - ndirect - 16, Pow2(npostfix);
      var h, l := x / p, x % p;
      CodeParts(npostfix, x);
      var s := Parts(h % 2, 1 + h / 2, c.extra);
      OffsetIsNat(s.h, s.n);
      var w := (2 + s.h) * Pow2(s.n) + s.e;
      PartsAreSplit(w, s);
      DivMod(w - 4, p, l);
    } else {
      assert Pow2(0) == 1;
    }
  }

  /** The alphabet of a meta-block reaches exactly the distances up to this one, 2^26 - 4 times
      the number of postfixes after the direct ones. */
  function Farthest(npostfix: nat, ndirect: nat): nat {
    ndirect + Times(67108860, Pow2(npostfix))
  }

  lemma {:induction false} SplitBits(w: nat, k: nat)
    requires w >= 4
    ensures Split(w).n <= k <==> w < Pow2(k + 2)
    decreases w
  {
    if w < 8 {
      assert Pow2(2) == 4;
      if k >= 1 {
        Pow2Mono(3, k + 2);
        assert Pow2(3) == 8;
      }
    } else if k == 0 {
      assert Pow2(2) == 4;
    } else {
      SplitBits(w / 2, k - 1);
    }
  }

  /** The number of distance codes of a meta-block. */
  function AlphabetSize(npostfix: nat, ndirect: nat): nat { 16 + ndirect + Times(48, Pow2(npostfix)) }

  lemma InAlphabet(npostfix: nat, ndirect: nat, d: nat)
    requires d >= 1
    ensures Encode(npostfix, ndirect, d).code < AlphabetSize(npostfix, ndirect) <==> d <= Farthest(npostfix, ndirect)
  {
    if d > ndirect {
      hide Split, Pow2, Times, Offset, Quotient, Rest;
      var y, p := d - ndirect - 1, Pow2(npostfix);
      Divided(y, p);
      var z, l := Quotient(y, p), Rest(y, p);
      SplitOffset(z);
      SplitBits(z + 4, 24);
      assert Pow2(26) == 67108864 by { BigPower(); }
      var s := Split(z + 4);
      var h := 2 * (s.n - 1) + s.h;
      assert h < 48 <==> s.n <= 24;
      Compare(h, 48, p, l);
      Compare(z, 67108860, p, l);
    }
  }

  lemma BigPower()
    ensures Pow2(26) == 67108864
  {
    assert Pow2(13) == 8192;
    Pow2Sum(13, 13);
  }

  lemma Compare(a: nat, b: nat, p: nat, l: nat)
    requires l < p
    ensures Times(a, p) + l < Times(b, p) <==> a < b
  {
    if a < b {
      Further(p, a, b);
    } else {
      assert a * p >= b * p by { assert (a - b) * p >= 0; }
    }
  }
}
