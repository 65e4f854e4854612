/** The bit reader of the Brotli decoder (lib/ufont/tools/brotlimodel.py), and what the bits
    at a place of the input mean as a number and as a code. */
module BrotliBits {
  import opened Wrappers

  function Pow2(n: nat): (p: nat)
    ensures p > 0
  {
    if n == 0 then 1 else 2 * Pow2(n - 1)
  }

  lemma Pow2Next(n: nat)
    ensures Pow2(n + 1) == 2 * Pow2(n)
  {
  }

  lemma Pow2Zero()
    ensures Pow2(0) == 1
  {
  }

  lemma {:induction false} Pow2Sum(a: nat, b: nat)
    ensures Pow2(a + b) == Pow2(a) * Pow2(b)
  {
    if a > 0 {
      Pow2Sum(a - 1, b);
    }
  }

  lemma {:induction false} Pow2Mono(a: nat, b: nat)
    requires a <= b
    ensures Pow2(a) <= Pow2(b)
    decreases b
  {
    if a < b {
      Pow2Mono(a, b - 1);
    }
  }

  /** A number has one quotient and one remainder. */
  lemma Unique(k: nat, q: nat, r: nat, q': nat, r': nat)
    requires r < k && r' < k && q * k + r == q' * k + r'
    ensures q == q' && r == r'
  {
    if q < q' {
      Further(k, q, q');
    } else if q' < q {
      Further(k, q', q);
    }
  }

  lemma Further(k: nat, a: nat, b: nat)
    requires a < b
    ensures a * k + k <= b * k
  {
    assert b * k == a * k + (b - a) * k;
    assert (b - a) * k == k + (b - a - 1) * k;
  }

  lemma Divided(b: nat, d: nat)
    requires d > 0
    ensures b == b / d * d + b % d && b % d < d
  {
  }

  /** That is the only quotient and the only remainder. */
  lemma DividedBy(b: nat, d: nat, h: nat, r: nat)
    requires r < d && b == h * d + r
    ensures b / d == h && b % d == r
  {
    Divided(b, d);
    Unique(d, b / d, b % d, h, r);
  }

  lemma Halved(d: nat, h: nat, e: nat, r: nat)
    requires e < 2 && r < d
    ensures (2 * h + e) * d + r == h * (2 * d) + (r + e * d) && r + e * d < 2 * d
  {
    assert (2 * h + e) * d == 2 * h * d + e * d && 2 * h * d == h * (2 * d);
  }

  /** One bit more of a number. */
  lemma BitMore(b: nat, n: nat)
    ensures b % Pow2(n + 1) == b % Pow2(n) + b / Pow2(n) % 2 * Pow2(n)
  {
    hide Pow2;
    Pow2Next(n);
    OneMore(b, Pow2(n), Pow2(n + 1), b / Pow2(n), b % Pow2(n));
  }

  lemma OneMore(b: nat, d: nat, dd: nat, q: nat, r: nat)
    requires d > 0 && dd == 2 * d && q == b / d && r == b % d
    ensures b % dd == r + q % 2 * d
  {
    Divided(b, d);
    Halved(d, q / 2, q % 2, r);
    assert q == 2 * (q / 2) + q % 2;
    DividedBy(b, dd, q / 2, r + q % 2 * d);
  }

  /** The k-th bit of the input, each byte from its low end. */
  function Bit(data: seq<Byte>, k: nat): (b: nat)
    requires k < 8 * |data|
    ensures b < 2
  {
    data[k / 8] / Pow2(k % 8) % 2
  }

  /** The n bits at p as a number, the first bit lowest (section 1.5 of RFC 7932). */
  function Value(data: seq<Byte>, p: nat, n: nat): (v: nat)
    requires p + n <= 8 * |data|
    ensures v < Pow2(n)
  {
    if n == 0 then 0 else Value(data, p, n - 1) + Bit(data, p + n - 1) * Pow2(n - 1)
  }

  /** The n bits at p as a prefix code, the first bit highest. */
  function CodeAt(data: seq<Byte>, p: nat, n: nat): (c: nat)
    requires p + n <= 8 * |data|
    ensures c < Pow2(n)
  {
    if n == 0 then 0 else 2 * CodeAt(data, p, n - 1) + Bit(data, p + n - 1)
  }

  lemma NoBits(data: seq<Byte>, p: nat)
    requires p <= 8 * |data|
    ensures Value(data, p, 0) == 0 && Pow2(0) == 1
  {
  }

  lemma NextBit(data: seq<Byte>, p: nat, k: nat)
    requires p + k < 8 * |data|
    ensures Value(data, p, k + 1) == Value(data, p, k) + Bit(data, p + k) * Pow2(k) && Pow2(k + 1) == 2 * Pow2(k)
  {
  }

  /** A number is its low bits, and its high bits after them. */
  lemma {:induction false} ValueParts(data: seq<Byte>, p: nat, m: nat, n: nat)
    requires p + m + n <= 8 * |data|
    ensures Value(data, p, m + n) == Value(data, p, m) + Pow2(m) * Value(data, p + m, n)
    decreases n
  {
    hide Pow2, Bit, Value;
    if n == 0 {
      NoBits(data, p + m);
    } else {
      ValueParts(data, p, m, n - 1);
      NextBit(data, p, m + n - 1);
      NextBit(data, p + m, n - 1);
      Pow2Sum(m, n - 1);
      Distributes(Pow2(m), Value(data, p + m, n - 1), Bit(data, p + m + n - 1), Pow2(n - 1));
    }
  }

  lemma Distributes(a: nat, v: nat, b: nat, q: nat)
    ensures a * (v + b * q) == a * v + b * (a * q)
  {
  }

  /** A code's first bits are the code without its last ones. */
  lemma {:induction false} CodeStart(data: seq<Byte>, p: nat, m: nat, n: nat)
    requires m <= n && p + n <= 8 * |data|
    ensures CodeAt(data, p, m) * Pow2(n - m) <= CodeAt(data, p, n) < (CodeAt(data, p, m) + 1) * Pow2(n - m)
    decreases n
  {
    if m < n {
      CodeStart(data, p, m, n - 1);
      OneMoreBit(CodeAt(data, p, m), Pow2(n - 1 - m), CodeAt(data, p, n - 1), Bit(data, p + n - 1));
    }
  }

  lemma OneMoreBit(c: nat, q: nat, d: nat, b: nat)
    requires c * q <= d < (c + 1) * q && b < 2
    ensures c * (2 * q) <= 2 * d + b < (c + 1) * (2 * q)
  {
    assert c * (2 * q) == 2 * (c * q) && (c + 1) * (2 * q) == 2 * ((c + 1) * q);
  }

  class Bits {
    const data: seq<Byte>
    var pos: nat
    var bit: nat

    constructor (data: seq<Byte>)
      ensures Valid() && this.data == data && At() == 0
    {
      this.data, pos, bit := data, 0, 0;
    }

    ghost predicate Valid()
      reads this
    {
      bit < 8 && pos <= |data| && (pos == |data| ==> bit == 0)
    }

    /** The number of bits read. */
    ghost function At(): (p: nat)
      requires Valid()
      reads this
      ensures p <= 8 * |data|
    {
      8 * pos + bit
    }

    /** n bits as a number; fails when the input runs out. */
    method Read(n: nat) returns (r: Option<nat>)
      requires Valid()
      modifies this
      ensures Valid() && old(At()) <= At()
      ensures r.Some? <==> old(At()) + n <= 8 * |data|
      ensures r.Some? ==> At() == old(At()) + n && r.value == Value(data, old(At()), n)
    {
      hide Value, Pow2;
      var v, scale := 0, 1;
      ghost var p := At();
      NoBits(data, p);
      for k := 0 to n
        invariant Valid() && At() == p + k && v == Value(data, p, k) && scale == Pow2(k)
      {
        if pos >= |data| {
          return None;
        }
        var b := data[pos] / Pow2(bit) % 2;
        assert b == Bit(data, p + k);
        NextBit(data, p, k);
        v := v + b * scale;
        scale := 2 * scale;
        bit := bit + 1;
        if bit == 8 {
          bit, pos := 0, pos + 1;
        }
      }
      r := Some(v);
    }

    /** Go to the next whole byte; fails when the bits skipped are not zero. */
    method Align() returns (ok: bool)
      requires Valid()
      modifies this
      ensures Valid() && bit == 0 && old(At()) <= At()
      ensures pos == if old(bit) == 0 then old(pos) else old(pos) + 1
      ensures ok <==> old(bit) == 0 || data[old(pos)] / Pow2(old(bit)) == 0
    {
      ok := true;
      if bit != 0 {
        ok := data[pos] / Pow2(bit) == 0;
        bit, pos := 0, pos + 1;
      }
    }

    /** Move on by whole bytes. */
    method Skip(n: nat)
      requires Valid() && bit == 0 && pos + n <= |data|
      modifies this
      ensures Valid() && bit == 0 && pos == old(pos) + n
    {
      pos := pos + n;
    }
  }
}
