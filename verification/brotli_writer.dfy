/** The inverse of the bit reader: bits put into bytes, and numbers and codes into bits. */
module BrotliWriter {
  import opened Wrappers
  import opened BrotliBits

  type BitString = s: seq<nat> | forall i :: 0 <= i < |s| ==> s[i] < 2

  // --------------------------------------------------------------- bits in bytes

  /** The first of the bits is the lowest. */
  ghost function ByteOf(b: BitString): (n: nat)
    ensures n < Pow2(|b|)
  {
    if b == [] then 0 else b[0] + 2 * ByteOf(b[1..])
  }

  lemma Halves(d: nat, r: nat, m: nat)
    requires d < 2 && m > 0
    ensures (d + 2 * r) / (2 * m) == r / m
  {
    Divided(r, m);
    Doubled(r / m, m);
    DividedBy(d + 2 * r, 2 * m, r / m, d + 2 * (r % m));
  }

  lemma Doubled(q: nat, m: nat)
    ensures q * (2 * m) == 2 * (q * m)
  {
  }

  lemma {:induction false} BitOfByte(b: BitString, k: nat)
    requires k < |b|
    ensures ByteOf(b) / Pow2(k) % 2 == b[k]
  {
    if k > 0 {
      BitOfByte(b[1..], k - 1);
      Pow2Next(k - 1);
      Halves(b[0], ByteOf(b[1..]), Pow2(k - 1));
    }
  }

  ghost function PutBits(b: BitString): (r: seq<Byte>)
    requires |b| % 8 == 0
    ensures 8 * |r| == |b|
  {
    if b == [] then []
    else
      EightBits(b[..8]);
      [ByteOf(b[..8])] + PutBits(b[8..])
  }

  lemma EightBits(b: BitString)
    requires |b| == 8
    ensures ByteOf(b) < 256
  {
    assert Pow2(8) == 256;
  }

  /** The bits of the input from p on. */
  ghost predicate BitsAt(data: seq<Byte>, p: nat, b: BitString) {
    p + |b| <= 8 * |data| && forall i :: 0 <= i < |b| ==> b[i] == Bit(data, p + i)
  }

  lemma {:induction false} BitOfBytes(b: BitString, k: nat)
    requires |b| % 8 == 0 && k < |b|
    ensures Bit(PutBits(b), k) == b[k]
    decreases |b|
  {
    var rest := PutBits(b[8..]);
    EightBits(b[..8]);
    if k < 8 {
      BitOfByte(b[..8], k);
    } else {
      BitOfBytes(b[8..], k - 8);
      assert (k - 8) / 8 == k / 8 - 1 && (k - 8) % 8 == k % 8;
    }
  }

  /** What is put into bytes is read back. */
  lemma BytesBack(b: BitString)
    requires |b| % 8 == 0
    ensures BitsAt(PutBits(b), 0, b)
  {
    forall i | 0 <= i < |b| ensures b[i] == Bit(PutBits(b), 0 + i) {
      BitOfBytes(b, i);
    }
  }

  lemma BitsParts(data: seq<Byte>, p: nat, a: BitString, b: BitString)
    requires BitsAt(data, p, a + b)
    ensures BitsAt(data, p, a) && BitsAt(data, p + |a|, b)
  {
    var all := a + b;
    forall i | 0 <= i < |a| ensures a[i] == Bit(data, p + i) {
      assert all[i] == a[i];
    }
    forall i | 0 <= i < |b| ensures b[i] == Bit(data, p + |a| + i) {
      assert all[|a| + i] == b[i] && all[|a| + i] == Bit(data, p + (|a| + i));
    }
  }

  // ------------------------------------------------------------- numbers and codes

  /** The lowest w bits of a number, the lowest first. */
  ghost function Low(v: nat, w: nat): (b: BitString)
    ensures |b| == w
  {
    seq(w, i requires 0 <= i < w => v / Pow2(i) % 2)
  }

  lemma {:induction false} LowStart(data: seq<Byte>, p: nat, v: nat, w: nat, k: nat)
    requires k <= w && BitsAt(data, p, Low(v, w))
    ensures p + k <= 8 * |data| && Value(data, p, k) == v % Pow2(k)
  {
    hide Value, Bit, Pow2;
    if k == 0 {
      NoBits(data, p);
    } else {
      LowStart(data, p, v, w, k - 1);
      assert Low(v, w)[k - 1] == Bit(data, p + (k - 1));
      NextBit(data, p, k - 1);
      BitMore(v, k - 1);
    }
  }

  /** They are read back. */
  lemma LowBack(data: seq<Byte>, p: nat, v: nat, w: nat)
    requires v < Pow2(w) && BitsAt(data, p, Low(v, w))
    ensures p + w <= 8 * |data| && Value(data, p, w) == v
  {
    hide Value, Bit, Pow2;
    LowStart(data, p, v, w, w);
    DividedBy(v, Pow2(w), 0, v);
  }

  lemma FirstBit(data: seq<Byte>, p: nat)
    requires p < 8 * |data|
    ensures Value(data, p, 1) == Bit(data, p) && Pow2(1) == 2
  {
    NoBits(data, p);
    NextBit(data, p, 0);
  }

  /** A code in w bits, the highest first. */
  ghost function High(c: nat, w: nat): (b: BitString)
    requires c < Pow2(w)
    ensures |b| == w
  {
    if w == 0 then [] else High(c / 2, w - 1) + [c % 2]
  }

  lemma {:induction false} HighBack(data: seq<Byte>, p: nat, c: nat, w: nat)
    requires c < Pow2(w) && BitsAt(data, p, High(c, w))
    ensures p + w <= 8 * |data| && CodeAt(data, p, w) == c
  {
    if w > 0 {
      var front, last: BitString := High(c / 2, w - 1), [c % 2];
      BitsParts(data, p, front, last);
      HighBack(data, p, c / 2, w - 1);
      assert last[0] == Bit(data, p + (w - 1) + 0);
    }
  }
}
