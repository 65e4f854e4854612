/** Little-endian numbers, as the icon writer and its readers have them (lib/ugfx/tools/uic.py). */
module UicBytes {
  import opened Wrappers

  const U16: nat := 0x1_0000
  const U32: nat := 0x1_0000_0000

  function Put16(n: nat): (r: seq<Byte>)
    requires n < U16
    ensures |r| == 2
  {
    [n % 256, n / 256]
  }

  function Put32(n: nat): (r: seq<Byte>)
    requires n < U32
    ensures |r| == 4
  {
    Put16(n % U16) + Put16(n / U16)
  }

  /** The numbers that 16 bits can hold with a sign. */
  predicate InRange(q: int) { -0x8000 <= q < 0x8000 }

  /** A signed number of 16 bits, in two's complement. */
  function PutI16(q: int): (r: seq<Byte>)
    requires InRange(q)
    ensures |r| == 2
  {
    Put16(if q < 0 then q + U16 else q)
  }

  /** The bytes from p on, as many as there are of n. */
  function Slice(data: seq<Byte>, p: nat, n: nat): seq<Byte> {
    if p + n <= |data| then data[p..p + n] else if p < |data| then data[p..] else []
  }

  /** Reading past the end fails. */
  function Get16(data: seq<Byte>, p: nat): Option<nat> {
    if p + 2 > |data| then None
    else
      var lo: int, hi: int := data[p], data[p + 1];
      Some(lo + 256 * hi)
  }

  function Get32(data: seq<Byte>, p: nat): Option<nat> {
    if p + 4 > |data| then None
    else Some(Get16(data, p).value + U16 * Get16(data, p + 2).value)
  }

  function GetI16(data: seq<Byte>, p: nat): Option<int> {
    match Get16(data, p)
    case None => None
    case Some(n) => Some(if n >= 0x8000 then n - U16 else n)
  }

  /** What stands at p in data. */
  ghost predicate Stands(part: seq<Byte>, data: seq<Byte>, p: nat) {
    p + |part| <= |data| && data[p..p + |part|] == part
  }

  lemma StandsAt(part: seq<Byte>, data: seq<Byte>, p: nat, k: nat)
    requires Stands(part, data, p) && k < |part|
    ensures p + k < |data| && data[p + k] == part[k]
  {
    assert data[p..p + |part|][k] == data[p + k];
  }

  /** The parts of what stands there stand one after the other. */
  lemma StandsParts(a: seq<Byte>, b: seq<Byte>, data: seq<Byte>, p: nat)
    requires Stands(a + b, data, p)
    ensures Stands(a, data, p) && Stands(b, data, p + |a|)
  {
    assert data[p..p + |a|] == data[p..p + |a + b|][..|a|] == (a + b)[..|a|] == a;
    assert data[p + |a|..p + |a| + |b|] == data[p..p + |a + b|][|a|..] == (a + b)[|a|..] == b;
  }

  lemma StandsIn(before: seq<Byte>, part: seq<Byte>, after: seq<Byte>)
    ensures Stands(part, before + part + after, |before|)
  {
  }

  lemma Get16Put(n: nat, data: seq<Byte>, p: nat)
    requires n < U16 && Stands(Put16(n), data, p)
    ensures Get16(data, p) == Some(n)
  {
    StandsAt(Put16(n), data, p, 0);
    StandsAt(Put16(n), data, p, 1);
  }

  lemma Get32Put(n: nat, data: seq<Byte>, p: nat)
    requires n < U32 && Stands(Put32(n), data, p)
    ensures Get32(data, p) == Some(n)
  {
    StandsParts(Put16(n % U16), Put16(n / U16), data, p);
    Get16Put(n % U16, data, p);
    Get16Put(n / U16, data, p + 2);
  }

  lemma GetI16Put(q: int, data: seq<Byte>, p: nat)
    requires InRange(q) && Stands(PutI16(q), data, p)
    ensures GetI16(data, p) == Some(q)
  {
    Get16Put(if q < 0 then q + U16 else q, data, p);
  }
}
