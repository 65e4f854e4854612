/** Names as text and in UTF-8, as icon packs are written and read (str.encode and bytes.decode of
    Python, strict). */
module UicNames {
  import opened Wrappers

  type CodePoint = c: int | 0 <= c < 0x110000

  type Text = seq<CodePoint>

  predicate Surrogate(c: CodePoint) { 0xD800 <= c < 0xE000 }

  /** They are those whose highest ten bits are 0x1B. */
  lemma SurrogatesAre(c: CodePoint)
    ensures Surrogate(c) <==> c / 0x800 == 0x1B
  {
  }

  /** Text with a lone surrogate cannot be encoded. */
  predicate Encodable(t: Text) { forall k :: 0 <= k < |t| ==> !Surrogate(t[k]) }

  // --------------------------------------------------------------------- one character

  function Bytes(c: CodePoint): (r: seq<Byte>)
    ensures 1 <= |r| <= 4
  {
    var c1 := c / 64;
    var c2 := c1 / 64;
    if c < 0x80 then [c]
    else if c < 0x800 then [0xC0 + c1, 0x80 + c % 64]
    else if c < 0x10000 then [0xE0 + c2, 0x80 + c1 % 64, 0x80 + c % 64]
    else [0xF0 + c2 / 64, 0x80 + c2 % 64, 0x80 + c1 % 64, 0x80 + c % 64]
  }

  /** The number of bytes a character has by its first one; none for a byte that starts no
      character. */
  function Length(b: Byte): Option<nat> {
    if b < 0x80 then Some(1)
    else if 0xC0 <= b < 0xE0 then Some(2)
    else if 0xE0 <= b < 0xF0 then Some(3)
    else if 0xF0 <= b < 0xF8 then Some(4)
    else None
  }

  predicate Continues(b: Byte) { 0x80 <= b < 0xC0 }

  /** Six bits more. */
  function More(n: nat, b: Byte): nat
    requires Continues(b)
  {
    64 * n + (b - 0x80)
  }

  lemma MoreParts(n: nat, b: Byte)
    requires Continues(b)
    ensures More(n, b) / 64 == n && 0x80 + More(n, b) % 64 == b
  {
  }

  lemma PartsMore(c: nat)
    ensures More(c / 64, 0x80 + c % 64) == c
  {
  }

  /** The number that the bytes of a character say. */
  function Number(b: seq<Byte>): nat
    requires 1 <= |b| <= 4 && Length(b[0]) == Some(|b|) && forall k :: 1 <= k < |b| ==> Continues(b[k])
  {
    if |b| == 1 then b[0]
    else if |b| == 2 then More(b[0] - 0xC0, b[1])
    else if |b| == 3 then More(More(b[0] - 0xE0, b[1]), b[2])
    else More(More(More(b[0] - 0xF0, b[1]), b[2]), b[3])
  }

  /** The least number that takes n bytes. */
  function Least(n: nat): nat { if n <= 1 then 0 else if n == 2 then 0x80 else if n == 3 then 0x800 else 0x10000 }

  /** The character at the start of b: its bytes are all there, no number has more bytes than it
      takes, and none is a surrogate or too large. */
  function First(b: seq<Byte>): (r: Option<(CodePoint, nat)>)
    requires b != []
    ensures r.Some? ==> 1 <= r.value.1 <= |b|
  {
    match Length(b[0])
    case None => None
    case Some(n) =>
      if n > |b| || exists k :: 1 <= k < n && !Continues(b[k]) then None
      else
        var c := Number(b[..n]);
        if c < Least(n) || c >= 0x110000 || Surrogate(c) then None else Some((c, n))
  }

  lemma FirstOfBytes(c: CodePoint, rest: seq<Byte>)
    requires !Surrogate(c)
    ensures First(Bytes(c) + rest) == Some((c, |Bytes(c)|))
  {
    var b := Bytes(c) + rest;
    assert b[..|Bytes(c)|] == Bytes(c);
    NumberOfBytes(c);
  }

  lemma NumberOfBytes(c: CodePoint)
    ensures var b := Bytes(c);
      && Length(b[0]) == Some(|b|) && (forall k :: 1 <= k < |b| ==> Continues(b[k]))
      && Number(b) == c >= Least(|b|)
  {
    hide More;
    PartsMore(c);
    PartsMore(c / 64);
    PartsMore(c / 64 / 64);
  }

  lemma BytesOfFirst(b: seq<Byte>)
    requires b != [] && First(b).Some?
    ensures var (c, n) := First(b).value; !Surrogate(c) && Bytes(c) == b[..n]
  {
    var (c, n) := First(b).value;
    BytesOfNumber(b[..n]);
  }

  lemma BytesOfNumber(b: seq<Byte>)
    requires 1 <= |b| <= 4 && Length(b[0]) == Some(|b|) && forall k :: 1 <= k < |b| ==> Continues(b[k])
    requires Least(|b|) <= Number(b) < 0x110000
    ensures Bytes(Number(b)) == b
  {
    hide More;
    if |b| == 2 {
      MoreParts(b[0] - 0xC0, b[1]);
    } else if |b| == 3 {
      var n := More(b[0] - 0xE0, b[1]);
      MoreParts(b[0] - 0xE0, b[1]);
      MoreParts(n, b[2]);
    } else if |b| == 4 {
      var n := More(b[0] - 0xF0, b[1]);
      MoreParts(b[0] - 0xF0, b[1]);
      MoreParts(n, b[2]);
      MoreParts(More(n, b[2]), b[3]);
    }
    assert Short(Number(b), |b|) by {
      NumberShort(b);
    }
  }

  /** What n bytes can say. */
  predicate Short(c: nat, n: nat) {
    c < if n == 1 then 0x80 else if n == 2 then 0x800 else if n == 3 then 0x10000 else 0x200000
  }

  lemma NumberShort(b: seq<Byte>)
    requires 1 <= |b| <= 4 && Length(b[0]) == Some(|b|) && forall k :: 1 <= k < |b| ==> Continues(b[k])
    ensures Short(Number(b), |b|)
  {
  }

  // --------------------------------------------------------------------------- a text

  function Utf8(t: Text): seq<Byte> {
    if t == [] then [] else Bytes(t[0]) + Utf8(t[1..])
  }

  function Decoded(b: seq<Byte>): Option<Text> {
    if b == [] then Some([])
    else
      match First(b)
      case None => None
      case Some((c, n)) =>
        match Decoded(b[n..])
        case None => None
        case Some(t) => Some([c] + t)
  }

  /** Text that can be encoded is decoded again. */
  lemma {:induction false} DecodedUtf8(t: Text)
    requires Encodable(t)
    ensures Decoded(Utf8(t)) == Some(t)
  {
    if t != [] {
      hide Bytes, First;
      var rest := Utf8(t[1..]);
      FirstOfBytes(t[0], rest);
      assert (Bytes(t[0]) + rest)[|Bytes(t[0])|..] == rest;
      DecodedUtf8(t[1..]);
      assert [t[0]] + t[1..] == t;
    }
  }

  /** The first character of what is decoded, and the others. */
  lemma DecodedParts(b: seq<Byte>, t: Text) returns (n: nat)
    requires b != [] && Decoded(b) == Some(t)
    ensures t != [] && n <= |b| && 0 < n && Decoded(b[n..]) == Some(t[1..])
    ensures !Surrogate(t[0]) && Bytes(t[0]) == b[..n]
  {
    hide First, Bytes;
    n := First(b).value.1;
    BytesOfFirst(b);
    assert t[1..] == Decoded(b[n..]).value;
  }

  /** What is decoded can be encoded, and is what these bytes encode. */
  lemma {:induction false} Utf8Decoded(b: seq<Byte>, t: Text)
    requires Decoded(b) == Some(t)
    ensures Encodable(t) && Utf8(t) == b
    decreases |b|
  {
    if b != [] {
      hide Bytes, Decoded;
      var n := DecodedParts(b, t);
      Utf8Decoded(b[n..], t[1..]);
      assert Utf8(t) == b[..n] + b[n..];
      assert b == b[..n] + b[n..];
      assert forall k :: 1 <= k < |t| ==> t[k] == t[1..][k - 1];
    }
  }
}
