/** Text stored as it is: a stream of uncompressed meta-blocks, which decodes to the text (sections
    9.1 and 9.2 of RFC 7932). */
module BrotliStored {
  import opened Wrappers
  import opened BrotliBits
  import opened BrotliParse
  import opened BrotliCommands
  import opened BrotliStream

  // ------------------------------------------------------------------ bits of whole bytes

  /** The low bits of a number are its remainder, the others its quotient. */
  lemma Field(data: seq<Byte>, p: nat, m: nat, n: nat)
    requires p + m + n <= 8 * |data|
    ensures Value(data, p, m) == Value(data, p, m + n) % Pow2(m)
    ensures Value(data, p + m, n) == Value(data, p, m + n) / Pow2(m)
  {
    hide Value, Pow2;
    ValueParts(data, p, m, n);
    var v, w := Value(data, p, m), Value(data, p + m, n);
    Unique(Pow2(m), Value(data, p, m + n) / Pow2(m), Value(data, p, m + n) % Pow2(m), w, v);
  }

  lemma Powers()
    ensures Pow2(0) == 1 && Pow2(1) == 2 && Pow2(2) == 4 && Pow2(3) == 8 && Pow2(4) == 16 && Pow2(7) == 128
    ensures Pow2(8) == 256 && Pow2(16) == 65536
  {
    assert Pow2(8) == 256 && Pow2(12) == 4096;
  }

  lemma {:induction false} ByteBits(data: seq<Byte>, k: nat, n: nat)
    requires k < |data| && n <= 8
    ensures Value(data, 8 * k, n) == data[k] as int % Pow2(n)
  {
    Powers();
    if n > 0 {
      hide Value;
      NextBit(data, 8 * k, n - 1);
      ByteBits(data, k, n - 1);
      assert (8 * k + n - 1) / 8 == k && (8 * k + n - 1) % 8 == n - 1;
      BitMore(data[k], n - 1);
    } else {
      NoBits(data, 8 * k);
    }
  }

  /** A whole byte is its eight bits. */
  lemma ByteIs(data: seq<Byte>, k: nat)
    requires k < |data|
    ensures Value(data, 8 * k, 8) == data[k]
  {
    hide Value, Pow2;
    ByteBits(data, k, 8);
    Powers();
  }

  /** Three bytes in a row. */
  lemma ThreeBytes(data: seq<Byte>, k: nat)
    requires k + 3 <= |data|
    ensures Value(data, 8 * k, 24) == data[k] as int + 256 * data[k + 1] as int + 65536 * data[k + 2] as int
  {
    hide Value;
    Powers();
    ByteIs(data, k);
    ByteIs(data, k + 1);
    ByteIs(data, k + 2);
    ValueParts(data, 8 * k, 8, 8);
    ValueParts(data, 8 * k, 16, 8);
  }

  // --------------------------------------------------------------- a meta-block of text

  const CHUNK: nat := 65536

  /** The head of a meta-block of n bytes: not the last, four digits, n - 1, uncompressed. */
  ghost function ChunkHead(n: nat): (r: seq<Byte>)
    requires 1 <= n <= CHUNK
    ensures |r| == 3
  {
    var v := 8 * (n - 1) + 524288;
    [v % 256, v / 256 % 256, v / 65536]
  }

  ghost function Size(text: seq<Byte>): (n: nat)
    requires text != []
    ensures 1 <= n <= |text| && n <= CHUNK
  {
    if |text| < CHUNK then |text| else CHUNK
  }

  ghost function Chunks(text: seq<Byte>): seq<Byte> {
    if text == [] then []
    else ChunkHead(Size(text)) + text[..Size(text)] + Chunks(text[Size(text)..])
  }

  /** A window of 2^16 bytes and metadata that fills up the first byte; the text; an empty last
      meta-block. */
  ghost function Stored(text: seq<Byte>): seq<Byte> { [12] + Chunks(text) + [3] }

  /** What stands at byte k. */
  ghost predicate At(part: seq<Byte>, data: seq<Byte>, k: nat) {
    k + |part| <= |data| && forall i :: 0 <= i < |part| ==> part[i] == data[k + i]
  }

  /** The bits of the head of a meta-block. */
  lemma HeadBits(data: seq<Byte>, k: nat, n: nat)
    requires 1 <= n <= CHUNK && At(ChunkHead(n), data, k)
    ensures k + 3 <= |data|
    ensures var p := 8 * k;
      && Value(data, p, 1) == 0 && Value(data, p + 1, 2) == 0 && Value(data, p + 3, 16) == n - 1
      && Value(data, p + 19, 1) == 1
    ensures data[k + 2] as int / 16 == 0
  {
    hide Value, Pow2;
    var p, h, m: nat := 8 * k, ChunkHead(n), n - 1;
    assert h[0] == data[k + 0] && h[1] == data[k + 1] && h[2] == data[k + 2];
    ThreeBytes(data, k);
    Powers();
    var v := 8 * m + 524288;
    assert Value(data, p, 24) == v;
    Field(data, p, 1, 23);
    Field(data, p + 1, 2, 21);
    Field(data, p + 3, 16, 5);
    Field(data, p + 19, 1, 4);
    assert v / 2 == 4 * m + 262144 && v / 2 / 4 == m + 65536;
  }

  /** A meta-block of text adds the text. */
  lemma ChunkAdds(f: Fixed, maxback: nat, limit: nat, x: Text, data: seq<Byte>, k: nat, piece: seq<Byte>)
    requires Recorded(x.past) && !x.last && 1 <= |piece| <= CHUNK && |x.out| + |piece| <= limit
    requires At(ChunkHead(|piece|), data, k) && At(piece, data, k + 3)
    ensures MetaBlock(f, maxback, limit, x, data, 8 * k) == Done(x.(out := x.out + piece), 8 * (k + 3 + |piece|))
  {
    hide Value, Pow2, Recorded, Compressed, ChunkHead;
    HeadBits(data, k, |piece|);
    Powers();
    var p := 8 * k;
    assert Kind(data, p) == Done((false, false), p + 1);
    assert Digits(data, p + 3, 4, 4, 4) == Done(|piece| - 1, p + 19);
    assert (p + 20) / 8 == k + 2 && (p + 20) % 8 == 4;
    assert Aligned(data, p + 20) == Some(8 * (k + 3));
    assert data[k + 3..k + 3 + |piece|] == piece;
    assert Raw(x, |piece|, data, p + 20) == Done(x.(out := x.out + piece), 8 * (k + 3 + |piece|));
  }

  /** The last meta-block is empty, and ends the stream. */
  lemma LastEnds(f: Fixed, maxback: nat, limit: nat, x: Text, data: seq<Byte>, k: nat)
    requires Recorded(x.past) && At([3], data, k) && k + 1 == |data|
    ensures MetaBlock(f, maxback, limit, x, data, 8 * k) == Done(x.(last := true), 8 * k + 2)
    ensures Aligned(data, 8 * k + 2) == Some(8 * |data|)
  {
    hide Value, Pow2, Recorded, Data, Metadata;
    assert [3][0] == data[k + 0];
    Powers();
    ByteBits(data, k, 2);
    Field(data, 8 * k, 1, 1);
    assert (8 * k + 2) / 8 == k && (8 * k + 2) % 8 == 2;
  }

  lemma NextMetaBlock(f: Fixed, maxback: nat, limit: nat, x: Text, data: seq<Byte>, p: nat, y: Text, q: nat)
    requires Recorded(x.past) && Recorded(y.past) && p <= 8 * |data| && q <= 8 * |data|
    requires MetaBlock(f, maxback, limit, x, data, p) == Done(y, q)
    ensures MetaBlocks(f, maxback, limit, x, data, p) ==
      if y.last then Done(y, q) else MetaBlocks(f, maxback, limit, y, data, q)
  {
    hide MetaBlock, Recorded;
    MetaBlockAdds(f, maxback, limit, x, data, p);
  }

  lemma ChunksParts(text: seq<Byte>)
    requires text != []
    ensures var n := Size(text);
      Chunks(text) + [3] == ChunkHead(n) + text[..n] + (Chunks(text[n..]) + [3])
  {
    hide ChunkHead, Size;
  }

  lemma PartsAt(a: seq<Byte>, b: seq<Byte>, c: seq<Byte>, data: seq<Byte>, k: nat)
    requires At(a + b + c, data, k)
    ensures At(a, data, k) && At(b, data, k + |a|) && At(c, data, k + |a| + |b|)
  {
    var all := a + b + c;
    var m, n := |a|, |a| + |b|;
    forall i | 0 <= i < |a| ensures a[i] == data[k + i] {
      assert all[i] == a[i];
    }
    forall i | 0 <= i < |b| ensures b[i] == data[k + m + i] {
      assert all[m + i] == b[i] && all[m + i] == data[k + (m + i)];
    }
    forall i | 0 <= i < |c| ensures c[i] == data[k + n + i] {
      assert all[n + i] == c[i] && all[n + i] == data[k + (n + i)];
    }
  }

  lemma LastAt(data: seq<Byte>, k: nat, part: seq<Byte>)
    requires At(part, data, k) && k + |part| == |data| && part == [3]
    ensures At([3], data, k) && k + 1 == |data|
  {
  }

  lemma {:induction false} ChunksAdd(f: Fixed, maxback: nat, limit: nat, x: Text, data: seq<Byte>, k: nat,
                                     text: seq<Byte>)
    requires Recorded(x.past) && !x.last && |x.out| + |text| <= limit && k < |data|
    requires At(Chunks(text) + [3], data, k) && k + |Chunks(text)| + 1 == |data|
    ensures MetaBlocks(f, maxback, limit, x, data, 8 * k) ==
      Done(x.(last := true, out := x.out + text), 8 * |data| - 6)
    ensures Aligned(data, 8 * |data| - 6) == Some(8 * |data|)
    decreases |text|
  {
    hide MetaBlock, MetaBlocks, Recorded, ChunkHead, At, Aligned, Chunks;
    if text == [] {
      NoChunks();
      assert x.out + text == x.out;
      LastAt(data, k, Chunks(text) + [3]);
      LastEnds(f, maxback, limit, x, data, k);
      NextMetaBlock(f, maxback, limit, x, data, 8 * k, x.(last := true), 8 * k + 2);
    } else {
      var n := Size(text);
      var piece, rest := text[..n], text[n..];
      var y := x.(out := x.out + piece);
      ChunksParts(text);
      PartsAt(ChunkHead(n), piece, Chunks(rest) + [3], data, k);
      ChunkAdds(f, maxback, limit, x, data, k, piece);
      var next := k + 3 + n;
      NextMetaBlock(f, maxback, limit, x, data, 8 * k, y, 8 * next);
      ChunksAdd(f, maxback, limit, y, data, next, rest);
      assert y.out + rest == x.out + text;
    }
  }

  lemma NoChunks()
    ensures Chunks([]) + [3] == [3] && Chunks([]) == []
  {
  }

  /** The first byte: a window of 2^16 bytes, and metadata without any bytes. */
  lemma FirstByte(f: Fixed, maxback: nat, limit: nat, data: seq<Byte>)
    requires data != [] && data[0] == 12
    ensures WindowBits(data, 0) == Done(16, 1)
    ensures Recorded(START.past) && MetaBlock(f, maxback, limit, START, data, 1) == Done(START, 8)
  {
    hide Value, Pow2, Data;
    Powers();
    ByteBits(data, 0, 8);
    Field(data, 0, 1, 7);
    Field(data, 1, 1, 6);
    Field(data, 2, 2, 4);
    Field(data, 4, 1, 3);
    Field(data, 5, 2, 1);
    NoBits(data, 7);
    assert Digits(data, 7, 8, 0, 1) == Done(0, 7);
    assert Aligned(data, 7) == Some(8);
  }

  /** Every text within the limit has a stream that decodes to it. */
  lemma StoredDecodes(f: Fixed, limit: nat, text: seq<Byte>)
    requires |text| <= limit
    ensures Output(f, limit, Stored(text)) == Some(text)
  {
    hide MetaBlock, MetaBlocks, WindowBits, Chunks, Aligned;
    var data, maxback := Stored(text), MaxBack(16);
    FirstByte(f, maxback, limit, data);
    StoredParts(text);
    NextMetaBlock(f, maxback, limit, START, data, 1, START, 8);
    ChunksAdd(f, maxback, limit, START, data, 1, text);
    assert START.out + text == text;
  }

  lemma StoredParts(text: seq<Byte>)
    ensures var data := Stored(text);
      data[0] == 12 && At(Chunks(text) + [3], data, 1) && 1 + |Chunks(text)| + 1 == |data|
  {
    hide Chunks;
    var data := Stored(text);
    var rest := Chunks(text) + [3];
    assert data == [12] + rest;
    forall i | 0 <= i < |rest| ensures rest[i] == data[1 + i] {
    }
  }

  // -------------------------------------------------------------------- the window sizes

  /** The code of each window size from 10 to 24, in at most seven bits. */
  ghost predicate WindowCode(data: seq<Byte>, p: nat, w: nat)
    requires p + 7 <= 8 * |data|
  {
    if w == 16 then Value(data, p, 1) == 0
    else if w == 17 then Value(data, p, 7) == 1
    else if w >= 18 then w <= 24 && Value(data, p, 4) == 2 * (w - 17) + 1
    else w >= 10 && Value(data, p, 7) == 16 * (w - 8) + 1
  }

  lemma WindowIs(data: seq<Byte>, p: nat, w: nat)
    requires p + 7 <= 8 * |data|
    ensures WindowCode(data, p, w) <==> WindowBits(data, p).Done? && WindowBits(data, p).value == w
  {
    hide Value, Pow2;
    Powers();
    Field(data, p, 1, 6);
    Field(data, p, 1, 3);
    Field(data, p + 1, 3, 3);
    Field(data, p, 4, 3);
  }

  /** A window is 16 bytes less than a power of 2. */
  lemma WindowSizes(w: nat)
    requires w >= 10
    ensures MaxBack(10) == 1008 && MaxBack(w + 1) == 2 * MaxBack(w) + 16
  {
    Powers();
    assert Pow2(10) == 1024;
  }
}
