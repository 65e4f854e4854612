/** The three-level tables of character data (trie of lib/ufont/tools/ucd_table.py) and the
    shift-and-mask lookup they are emitted with. */
module Trie {

  const CODE_POINTS: nat := 0x110000

  /** 64 values to a block, 32 blocks to a chunk. */
  const BLOCK: nat := 64
  const CHUNK: nat := 32
  const CHUNKS: nat := 544

  /** Block b of the values. */
  function BlockOf<V>(values: seq<V>, b: nat): (r: seq<V>)
    requires BLOCK * (b + 1) <= |values|
    ensures |r| == BLOCK
  {
    values[BLOCK * b..BLOCK * b + BLOCK]
  }

  /** Every entry of a table is there once, and the dictionary has its number. */
  ghost predicate Numbered<T>(table: seq<seq<T>>, ids: map<seq<T>, nat>) {
    && (forall x :: x in ids ==> ids[x] < |table| && table[ids[x]] == x)
    && (forall k: nat :: k < |table| ==> table[k] in ids && ids[table[k]] == k)
  }

  lemma NothingNumbered<T>()
    ensures Numbered<T>([], map[])
  {
  }

  /** No entry is kept twice. */
  lemma NoneTwice<T>(table: seq<seq<T>>, ids: map<seq<T>, nat>)
    requires Numbered(table, ids)
    ensures forall i: nat, j: nat :: i < j < |table| ==> table[i] != table[j]
  {
    forall i: nat, j: nat | i < j < |table| ensures table[i] != table[j] {
      assert ids[table[i]] == i && ids[table[j]] == j;
    }
  }

  /** The number of an entry, which is added when it is not there yet. */
  method Number<T(==)>(table0: seq<seq<T>>, ids0: map<seq<T>, nat>, x: seq<T>)
      returns (table: seq<seq<T>>, ids: map<seq<T>, nat>, id: nat)
    requires Numbered(table0, ids0)
    ensures Numbered(table, ids) && table0 <= table && |table| <= |table0| + 1
    ensures id < |table| && table[id] == x && (|table| > |table0| ==> id == |table0|)
  {
    table, ids := table0, ids0;
    if x !in ids {
      ids := ids[x := |table|];
      table := table + [x];
    }
    id := ids[x];
  }

  /** The ids of chunk c name its blocks. */
  ghost predicate Names<V>(values: seq<V>, blocks: seq<seq<V>>, c: nat, chunk: seq<nat>) {
    BLOCK * (CHUNK * c + |chunk|) <= |values| && forall e: nat :: e < |chunk| ==> NamesAt(values, blocks, c, chunk, e)
  }

  ghost predicate NamesAt<V>(values: seq<V>, blocks: seq<seq<V>>, c: nat, chunk: seq<nat>, e: nat)
    requires e < |chunk| && BLOCK * (CHUNK * c + |chunk|) <= |values|
  {
    chunk[e] < |blocks| && blocks[chunk[e]] == BlockOf(values, CHUNK * c + e)
  }

  lemma NamesNone<V>(values: seq<V>, blocks: seq<seq<V>>, c: nat)
    requires BLOCK * CHUNK * c <= |values|
    ensures Names(values, blocks, c, [])
  {
  }

  lemma NamesMore<V>(values: seq<V>, blocks: seq<seq<V>>, more: seq<seq<V>>, c: nat, chunk: seq<nat>)
    requires Names(values, blocks, c, chunk) && blocks <= more
    ensures Names(values, more, c, chunk)
  {
    forall e: nat | e < |chunk| ensures NamesAt(values, more, c, chunk, e) {
      assert NamesAt(values, blocks, c, chunk, e);
    }
  }

  lemma NamedAt<V>(values: seq<V>, blocks: seq<seq<V>>, c: nat, chunk: seq<nat>, e: nat)
    requires Names(values, blocks, c, chunk) && e < |chunk|
    ensures chunk[e] < |blocks| && BLOCK * (CHUNK * c + e + 1) <= |values|
      && blocks[chunk[e]] == BlockOf(values, CHUNK * c + e)
  {
    assert NamesAt(values, blocks, c, chunk, e);
  }

  lemma NamesNext<V>(values: seq<V>, blocks: seq<seq<V>>, c: nat, chunk: seq<nat>, id: nat)
    requires Names(values, blocks, c, chunk) && BLOCK * (CHUNK * c + |chunk| + 1) <= |values|
    requires id < |blocks| && blocks[id] == BlockOf(values, CHUNK * c + |chunk|)
    ensures Names(values, blocks, c, chunk + [id])
  {
    forall e: nat | e < |chunk| + 1 ensures NamesAt(values, blocks, c, chunk + [id], e) {
      if e < |chunk| {
        assert NamesAt(values, blocks, c, chunk, e);
      }
    }
  }

  /** The first n chunks are named by top. */
  ghost predicate Covers<V>(values: seq<V>, top: seq<nat>, chunks: seq<seq<nat>>, blocks: seq<seq<V>>) {
    |values| == CODE_POINTS && |top| <= CHUNKS
    && forall c: nat :: c < |top| ==> CoversAt(values, top, chunks, blocks, c)
  }

  ghost predicate CoversAt<V>(values: seq<V>, top: seq<nat>, chunks: seq<seq<nat>>, blocks: seq<seq<V>>, c: nat)
    requires c < |top|
  {
    top[c] < |chunks| && |chunks[top[c]]| == CHUNK && Names(values, blocks, c, chunks[top[c]])
  }

  lemma CoversNone<V>(values: seq<V>)
    requires |values| == CODE_POINTS
    ensures Covers(values, [], [], [])
  {
  }

  lemma CoversNext<V>(values: seq<V>, top: seq<nat>, chunks: seq<seq<nat>>, blocks: seq<seq<V>>,
                      chunks': seq<seq<nat>>, blocks': seq<seq<V>>, id: nat)
    requires Covers(values, top, chunks, blocks) && chunks <= chunks' && blocks <= blocks' && |top| < CHUNKS
    requires id < |chunks'| && |chunks'[id]| == CHUNK && Names(values, blocks', |top|, chunks'[id])
    ensures Covers(values, top + [id], chunks', blocks')
  {
    hide Names;
    forall c: nat | c < |top| + 1 ensures CoversAt(values, top + [id], chunks', blocks', c) {
      if c < |top| {
        assert CoversAt(values, top, chunks, blocks, c);
        NamesMore(values, blocks, blocks', c, chunks[top[c]]);
      }
    }
  }

  /** All entries of a table have the same length. */
  ghost predicate Even<T>(table: seq<seq<T>>, n: nat) { forall k: nat :: k < |table| ==> |table[k]| == n }

  method Chunk<V(==)>(values: seq<V>, c: nat, blocks0: seq<seq<V>>, ids0: map<seq<V>, nat>)
      returns (blocks: seq<seq<V>>, ids: map<seq<V>, nat>, chunk: seq<nat>)
    requires |values| == CODE_POINTS && c < CHUNKS && Numbered(blocks0, ids0) && Even(blocks0, BLOCK)
    ensures Numbered(blocks, ids) && Even(blocks, BLOCK) && blocks0 <= blocks && |blocks| <= |blocks0| + CHUNK
    ensures |chunk| == CHUNK && Names(values, blocks, c, chunk)
  {
    hide Numbered, Names;
    blocks, ids, chunk := blocks0, ids0, [];
    NamesNone(values, blocks, c);
    for e := 0 to CHUNK
      invariant Numbered(blocks, ids) && Even(blocks, BLOCK) && blocks0 <= blocks && |blocks| <= |blocks0| + e
      invariant |chunk| == e && Names(values, blocks, c, chunk)
    {
      ghost var before := blocks;
      var id;
      blocks, ids, id := Number(blocks, ids, BlockOf(values, CHUNK * c + e));
      NamesMore(values, before, blocks, c, chunk);
      NamesNext(values, blocks, c, chunk, id);
      chunk := chunk + [id];
    }
  }

  /** The chunk of each 2048 code points, the blocks of each chunk, and the values of each block.
      No chunk and no block is kept twice, and all numbers fit 16 bits. */
  method Build<V(==)>(values: seq<V>) returns (top: seq<nat>, chunks: seq<seq<nat>>, blocks: seq<seq<V>>)
    requires |values| == CODE_POINTS
    ensures |top| == CHUNKS && Covers(values, top, chunks, blocks) && Even(chunks, CHUNK) && Even(blocks, BLOCK)
    ensures |chunks| <= CHUNKS && |blocks| <= CHUNKS * CHUNK < 0x10000
    ensures forall i: nat, j: nat :: i < j < |blocks| ==> blocks[i] != blocks[j]
    ensures forall i: nat, j: nat :: i < j < |chunks| ==> chunks[i] != chunks[j]
  {
    hide Numbered, Names, Covers;
    top, chunks, blocks := [], [], [];
    var ids: map<seq<V>, nat>, chunkIds: map<seq<nat>, nat> := map[], map[];
    NothingNumbered<V>();
    NothingNumbered<nat>();
    CoversNone(values);
    for c := 0 to CHUNKS
      invariant Numbered(blocks, ids) && Numbered(chunks, chunkIds) && Even(chunks, CHUNK) && Even(blocks, BLOCK)
      invariant |top| == c && |chunks| <= c && |blocks| <= c * CHUNK
      invariant Covers(values, top, chunks, blocks)
    {
      ghost var chunksBefore, blocksBefore := chunks, blocks;
      var chunk, id;
      blocks, ids, chunk := Chunk(values, c, blocks, ids);
      chunks, chunkIds, id := Number(chunks, chunkIds, chunk);
      CoversNext(values, top, chunksBefore, blocksBefore, chunks, blocks, id);
      top := top + [id];
    }
    NoneTwice(blocks, ids);
    NoneTwice(chunks, chunkIds);
  }

  // ----------------------------------------------------------------------- the lookup

  /** A table as it is emitted, entry after entry. */
  function Flat<T>(table: seq<seq<T>>): seq<T> {
    if table == [] then [] else Flat(table[..|table| - 1]) + table[|table| - 1]
  }

  lemma {:induction false} FlatAt<T>(table: seq<seq<T>>, n: nat, k: nat, e: nat)
    requires Even(table, n) && k < |table| && e < n
    ensures |Flat(table)| == n * |table| && n * k + e < n * |table| && Flat(table)[n * k + e] == table[k][e]
    decreases |table|
  {
    var before, last := table[..|table| - 1], table[|table| - 1];
    FlatLength(before, n);
    FlatLength(table, n);
    Fits(n, k, |table|, e);
    if k < |before| {
      Fits(n, k, |before|, e);
      FlatAt(before, n, k, e);
    }
  }

  lemma {:induction false} FlatLength<T>(table: seq<seq<T>>, n: nat)
    requires Even(table, n)
    ensures |Flat(table)| == n * |table|
  {
    if table != [] {
      FlatLength(table[..|table| - 1], n);
      Product(n, |table|);
    }
  }

  lemma Product(n: nat, k: nat)
    requires k > 0
    ensures n * (k - 1) + n == n * k
  {
  }

  lemma {:induction false} Fits(n: nat, k: nat, m: nat, e: nat)
    requires k < m && e < n
    ensures 0 <= n * k + e < n * m
  {
    Product(n, m);
    if k < m - 1 {
      Fits(n, k, m - 1, e);
    }
  }

  /** The lookup that is emitted: shifts and masks, and one table after another. */
  function Lookup<V>(t1: seq<nat>, t2: seq<nat>, t3: seq<V>, u: nat): V
    requires u / 2048 < |t1| && 32 * t1[u / 2048] + u / 64 % 32 < |t2|
    requires 64 * t2[32 * t1[u / 2048] + u / 64 % 32] + u % 64 < |t3|
  {
    var chunk := t1[u / 2048];
    var block := t2[32 * chunk + u / 64 % 32];
    t3[64 * block + u % 64]
  }

  lemma Digits(u: nat)
    ensures 32 * (u / 2048) + u / 64 % 32 == u / 64 && 64 * (u / 64) + u % 64 == u
    ensures u < CODE_POINTS ==> u / 2048 < CHUNKS
  {
  }

  lemma BlockAt<V>(values: seq<V>, b: nat, k: nat)
    requires BLOCK * (b + 1) <= |values| && k < BLOCK
    ensures BlockOf(values, b)[k] == values[BLOCK * b + k]
  {
  }

  /** For every code point the lookup finds, inside of the tables, the value the table was built
      from. */
  lemma LookupAgrees<V>(values: seq<V>, top: seq<nat>, chunks: seq<seq<nat>>, blocks: seq<seq<V>>, u: nat)
    requires |top| == CHUNKS && Covers(values, top, chunks, blocks) && Even(chunks, CHUNK) && Even(blocks, BLOCK)
    requires u < CODE_POINTS
    ensures var t2, t3 := Flat(chunks), Flat(blocks);
      && u / 2048 < |top| && 32 * top[u / 2048] + u / 64 % 32 < |t2|
      && 64 * t2[32 * top[u / 2048] + u / 64 % 32] + u % 64 < |t3|
      && Lookup(top, t2, t3, u) == values[u]
  {
    hide Flat, Names, NamesAt;
    var c, e, k := u / 2048, u / 64 % 32, u % 64;
    Digits(u);
    assert CoversAt(values, top, chunks, blocks, c);
    FlatAt(chunks, CHUNK, top[c], e);
    var chunk := chunks[top[c]];
    NamedAt(values, blocks, c, chunk, e);
    FlatAt(blocks, BLOCK, chunk[e], k);
    BlockAt(values, CHUNK * c + e, k);
  }
}
