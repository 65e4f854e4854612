/** Copies from the output, and the tables of insert-and-copy lengths (sections 4, 5 and 9 of
    RFC 7932). */
module BrotliCopy {
  import opened Wrappers
  import opened BrotliBits

  // ------------------------------------------------------------------- copies

  /** The output with n more bytes, each the byte d places before it. What is read has been
      written, be it by the copy itself. */
  function Copied(out: seq<Byte>, d: nat, n: nat): (r: seq<Byte>)
    requires 1 <= d <= |out|
    ensures |r| == |out| + n
  {
    if n == 0 then out
    else
      var before := Copied(out, d, n - 1);
      before + [before[|before| - d]]
  }

  /** A copy repeats the last d bytes, from the first of them, as often as it takes. */
  lemma {:induction false} CopiedAt(out: seq<Byte>, d: nat, n: nat, k: nat)
    requires 1 <= d <= |out| && k < |out| + n
    ensures Copied(out, d, n)[k] == if k < |out| then out[k] else out[|out| - d + (k - |out|) % d]
  {
    if n > 0 {
      if k < |out| + n - 1 {
        CopiedAt(out, d, n - 1, k);
      } else {
        CopiedAt(out, d, n - 1, k - d);
        Wrap(n - 1, d);
      }
    }
  }

  lemma CopiedByte(out: seq<Byte>, d: nat, n: nat, k: nat)
    requires 1 <= d <= |out| && k < n
    ensures 0 <= k % d < d && Copied(out, d, n)[|out| + k] == out[|out| - d + k % d]
  {
    hide Copied;
    CopiedAt(out, d, n, |out| + k);
    assert |out| + k - |out| == k;
  }

  lemma Wrap(k: nat, d: nat)
    requires d >= 1
    ensures if k < d then k % d == k else k % d == (k - d) % d
  {
    if k >= d {
      var q := (k - d) / d;
      assert q * d + d == (q + 1) * d;
      Unique(d, k / d, k % d, q + 1, (k - d) % d);
    }
  }

  /** Bytes are copied one at a time, each from the end of what there is then. */
  method Copy(out: seq<Byte>, d: nat, n: nat) returns (r: seq<Byte>)
    requires 1 <= d <= |out|
    ensures r == Copied(out, d, n)
  {
    r := out;
    for k := 0 to n
      invariant r == Copied(out, d, k)
    {
      r := r + [r[|r| - d]];
    }
  }

  // -------------------------------------------------------------- lengths of commands

  const INS_BITS: seq<nat> := [0, 0, 0, 0, 0, 0, 1, 1, 2, 2, 3, 3, 4, 4, 5, 5, 6, 7, 8, 9, 10, 12, 14, 24]
  const INS_OFF: seq<nat> := [0, 1, 2, 3, 4, 5, 6, 8, 10, 14, 18, 26, 34, 50, 66, 98, 130, 194, 322, 578, 1090, 2114,
    6210, 22594]
  const COPY_BITS: seq<nat> := [0, 0, 0, 0, 0, 0, 0, 0, 1, 1, 2, 2, 3, 3, 4, 4, 5, 5, 6, 7, 8, 9, 10, 24]
  const COPY_OFF: seq<nat> := [2, 3, 4, 5, 6, 7, 8, 9, 10, 12, 14, 18, 22, 30, 38, 54, 70, 102, 134, 198, 326, 582,
    1094, 2118]

  /** The insert and the copy code that each cell of 64 commands starts from. */
  const CELLS: seq<(nat, nat)> := [(0, 0), (0, 8), (0, 0), (0, 8), (8, 0), (8, 8), (0, 16), (16, 0), (8, 16), (16, 8),
    (16, 16)]

  const COMMANDS: nat := 704

  /** Commands below this one use the last distance again. */
  const IMPLICIT: nat := 128

  function InsertCode(cmd: nat): (c: nat)
    requires cmd < COMMANDS
    ensures c < 24
  {
    CELLS[cmd / 64].0 + cmd / 8 % 8
  }

  function CopyCode(cmd: nat): (c: nat)
    requires cmd < COMMANDS
    ensures c < 24
  {
    CELLS[cmd / 64].1 + cmd % 8
  }

  /** The cell of a pair of codes among the commands with a distance code. */
  function Cell(i: nat, c: nat): (k: nat)
    requires i < 24 && c < 24
    ensures 2 <= k < 11
  {
    [[2, 3, 6], [4, 5, 8], [7, 9, 10]][i / 8][c / 8]
  }

  function CommandOf(i: nat, c: nat): (cmd: nat)
    requires i < 24 && c < 24
    ensures IMPLICIT <= cmd < COMMANDS
  {
    64 * Cell(i, c) + 8 * (i % 8) + c % 8
  }

  /** Of the commands with a distance code each pair of an insert and a copy code has exactly one. */
  lemma PairHasCommand(i: nat, c: nat)
    requires i < 24 && c < 24
    ensures InsertCode(CommandOf(i, c)) == i && CopyCode(CommandOf(i, c)) == c
  {
    var k, x, y := Cell(i, c), i % 8, c % 8;
    var cmd := 64 * k + 8 * x + y;
    assert cmd / 64 == k && cmd / 8 % 8 == x && cmd % 8 == y by { CommandDigits(k, x, y); }
    assert CELLS[k] == (8 * (i / 8), 8 * (c / 8)) by { CellStarts(i / 8, c / 8); }
  }

  /** Of the commands without one each pair of an insert code below 8 and a copy code below 16 has
      exactly one. */
  lemma ImplicitPair(i: nat, c: nat)
    requires i < 8 && c < 16
    ensures var cmd := 64 * (c / 8) + 8 * i + c % 8;
      cmd < IMPLICIT && InsertCode(cmd) == i && CopyCode(cmd) == c
  {
    CommandDigits(c / 8, i, c % 8);
    assert CELLS[0] == (0, 0) && CELLS[1] == (0, 8);
  }

  lemma CellStarts(a: nat, b: nat)
    requires a < 3 && b < 3
    ensures CELLS[[[2, 3, 6], [4, 5, 8], [7, 9, 10]][a][b]] == (8 * a, 8 * b)
  {
  }

  lemma CommandDigits(k: nat, x: nat, y: nat)
    requires x < 8 && y < 8
    ensures var cmd := 64 * k + 8 * x + y; cmd / 64 == k && cmd / 8 % 8 == x && cmd % 8 == y
  {
  }

  lemma CommandIsOfPair(cmd: nat)
    requires IMPLICIT <= cmd < COMMANDS
    ensures CommandOf(InsertCode(cmd), CopyCode(cmd)) == cmd
  {
    var k, x, y := cmd / 64, cmd / 8 % 8, cmd % 8;
    assert cmd == 64 * k + 8 * x + y;
    CellIndex(k);
    Within(CELLS[k].0, x);
    Within(CELLS[k].1, y);
  }

  lemma CellIndex(k: nat)
    requires 2 <= k < 11
    ensures CELLS[k].0 <= 16 && CELLS[k].1 <= 16 && CELLS[k].0 % 8 == 0 && CELLS[k].1 % 8 == 0
    ensures [[2, 3, 6], [4, 5, 8], [7, 9, 10]][CELLS[k].0 / 8][CELLS[k].1 / 8] == k
  {
  }

  lemma Within(a: nat, x: nat)
    requires a % 8 == 0 && x < 8
    ensures (a + x) / 8 == a / 8 && (a + x) % 8 == x
  {
  }

  /** Insert and copy codes reach all lengths from 0 and from 2 on, each in one way; the last ones
      have 24 extra bits. */
  lemma LengthsAreContiguous(k: nat)
    requires k < 23
    ensures INS_OFF[k] + Pow2(INS_BITS[k]) == INS_OFF[k + 1]
    ensures COPY_OFF[k] + Pow2(COPY_BITS[k]) == COPY_OFF[k + 1]
    ensures INS_OFF[0] == 0 && COPY_OFF[0] == 2 && INS_BITS[23] == COPY_BITS[23] == 24
  {
    assert Pow2(0) == 1 && Pow2(1) == 2 && Pow2(2) == 4 && Pow2(3) == 8 && Pow2(4) == 16 && Pow2(5) == 32
      && Pow2(6) == 64;
    assert Pow2(7) == 128 && Pow2(8) == 256 && Pow2(9) == 512 && Pow2(10) == 1024 && Pow2(12) == 4096;
    assert Pow2(14) == 16384;
  }
}
