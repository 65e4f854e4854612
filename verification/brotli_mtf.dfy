/** The inverse move-to-front transform of a context map (section 7.3 of RFC 7932). */
module BrotliMoveToFront {
  import opened Wrappers
  import opened BrotliBits

  const BYTES: nat := 256

  /** The value at v moved to the front. */
  function Moved(table: seq<Byte>, v: Byte): (r: seq<Byte>)
    requires |table| == BYTES
    ensures |r| == BYTES
  {
    [table[v]] + table[..v] + table[v + 1..]
  }

  lemma MovedAt(table: seq<Byte>, v: Byte, i: Byte)
    requires |table| == BYTES
    ensures Moved(table, v)[i] == if i == 0 then table[v] else if i <= v then table[i - 1] else table[i]
  {
  }

  /** 0, 1, 2, ... */
  function Identity(): (r: seq<Byte>)
    ensures |r| == BYTES
  {
    seq(BYTES, i requires 0 <= i < BYTES => i)
  }

  // ------------------------------------------------------------ the table as a permutation

  /** The first n places hold 0..n-1, each once. */
  ghost predicate Permutes(table: seq<Byte>, n: nat) {
    && n <= |table| == BYTES
    && (forall i, j :: 0 <= i < j < |table| ==> table[i] != table[j])
    && (forall i :: 0 <= i < n ==> table[i] < n)
    && (forall x: Byte :: x < n ==> Holds(table, n, x))
  }

  ghost predicate Holds(table: seq<Byte>, n: nat, x: Byte)
    requires n <= |table|
  {
    exists i :: 0 <= i < n && table[i] == x
  }

  lemma IdentityPermutes(n: nat)
    requires n <= BYTES
    ensures Permutes(Identity(), n)
  {
    forall x: Byte | x < n ensures Holds(Identity(), n, x) {
      assert Identity()[x] == x;
    }
  }

  lemma MovedPermutes(table: seq<Byte>, v: Byte, n: nat)
    requires Permutes(table, n) && v < n
    ensures Permutes(Moved(table, v), n)
  {
    hide Moved, Holds;
    var next := Moved(table, v);
    forall i: Byte ensures next[i] == table[Source(v, i)] && (i < n ==> Source(v, i) < n) {
      MovedAt(table, v, i);
    }
    forall i, j | 0 <= i < j < |next| ensures next[i] != next[j] {
      var a: Byte, b: Byte := i, j;
      assert next[a] == table[Source(v, a)] && next[b] == table[Source(v, b)];
    }
    forall x: Byte | x < n ensures Holds(next, n, x) {
      var k := HeldAt(table, n, x);
      var i: Byte := if k == v then 0 else if k < v then k + 1 else k;
      assert next[i] == table[Source(v, i)] == x;
      HoldsAt(next, n, i);
    }
  }

  lemma HeldAt(table: seq<Byte>, n: nat, x: Byte) returns (k: nat)
    requires n <= |table| && Holds(table, n, x)
    ensures k < n && table[k] == x
  {
    k :| 0 <= k < n && table[k] == x;
  }

  lemma HoldsAt(table: seq<Byte>, n: nat, i: nat)
    requires i < n <= |table|
    ensures Holds(table, n, table[i])
  {
  }

  /** Where the value at i came from. */
  function Source(v: Byte, i: Byte): Byte { if i == 0 then v else if i <= v then i - 1 else i }

  // --------------------------------------------------------------- there and back again

  /** The table after the first n indices of vs. */
  function TableAfter(vs: seq<Byte>, n: nat): (r: seq<Byte>)
    requires n <= |vs|
    ensures |r| == BYTES
  {
    if n == 0 then Identity() else Moved(TableAfter(vs, n - 1), vs[n - 1])
  }

  /** What the indices vs stand for. */
  function Undone(vs: seq<Byte>): (r: seq<Byte>)
    ensures |r| == |vs|
  {
    seq(|vs|, i requires 0 <= i < |vs| => TableAfter(vs, i)[vs[i]])
  }

  /** Where x is among the first n places. */
  ghost function PlaceOf(table: seq<Byte>, x: Byte, n: nat): (i: Byte)
    requires 1 <= n <= |table| == BYTES
    ensures Holds(table, n, x) ==> i < n && table[i] == x
  {
    if n == 1 || table[n - 1] == x then n - 1 else PlaceOf(table, x, n - 1)
  }

  /** Forward move-to-front: the index of each byte in the table after the bytes before it. */
  ghost function Forward(xs: seq<Byte>, n: nat): (r: seq<Byte>)
    requires n <= |xs|
    ensures |r| == n
  {
    if n == 0 then []
    else
      var r := Forward(xs, n - 1);
      r + [PlaceOf(TableAfter(r, n - 1), xs[n - 1], BYTES)]
  }

  lemma AllHeld(table: seq<Byte>, x: Byte)
    requires Permutes(table, BYTES)
    ensures Holds(table, BYTES, x)
  {
    hide Holds;
  }

  lemma OnlyPlace(table: seq<Byte>, v: Byte)
    requires Permutes(table, BYTES)
    ensures PlaceOf(table, table[v], BYTES) == v
  {
    hide PlaceOf;
    HoldsAt(table, BYTES, v);
  }

  lemma {:induction false} SamePrefix(vs: seq<Byte>, v: Byte, n: nat)
    requires n <= |vs|
    ensures TableAfter(vs + [v], n) == TableAfter(vs, n)
  {
    if n > 0 {
      SamePrefix(vs, v, n - 1);
    }
  }

  /** The table stays a permutation; over indices below n its first n places do too. */
  lemma {:induction false} TablePermutes(vs: seq<Byte>, k: nat, n: nat)
    requires k <= |vs| && n <= BYTES && forall i :: 0 <= i < |vs| ==> vs[i] < n
    ensures Permutes(TableAfter(vs, k), n)
  {
    hide Permutes, Moved, Identity;
    if k == 0 {
      IdentityPermutes(n);
    } else {
      TablePermutes(vs, k - 1, n);
      MovedPermutes(TableAfter(vs, k - 1), vs[k - 1], n);
    }
  }

  /** Only values below n come out of indices below n. */
  lemma UndoneBelow(vs: seq<Byte>, n: nat)
    requires n <= BYTES && forall i :: 0 <= i < |vs| ==> vs[i] < n
    ensures forall i :: 0 <= i < |vs| ==> Undone(vs)[i] < n
  {
    forall i | 0 <= i < |vs| ensures Undone(vs)[i] < n {
      TablePermutes(vs, i, n);
    }
  }

  lemma {:induction false} ForwardUndoes(xs: seq<Byte>, n: nat, i: nat)
    requires i < n <= |xs|
    ensures TableAfter(Forward(xs, n), i)[Forward(xs, n)[i]] == xs[i]
    decreases n
  {
    hide Permutes, PlaceOf, Holds, Moved, Identity, TableAfter;
    var r := Forward(xs, n - 1);
    var last := PlaceOf(TableAfter(r, n - 1), xs[n - 1], BYTES);
    assert Forward(xs, n) == r + [last];
    SamePrefix(r, last, i);
    if i < n - 1 {
      ForwardUndoes(xs, n - 1, i);
    } else {
      TablePermutes(r, n - 1, BYTES);
      AllHeld(TableAfter(r, n - 1), xs[n - 1]);
    }
  }

  /** Undoing the forward transform gives the bytes back. */
  lemma UndoForward(xs: seq<Byte>)
    ensures Undone(Forward(xs, |xs|)) == xs
  {
    hide TableAfter;
    forall i: nat | i < |xs| ensures Undone(Forward(xs, |xs|))[i] == xs[i] {
      ForwardUndoes(xs, |xs|, i);
    }
  }

  /** And no other indices stand for these bytes. */
  lemma {:induction false} ForwardUndone(vs: seq<Byte>, n: nat)
    requires n <= |vs|
    ensures Forward(Undone(vs), n) == vs[..n]
  {
    hide Permutes, PlaceOf, Holds, Moved;
    if n > 0 {
      ForwardUndone(vs, n - 1);
      TablePermutes(vs, n - 1, BYTES);
      PrefixTable(vs, n - 1, n - 1);
      var table, x := TableAfter(vs, n - 1), Undone(vs)[n - 1];
      OnlyPlace(table, vs[n - 1]);
      assert vs[..n] == vs[..n - 1] + [vs[n - 1]];
    }
  }

  lemma {:induction false} PrefixTable(vs: seq<Byte>, m: nat, n: nat)
    requires n <= m <= |vs|
    ensures TableAfter(vs[..m], n) == TableAfter(vs, n)
  {
    if n > 0 {
      PrefixTable(vs, m, n - 1);
    }
  }

  /** The transform is undone in place, entry by entry. */
  method Undo(vs: seq<Byte>) returns (out: seq<Byte>)
    ensures out == Undone(vs)
  {
    hide Moved, Identity;
    out := vs;
    var mtf := Identity();
    for i := 0 to |vs|
      invariant |out| == |vs| && mtf == TableAfter(vs, i)
      invariant forall k :: i <= k < |vs| ==> out[k] == vs[k]
      invariant forall k :: 0 <= k < i ==> out[k] == TableAfter(vs, k)[vs[k]]
    {
      var v := out[i];
      var x := mtf[v];
      out := out[i := x];
      mtf := Front(mtf, v);
    }
  }

  /** Deletes the entry at v and puts it in at the front. */
  method Front(table: seq<Byte>, v: Byte) returns (r: seq<Byte>)
    requires |table| == BYTES
    ensures r == Moved(table, v)
  {
    r := table;
    if v > 0 {
      r := table[..v] + table[v + 1..];
      r := [table[v]] + r;
    }
  }
}
