/** Canonical prefix codes (section 3.2 of RFC 7932): which code each symbol has, and the
    reader proved to recognise exactly these codes. */
module BrotliCode {
  import opened Wrappers
  import opened BrotliBits

  const MAX_LENGTH: nat := 15

  /** The whole code space, in units of a code of length 15. */
  const FULL: nat := 32768

  type Lengths = seq<nat>

  ghost predicate Proper(lengths: Lengths) { forall s :: 0 <= s < |lengths| ==> lengths[s] <= MAX_LENGTH }

  // --------------------------------------------------------- canonical codes

  /** How many of the first k symbols have codes of length n. */
  function CountOf(lengths: Lengths, n: nat, k: nat): (c: nat)
    requires k <= |lengths|
    ensures c <= k
  {
    if k == 0 then 0 else CountOf(lengths, n, k - 1) + (if lengths[k - 1] == n then 1 else 0)
  }

  /** The number of codes of each length, of the first k symbols. */
  function Counts(lengths: Lengths, k: nat): (count: seq<nat>)
    requires k <= |lengths|
    ensures |count| == MAX_LENGTH + 1
  {
    seq(MAX_LENGTH + 1, n requires 0 <= n => if n == 0 then 0 else CountOf(lengths, n, k))
  }

  /** The first code of length n: codes of one length are consecutive, and start after all
      shorter ones. */
  function FirstCode(count: seq<nat>, n: nat): nat
    requires |count| == MAX_LENGTH + 1 && 1 <= n <= MAX_LENGTH + 1
  {
    if n == 1 then 0 else 2 * (FirstCode(count, n - 1) + count[n - 1])
  }

  /** The canonical code of a symbol: codes of one length go up with the symbols. */
  function Canon(lengths: Lengths, s: nat): nat
    requires Proper(lengths) && s < |lengths| && lengths[s] > 0
  {
    FirstCode(Counts(lengths, |lengths|), lengths[s]) + CountOf(lengths, lengths[s], s)
  }

  /** The code space the first k symbols take (the Kraft sum, times 2^15). */
  function Kraft(lengths: Lengths, k: nat): nat
    requires k <= |lengths| && Proper(lengths)
  {
    if k == 0 then 0
    else Kraft(lengths, k - 1) + (if lengths[k - 1] > 0 then Pow2(MAX_LENGTH - lengths[k - 1]) else 0)
  }

  // ------------------------------------------------------------ space by length

  /** The space taken by the codes of length up to n. */
  ghost function Used(count: seq<nat>, n: nat): nat
    requires |count| == MAX_LENGTH + 1 && n <= MAX_LENGTH
  {
    if n == 0 then 0 else Used(count, n - 1) + count[n] * Pow2(MAX_LENGTH - n)
  }

  lemma {:induction false} FirstCodeIsUsed(count: seq<nat>, n: nat)
    requires |count| == MAX_LENGTH + 1 && 1 <= n <= MAX_LENGTH
    ensures FirstCode(count, n) * Pow2(MAX_LENGTH - n) == Used(count, n - 1)
    ensures (FirstCode(count, n) + count[n]) * Pow2(MAX_LENGTH - n) == Used(count, n)
  {
    if n > 1 {
      FirstCodeIsUsed(count, n - 1);
      Twice(FirstCode(count, n - 1) + count[n - 1], Pow2(MAX_LENGTH - n));
      assert Pow2(MAX_LENGTH - (n - 1)) == 2 * Pow2(MAX_LENGTH - n);
    }
    Spread(FirstCode(count, n), count[n], Pow2(MAX_LENGTH - n));
  }

  lemma Twice(a: nat, b: nat)
    ensures (2 * a) * b == a * (2 * b)
  {
  }

  lemma Spread(a: nat, b: nat, c: nat)
    ensures (a + b) * c == a * c + b * c
  {
  }

  lemma {:induction false} UsedMore(count: seq<nat>, l: nat, n: nat)
    requires |count| == MAX_LENGTH + 1 && 1 <= l <= MAX_LENGTH && n <= MAX_LENGTH
    ensures Used(count[l := count[l] + 1], n) == Used(count, n) + (if l <= n then Pow2(MAX_LENGTH - l) else 0)
    decreases n
  {
    if n > 0 {
      UsedMore(count, l, n - 1);
      Spread(count[l], 1, Pow2(MAX_LENGTH - l));
    }
  }

  lemma {:induction false} UsedNone(count: seq<nat>, n: nat)
    requires |count| == MAX_LENGTH + 1 && n <= MAX_LENGTH && forall m :: 1 <= m <= MAX_LENGTH ==> count[m] == 0
    ensures Used(count, n) == 0
  {
    if n > 0 {
      UsedNone(count, n - 1);
    }
  }

  /** The space of all symbols is the space of all lengths. */
  lemma {:induction false} KraftIsUsed(lengths: Lengths, k: nat)
    requires Proper(lengths) && k <= |lengths|
    ensures Kraft(lengths, k) == Used(Counts(lengths, k), MAX_LENGTH)
  {
    if k == 0 {
      UsedNone(Counts(lengths, 0), MAX_LENGTH);
    } else {
      KraftIsUsed(lengths, k - 1);
      var count, l := Counts(lengths, k - 1), lengths[k - 1];
      if l > 0 {
        assert Counts(lengths, k) == count[l := count[l] + 1];
        UsedMore(count, l, MAX_LENGTH);
      } else {
        assert Counts(lengths, k) == count;
      }
    }
  }

  lemma {:induction false} UsedGrows(count: seq<nat>, m: nat, n: nat)
    requires |count| == MAX_LENGTH + 1 && m <= n <= MAX_LENGTH
    ensures Used(count, m) <= Used(count, n)
    decreases n
  {
    if m < n {
      UsedGrows(count, m, n - 1);
    }
  }

  lemma {:induction false} CountGrows(lengths: Lengths, n: nat, j: nat, k: nat)
    requires j <= k <= |lengths|
    ensures CountOf(lengths, n, j) <= CountOf(lengths, n, k)
    decreases k
  {
    if j < k {
      CountGrows(lengths, n, j, k - 1);
    }
  }

  /** In a space not overfull every code fits its length. */
  lemma CanonFits(lengths: Lengths, s: nat)
    requires Proper(lengths) && s < |lengths| && lengths[s] > 0 && Kraft(lengths, |lengths|) <= FULL
    ensures Canon(lengths, s) < Pow2(lengths[s])
  {
    var count, l := Counts(lengths, |lengths|), lengths[s];
    CountGrows(lengths, l, s + 1, |lengths|);
    KraftIsUsed(lengths, |lengths|);
    FirstCodeIsUsed(count, l);
    UsedGrows(count, l, MAX_LENGTH);
    Pow2Sum(l, MAX_LENGTH - l);
    assert Pow2(MAX_LENGTH) == FULL;
    if Canon(lengths, s) >= Pow2(l) {
      MulMono(Pow2(l) + 1, FirstCode(count, l) + count[l], Pow2(MAX_LENGTH - l));
      Spread(Pow2(l), 1, Pow2(MAX_LENGTH - l));
      assert false;
    }
  }

  lemma MulMono(a: nat, b: nat, c: nat)
    requires a <= b
    ensures a * c <= b * c
  {
  }

  /** Longer codes start after all codes of a length, with their bits put after. */
  lemma {:induction false} FirstCodeGrows(count: seq<nat>, n: nat, m: nat)
    requires |count| == MAX_LENGTH + 1 && 1 <= n < m <= MAX_LENGTH
    ensures (FirstCode(count, n) + count[n]) * Pow2(m - n) <= FirstCode(count, m)
    decreases m
  {
    hide Pow2;
    Pow2Next(m - 1 - n);
    Twice(FirstCode(count, n) + count[n], Pow2(m - 1 - n));
    if n + 1 < m {
      FirstCodeGrows(count, n, m - 1);
    } else {
      Pow2Zero();
    }
  }

  /** At fewer bits than a symbol's code has, no code is complete yet. */
  lemma NotYet(lengths: Lengths, s: nat, data: seq<Byte>, p: nat, n: nat)
    requires Proper(lengths) && s < |lengths| && 1 <= n < lengths[s] && p + lengths[s] <= 8 * |data|
    requires CodeAt(data, p, lengths[s]) == Canon(lengths, s)
    ensures CodeAt(data, p, n) >= FirstCode(Counts(lengths, |lengths|), n) + Counts(lengths, |lengths|)[n]
  {
    var count, l := Counts(lengths, |lengths|), lengths[s];
    FirstCodeGrows(count, n, l);
    CodeStart(data, p, n, l);
    var c, a := CodeAt(data, p, n), FirstCode(count, n) + count[n];
    if c < a {
      MulMono(c + 1, a, Pow2(l - n));
      assert false;
    }
  }

  // ------------------------------------------------------------- the symbols

  /** The symbols below k with codes of length n. */
  function SymbolsOf(lengths: Lengths, n: nat, k: nat): (r: seq<nat>)
    requires k <= |lengths|
    ensures |r| == CountOf(lengths, n, k)
    ensures forall i :: 0 <= i < |r| ==> r[i] < k && lengths[r[i]] == n && CountOf(lengths, n, r[i]) == i
  {
    if k == 0 then []
    else SymbolsOf(lengths, n, k - 1) + (if lengths[k - 1] == n then [k - 1] else [])
  }

  /** All symbols with codes of length up to n, by length and then by symbol. */
  function SortedSymbols(lengths: Lengths, n: nat): seq<nat> {
    if n == 0 then [] else SortedSymbols(lengths, n - 1) + SymbolsOf(lengths, n, |lengths|)
  }

  /** How many symbols have codes shorter than n. */
  function Shorter(count: seq<nat>, n: nat): nat
    requires |count| == MAX_LENGTH + 1 && 1 <= n <= MAX_LENGTH + 1
  {
    if n == 1 then 0 else Shorter(count, n - 1) + count[n - 1]
  }

  lemma {:induction false} SortedCount(lengths: Lengths, n: nat)
    requires n <= MAX_LENGTH
    ensures |SortedSymbols(lengths, n)| == Shorter(Counts(lengths, |lengths|), n + 1)
  {
    if n > 0 {
      SortedCount(lengths, n - 1);
    }
  }

  /** The i-th symbol of length l is where the lengths before it end. */
  lemma {:induction false} SortedPlace(lengths: Lengths, l: nat, i: nat, n: nat)
    requires 1 <= l <= n <= MAX_LENGTH && i < CountOf(lengths, l, |lengths|)
    ensures var at := Shorter(Counts(lengths, |lengths|), l) + i;
      at < |SortedSymbols(lengths, n)| && SortedSymbols(lengths, n)[at] == SymbolsOf(lengths, l, |lengths|)[i]
    decreases n
  {
    hide CountOf, SymbolsOf;
    SortedCount(lengths, n - 1);
    var before, here := SortedSymbols(lengths, n - 1), SymbolsOf(lengths, n, |lengths|);
    assert SortedSymbols(lengths, n) == before + here;
    if l < n {
      SortedPlace(lengths, l, i, n - 1);
    } else {
      assert (before + here)[|before| + i] == here[i];
    }
  }

  lemma {:induction false} SymbolPlace(lengths: Lengths, s: nat, k: nat)
    requires s < k <= |lengths|
    ensures CountOf(lengths, lengths[s], s) < CountOf(lengths, lengths[s], k)
    ensures SymbolsOf(lengths, lengths[s], k)[CountOf(lengths, lengths[s], s)] == s
    decreases k
  {
    if s < k - 1 {
      SymbolPlace(lengths, s, k - 1);
    }
  }

  // ---------------------------------------------------------------- the code

  /** A prefix code: the number of codes of each length and the symbols in code order, or one
      symbol read without any bits. */
  datatype Code = Code(count: seq<nat>, symbols: seq<nat>, single: Option<nat>)

  /** What a code stands for: one symbol, or the canonical code of some lengths. */
  datatype Table = Lone(symbol: nat) | Canonical(lengths: Lengths)

  ghost predicate Represents(c: Code, t: Table) {
    match t
    case Lone(s) => c.single == Some(s)
    case Canonical(lengths) =>
      && Proper(lengths) && c.single.None?
      && c.count == Counts(lengths, |lengths|)
      && c.symbols == SortedSymbols(lengths, MAX_LENGTH)
  }

  /** The symbols of a table of this size are below it, and its codes leave no space. */
  ghost predicate Complete(t: Table, size: nat) {
    match t
    case Lone(s) => s < size
    case Canonical(lengths) => |lengths| == size && Proper(lengths) && Kraft(lengths, size) == FULL
  }

  method MakeCode(lengths: Lengths) returns (c: Code)
    requires Proper(lengths)
    ensures Represents(c, Canonical(lengths))
  {
    var count := seq(MAX_LENGTH + 1, _ => 0);
    for s := 0 to |lengths|
      invariant |count| == MAX_LENGTH + 1
      invariant forall n :: 0 <= n <= MAX_LENGTH ==> count[n] == CountOf(lengths, n, s)
    {
      count := count[lengths[s] := count[lengths[s]] + 1];
    }
    count := count[0 := 0];
    c := Code(count, SortedSymbols(lengths, MAX_LENGTH), None);
  }

  /** Reading at p gave r and went on to q: a symbol whose canonical code stands at p; and any
      symbol whose code stands there is the one read. Nothing is read only when no code
      stands there, which in a full space means that the input runs out. */
  ghost predicate Decodes(lengths: Lengths, data: seq<Byte>, p: nat, r: Option<nat>, q: nat) {
    && Proper(lengths)
    && (r.Some? ==> CodeStandsAt(lengths, r.value, data, p) && q == p + lengths[r.value])
    && (forall s: nat :: CodeStandsAt(lengths, s, data, p) ==> r == Some(s))
    && (r.None? && Kraft(lengths, |lengths|) == FULL ==> p + MAX_LENGTH > 8 * |data|)
  }

  ghost predicate CodeStandsAt(lengths: Lengths, s: nat, data: seq<Byte>, p: nat) {
    && Proper(lengths) && s < |lengths| && 0 < lengths[s] && p + lengths[s] <= 8 * |data|
    && CodeAt(data, p, lengths[s]) == Canon(lengths, s)
  }

  /** A symbol's code is one of the codes of its length. */
  lemma CanonBelow(lengths: Lengths, s: nat)
    requires Proper(lengths) && s < |lengths| && lengths[s] > 0
    ensures var count := Counts(lengths, |lengths|);
      Canon(lengths, s) < FirstCode(count, lengths[s]) + count[lengths[s]]
  {
    hide FirstCode;
    CountGrows(lengths, lengths[s], s + 1, |lengths|);
  }

  /** No two codes stand at one place. */
  lemma OneCodeStands(lengths: Lengths, s: nat, t: nat, data: seq<Byte>, p: nat)
    requires CodeStandsAt(lengths, s, data, p) && CodeStandsAt(lengths, t, data, p)
    ensures s == t
  {
    hide Pow2, CodeAt, FirstCode, CountOf, SymbolsOf, Counts;
    CanonBelow(lengths, s);
    CanonBelow(lengths, t);
    if lengths[s] < lengths[t] {
      NotYet(lengths, t, data, p, lengths[s]);
      assert false;
    } else if lengths[t] < lengths[s] {
      NotYet(lengths, s, data, p, lengths[t]);
      assert false;
    } else {
      SymbolPlace(lengths, s, |lengths|);
      SymbolPlace(lengths, t, |lengths|);
    }
  }

  /** The code at n bits is below the codes of length n that are taken: it is one of them. */
  lemma Found(lengths: Lengths, data: seq<Byte>, p: nat, n: nat)
    requires Proper(lengths) && 1 <= n <= MAX_LENGTH && p + n <= 8 * |data|
    requires var count := Counts(lengths, |lengths|);
      FirstCode(count, n) <= CodeAt(data, p, n) < FirstCode(count, n) + count[n]
    ensures var count := Counts(lengths, |lengths|);
      var at := Shorter(count, n) + (CodeAt(data, p, n) - FirstCode(count, n));
      && at < |SortedSymbols(lengths, MAX_LENGTH)|
      && var s := SortedSymbols(lengths, MAX_LENGTH)[at]; CodeStandsAt(lengths, s, data, p) && lengths[s] == n
  {
    var i := CodeAt(data, p, n) - FirstCode(Counts(lengths, |lengths|), n);
    SortedPlace(lengths, n, i, MAX_LENGTH);
  }

  /** The bits at p are past every code of length n: none of these codes stands at p. */
  ghost predicate Past(lengths: Lengths, data: seq<Byte>, p: nat, n: nat)
    requires 1 <= n <= MAX_LENGTH && p + n <= 8 * |data|
  {
    var count := Counts(lengths, |lengths|);
    CodeAt(data, p, n) >= FirstCode(count, n) + count[n]
  }

  ghost predicate PastAll(lengths: Lengths, data: seq<Byte>, p: nat, n: nat)
    requires n <= MAX_LENGTH && p + n <= 8 * |data|
  {
    forall m :: 1 <= m <= n ==> Past(lengths, data, p, m)
  }

  lemma PastDoesNotStand(lengths: Lengths, s: nat, data: seq<Byte>, p: nat)
    requires CodeStandsAt(lengths, s, data, p)
    ensures !Past(lengths, data, p, lengths[s])
  {
    hide Pow2, FirstCode, CountOf, Counts;
    CanonBelow(lengths, s);
  }

  /** After 15 bits of a full code space some code has been complete. */
  lemma FullEnds(lengths: Lengths, data: seq<Byte>, p: nat)
    requires Proper(lengths) && p + MAX_LENGTH <= 8 * |data| && Kraft(lengths, |lengths|) == FULL
    ensures !Past(lengths, data, p, MAX_LENGTH)
  {
    KraftIsUsed(lengths, |lengths|);
    FirstCodeIsUsed(Counts(lengths, |lengths|), MAX_LENGTH);
    assert Pow2(MAX_LENGTH) == FULL;
  }

  lemma NoneStands(lengths: Lengths, data: seq<Byte>, p: nat, n: nat)
    requires Proper(lengths) && n <= MAX_LENGTH && p + n <= 8 * |data| && (n == MAX_LENGTH || p + n == 8 * |data|)
    requires PastAll(lengths, data, p, n)
    ensures Decodes(lengths, data, p, None, p)
  {
    hide CodeAt, FirstCode, CountOf, Pow2, Kraft, Canon;
    forall s: nat | CodeStandsAt(lengths, s, data, p) ensures false {
      PastDoesNotStand(lengths, s, data, p);
    }
    if Kraft(lengths, |lengths|) == FULL && n == MAX_LENGTH {
      FullEnds(lengths, data, p);
      assert false;
    }
  }

  lemma StandsBelow(lengths: Lengths, s: nat, data: seq<Byte>, p: nat)
    requires CodeStandsAt(lengths, s, data, p)
    ensures Proper(lengths) && s < |lengths|
  {
  }

  lemma OneStands(lengths: Lengths, s: nat, data: seq<Byte>, p: nat)
    requires CodeStandsAt(lengths, s, data, p)
    ensures Decodes(lengths, data, p, Some(s), p + lengths[s])
  {
    hide CodeStandsAt, Kraft;
    forall t: nat | CodeStandsAt(lengths, t, data, p) ensures t == s {
      OneCodeStands(lengths, s, t, data, p);
    }
    StandsBelow(lengths, s, data, p);
  }

  /** The bits from p to q are the code of s. */
  ghost predicate SymbolAt(t: Table, data: seq<Byte>, p: nat, s: nat, q: nat) {
    match t
    case Lone(x) => s == x && q == p
    case Canonical(lengths) => CodeStandsAt(lengths, s, data, p) && q == p + lengths[s]
  }

  /** Reading at p gave r and went on to q: exactly the symbol whose code stands at p, if any.
      With a complete table there is none only where the input is about to run out. */
  ghost predicate Reads(t: Table, data: seq<Byte>, p: nat, r: Option<nat>, q: nat) {
    && (r.Some? ==> SymbolAt(t, data, p, r.value, q))
    && (forall s: nat, e: nat :: SymbolAt(t, data, p, s, e) ==> r == Some(s) && e == q)
    && (r.None? ==> forall size :: Complete(t, size) ==> p + MAX_LENGTH > 8 * |data|)
  }

  lemma DecodesReads(lengths: Lengths, data: seq<Byte>, p: nat, r: Option<nat>, q: nat)
    requires Decodes(lengths, data, p, r, q)
    ensures Reads(Canonical(lengths), data, p, r, q)
  {
    hide CodeStandsAt, Kraft, Proper;
  }

  lemma LoneReads(t: Table, data: seq<Byte>, p: nat)
    requires t.Lone?
    ensures Reads(t, data, p, Some(t.symbol), p)
  {
  }

  lemma CompleteReads(t: Table, size: nat, data: seq<Byte>, p: nat, s: nat, q: nat)
    requires Complete(t, size) && SymbolAt(t, data, p, s, q)
    ensures s < size && p <= q
  {
    hide Kraft;
  }

  /** The state of the reader before its n-th bit. */
  ghost predicate Reading(lengths: Lengths, data: seq<Byte>, p: nat, n: nat, code: nat, first: nat, index: nat) {
    && 1 <= n <= MAX_LENGTH + 1 && p + n - 1 <= 8 * |data|
    && code == 2 * CodeAt(data, p, n - 1)
    && first == FirstCode(Counts(lengths, |lengths|), n)
    && index == Shorter(Counts(lengths, |lengths|), n)
    && first <= code
    && PastAll(lengths, data, p, n - 1)
  }

  /** The n-th bit completes a code ... */
  lemma StepFound(c: Code, lengths: Lengths, data: seq<Byte>, p: nat, n: nat, code: nat, first: nat, index: nat,
                  bit: nat)
    requires Represents(c, Canonical(lengths)) && Reading(lengths, data, p, n, code, first, index)
    requires n <= MAX_LENGTH && p + n <= 8 * |data| && bit == Bit(data, p + n - 1)
    requires code + bit < first + c.count[n]
    ensures index + (code + bit - first) < |c.symbols|
    ensures var s := c.symbols[index + (code + bit - first)];
      s < |lengths| && lengths[s] == n && Decodes(lengths, data, p, Some(s), p + n)
  {
    hide Pow2, FirstCode, CountOf, Shorter, SortedSymbols, CodeStandsAt, Decodes, Counts, PastAll;
    Found(lengths, data, p, n);
    var s := c.symbols[index + (code + bit - first)];
    OneStands(lengths, s, data, p);
    StandsBelow(lengths, s, data, p);
  }

  /** ... or is past all codes of length n. */
  lemma StepPast(c: Code, lengths: Lengths, data: seq<Byte>, p: nat, n: nat, code: nat, first: nat, index: nat,
                 bit: nat)
    requires Represents(c, Canonical(lengths)) && Reading(lengths, data, p, n, code, first, index)
    requires n <= MAX_LENGTH && p + n <= 8 * |data| && bit == Bit(data, p + n - 1)
    requires code + bit >= first + c.count[n]
    ensures Reading(lengths, data, p, n + 1, 2 * (code + bit), 2 * (first + c.count[n]), index + c.count[n])
  {
    hide Pow2, CountOf, SortedSymbols, Counts;
    assert Past(lengths, data, p, n);
  }

  lemma ReadingStart(lengths: Lengths, data: seq<Byte>, p: nat)
    requires p <= 8 * |data|
    ensures Reading(lengths, data, p, 1, 0, 0, 0)
  {
  }

  lemma ReadingOrder(lengths: Lengths, data: seq<Byte>, p: nat, n: nat, code: nat, first: nat, index: nat)
    requires Reading(lengths, data, p, n, code, first, index)
    ensures first <= code
  {
  }

  /** The input runs out, or 15 bits are read. */
  lemma ReadingEnds(c: Code, lengths: Lengths, data: seq<Byte>, p: nat, n: nat, code: nat, first: nat, index: nat)
    requires Represents(c, Canonical(lengths)) && Reading(lengths, data, p, n, code, first, index)
    requires n == MAX_LENGTH + 1 || p + n - 1 == 8 * |data|
    ensures Reads(Canonical(lengths), data, p, None, p)
  {
    hide Decodes, Reads, PastAll, Counts, SortedSymbols, CodeAt, FirstCode, Shorter;
    NoneStands(lengths, data, p, n - 1);
    DecodesReads(lengths, data, p, None, p);
  }

  /** Reads one symbol, bit by bit. */
  method ReadSymbol(c: Code, b: Bits, ghost t: Table) returns (r: Option<nat>)
    requires b.Valid() && Represents(c, t)
    modifies b
    ensures b.Valid() && old(b.At()) <= b.At()
    ensures Reads(t, b.data, old(b.At()), r, if r.Some? then b.At() else old(b.At()))
  {
    hide Reading, Decodes, Pow2, Counts, SortedSymbols, Proper, Reads;
    if c.single.Some? {
      LoneReads(t, b.data, b.At());
      return c.single;
    }
    ghost var data, p, lengths := b.data, b.At(), t.lengths;
    var code: nat, first: nat, index: nat := 0, 0, 0;
    ReadingStart(lengths, data, p);
    for n := 1 to MAX_LENGTH + 1
      invariant b.Valid() && b.At() == p + n - 1
      invariant Reading(lengths, data, p, n, code, first, index)
    {
      var bit := b.Read(1);
      if bit.None? {
        ReadingEnds(c, lengths, data, p, n, code, first, index);
        return None;
      }
      OneBit(data, p + n - 1);
      ReadingOrder(lengths, data, p, n, code, first, index);
      code := code + bit.value;
      var k := c.count[n];
      if code < first + k {
        StepFound(c, lengths, data, p, n, code - bit.value, first, index, bit.value);
        r := Some(c.symbols[index + (code - first)]);
        DecodesReads(lengths, data, p, r, p + n);
        return;
      }
      StepPast(c, lengths, data, p, n, code - bit.value, first, index, bit.value);
      index := index + k;
      first := 2 * (first + k);
      code := 2 * code;
    }
    ReadingEnds(c, lengths, data, p, MAX_LENGTH + 1, code, first, index);
    r := None;
  }

  lemma OneBit(data: seq<Byte>, p: nat)
    requires p < 8 * |data|
    ensures Value(data, p, 1) == Bit(data, p)
  {
    assert Value(data, p, 0) == 0 && Pow2(0) == 1;
  }
}
