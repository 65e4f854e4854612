/** Maximal munch with a compiled machine, and the syllable values written from its cuts
    and read back (lib/ufont/tools/syllable.py scan, lib/ufont/tools/syllabic.py). */
module SyllableScan {
  import opened Wrappers
  import opened Patterns
  import opened SyllableDfa
  import opened SyllableCompiler

  datatype Piece = Piece(start: nat, end: nat, typ: int)

  ghost predicate InNoRule(g: seq<Rule>, w: Word) { forall r :: 0 <= r < |g| ==> !Match(g[r].p, w) }

  /** No rule matches the categories from p to e. */
  ghost predicate NoneAt(g: seq<Rule>, cats: Word, p: nat, e: nat) {
    p <= e <= |cats| && InNoRule(g, cats[p..e])
  }

  /** The piece is the longest prefix of cats[start..q] that any rule matches, typed by the
      first rule that matches it. */
  ghost predicate LongestUpTo(g: seq<Rule>, cats: Word, q: nat, piece: Piece) {
    && piece.start < piece.end <= q <= |cats|
    && !InNoRule(g, cats[piece.start..piece.end])
    && piece.typ == TypeOf(g, cats[piece.start..piece.end])
    && forall e :: piece.end < e <= q ==> NoneAt(g, cats, piece.start, e)
  }

  ghost predicate Longest(g: seq<Rule>, cats: Word, piece: Piece) { LongestUpTo(g, cats, |cats|, piece) }

  /** Contiguous longest pieces of the first n categories. */
  ghost predicate Cuts(g: seq<Rule>, cats: Word, out: seq<Piece>, n: nat) {
    && (if out == [] then n == 0 else out[0].start == 0 && out[|out| - 1].end == n)
    && (forall i :: 0 <= i < |out| ==> Longest(g, cats, out[i]))
    && (forall i :: 0 < i < |out| ==> out[i - 1].end == out[i].start)
  }

  /** No rule matches a non-empty prefix of what is left at p. */
  ghost predicate Stuck(g: seq<Rule>, cats: Word, p: nat) {
    p < |cats| && forall e :: p < e <= |cats| ==> NoneAt(g, cats, p, e)
  }

  ghost predicate HasAny(g: seq<Rule>) { exists r :: 0 <= r < |g| && g[r].p == Any }

  lemma {:induction false} DeadStaysDead(m: Machine, w: Word, n: nat)
    requires Usable(m) && n <= |w| && Run(m, w[..n]) < 0
    ensures Run(m, w) < 0
    decreases |w|
  {
    if n < |w| {
      var v := w[..|w| - 1];
      assert v[..n] == w[..n];
      DeadStaysDead(m, v, n);
    } else {
      assert w[..n] == w;
    }
  }

  /** One more category of the piece at p: the machine's answer is the prefix's type. */
  lemma AnswerAt(m: Machine, g: seq<Rule>, categories: seq<int>, cats: Word, p: nat, e: nat)
    requires Compiles(m, g, categories) && Covered(g, categories, cats) && p < e <= |cats|
    requires forall r :: 0 <= r < |g| ==> g[r].typ >= 0
    ensures Answer(m, cats[p..e]) == TypeOf(g, cats[p..e])
    ensures Answer(m, cats[p..e]) >= 0 <==> !InNoRule(g, cats[p..e])
  {
    assert Covered(g, categories, cats[p..e]);
    var r := FirstRank(g, cats[p..e]);
  }

  lemma AnyNeverStuck(g: seq<Rule>, cats: Word, p: nat)
    requires HasAny(g)
    ensures !Stuck(g, cats, p)
  {
    if p < |cats| {
      var r :| 0 <= r < |g| && g[r].p == Any;
      assert |cats[p..p + 1]| == 1;
      assert Match(g[r].p, cats[p..p + 1]);
      assert !NoneAt(g, cats, p, p + 1);
    }
  }

  /** The longest match from p up to q, or that there is none. */
  ghost predicate BestUpTo(g: seq<Rule>, cats: Word, p: nat, q: nat, best: Option<(nat, int)>) {
    match best
    case None => forall e :: p < e <= q ==> NoneAt(g, cats, p, e)
    case Some(b) => LongestUpTo(g, cats, q, Piece(p, b.0, b.1))
  }

  lemma NoneSoFar(g: seq<Rule>, cats: Word, p: nat)
    ensures BestUpTo(g, cats, p, p, None)
  {
  }

  /** One more category either makes a longer match or none. */
  lemma BestStep(m: Machine, g: seq<Rule>, categories: seq<int>, cats: Word, p: nat, q: nat, best: Option<(nat, int)>)
    requires Compiles(m, g, categories) && Covered(g, categories, cats) && p <= q < |cats|
    requires forall r :: 0 <= r < |g| ==> g[r].typ >= 0
    requires BestUpTo(g, cats, p, q, best)
    ensures var a := Answer(m, cats[p..q + 1]);
      BestUpTo(g, cats, p, q + 1, if a >= 0 then Some((q + 1, a)) else best)
  {
    hide Compiles, Covered, TypeOf;
    AnswerAt(m, g, categories, cats, p, q + 1);
  }

  lemma BestInTheEnd(g: seq<Rule>, cats: Word, p: nat, q: nat, best: Option<(nat, int)>)
    requires BestUpTo(g, cats, p, q, best) && p < |cats| && p <= q <= |cats|
    requires forall e :: q < e <= |cats| ==> NoneAt(g, cats, p, e)
    ensures best.None? ==> Stuck(g, cats, p)
    ensures best.Some? ==> Longest(g, cats, Piece(p, best.value.0, best.value.1))
  {
  }

  /** The longest match at p, or None where nothing matches (where the program fails). */
  method LongestAt(m: Machine, cats: Word, p: nat, ghost g: seq<Rule>, ghost categories: seq<int>)
    returns (best: Option<(nat, int)>)
    requires Compiles(m, g, categories) && Covered(g, categories, cats) && p < |cats|
    requires forall r :: 0 <= r < |g| ==> g[r].typ >= 0
    ensures best.None? ==> Stuck(g, cats, p)
    ensures best.Some? ==> Longest(g, cats, Piece(p, best.value.0, best.value.1))
  {
    hide Covered, BestUpTo, Stuck, Longest;
    var state: int, q: nat := 0, p;
    best := None;
    assert cats[p..p] == [];
    NoneSoFar(g, cats, p);
    while q < |cats|
      invariant p <= q <= |cats| && 0 <= state && state == Run(m, cats[p..q])
      invariant BestUpTo(g, cats, p, q, best)
    {
      assert cats[p..q + 1][..q - p] == cats[p..q];
      state := m.trans[state][m.ClassOf(cats[q])];
      assert state == Run(m, cats[p..q + 1]);
      if state < 0 {
        RestDead(m, g, categories, cats, p, q);
        BestInTheEnd(g, cats, p, q, best);
        return;
      }
      BestStep(m, g, categories, cats, p, q, best);
      if m.accept[state] >= 0 {
        best := Some((q + 1, m.accept[state]));
      }
      q := q + 1;
    }
    BestInTheEnd(g, cats, p, q, best);
  }

  /** Where the machine has died nothing longer matches. */
  lemma RestDead(m: Machine, g: seq<Rule>, categories: seq<int>, cats: Word, p: nat, q: nat)
    requires Compiles(m, g, categories) && Covered(g, categories, cats) && p <= q < |cats|
    requires (forall r :: 0 <= r < |g| ==> g[r].typ >= 0) && Run(m, cats[p..q + 1]) < 0
    ensures forall e :: q < e <= |cats| ==> NoneAt(g, cats, p, e)
  {
    forall e | q < e <= |cats| ensures NoneAt(g, cats, p, e) {
      assert cats[p..e][..q + 1 - p] == cats[p..q + 1];
      DeadStaysDead(m, cats[p..e], q + 1 - p);
      AnswerAt(m, g, categories, cats, p, e);
    }
  }

  /** Longest-match syllables: all of cats is cut, unless some place is reached where no
      rule matches; a grammar with ANY has no such place. */
  method Scan(m: Machine, cats: Word, ghost g: seq<Rule>, ghost categories: seq<int>) returns (out: Option<seq<Piece>>)
    requires Compiles(m, g, categories) && Covered(g, categories, cats)
    requires forall r :: 0 <= r < |g| ==> g[r].typ >= 0
    ensures out.Some? ==> Cuts(g, cats, out.value, |cats|)
    ensures out.None? ==> exists done, p :: Cuts(g, cats, done, p) && Stuck(g, cats, p)
    ensures HasAny(g) ==> out.Some?
  {
    var pieces, p: nat := [], 0;
    while p < |cats|
      invariant p <= |cats| && Cuts(g, cats, pieces, p)
      decreases |cats| - p
    {
      var best := LongestAt(m, cats, p, g, categories);
      if best.None? {
        if HasAny(g) {
          AnyNeverStuck(g, cats, p);
        }
        return None;
      }
      pieces := pieces + [Piece(p, best.value.0, best.value.1)];
      p := best.value.0;
    }
    out := Some(pieces);
  }

  lemma SameLongest(g: seq<Rule>, cats: Word, x: Piece, y: Piece)
    requires Longest(g, cats, x) && Longest(g, cats, y) && x.start == y.start
    ensures x == y
  {
    assert !NoneAt(g, cats, x.start, x.end) && !NoneAt(g, cats, y.start, y.end);
  }

  /** There is only one way to cut: of two cuts one begins with the other. */
  lemma {:induction false} CutsUnique(g: seq<Rule>, cats: Word, a: seq<Piece>, m: nat, b: seq<Piece>, n: nat, k: nat)
    requires Cuts(g, cats, a, m) && Cuts(g, cats, b, n) && k <= |a| <= |b|
    ensures forall i :: 0 <= i < k ==> a[i] == b[i]
    ensures k == |a| < |b| ==> b[k].start == m && m < b[k].end <= |cats| && !NoneAt(g, cats, m, b[k].end)
    ensures k == |a| == |b| ==> m == n
  {
    if k > 0 {
      CutsUnique(g, cats, a, m, b, n, k - 1);
      if k > 1 {
        assert a[k - 2] == b[k - 2] && a[k - 2].end == a[k - 1].start && b[k - 2].end == b[k - 1].start;
      }
      SameLongest(g, cats, a[k - 1], b[k - 1]);
    }
    if k == |a| < |b| {
      assert Longest(g, cats, b[k]);
    }
  }

  /** Where a cut gets stuck no complete cut exists: Scan's two outcomes exclude each other. */
  lemma StuckIsFinal(g: seq<Rule>, cats: Word, done: seq<Piece>, p: nat, all: seq<Piece>)
    requires Cuts(g, cats, done, p) && Stuck(g, cats, p)
    ensures !Cuts(g, cats, all, |cats|)
  {
    if Cuts(g, cats, all, |cats|) {
      if |done| <= |all| {
        CutsUnique(g, cats, done, p, all, |cats|, |done|);
      } else {
        CutsUnique(g, cats, all, |cats|, done, p, |all|);
      }
      assert false;
    }
  }

  // ------------------------------------------------------ serials, and back

  /** The bits that either number has. */
  function Or(a: nat, b: nat): nat
    decreases a + b
  {
    if a == 0 && b == 0 then 0
    else 2 * Or(a / 2, b / 2) + if a % 2 == 1 || b % 2 == 1 then 1 else 0
  }

  predicate HasBit(n: nat, k: nat) { if k == 0 then n % 2 == 1 else HasBit(n / 2, k - 1) }

  lemma {:induction false} OrBits(a: nat, b: nat, k: nat)
    ensures HasBit(Or(a, b), k) <==> HasBit(a, k) || HasBit(b, k)
    decreases k
  {
    if a == 0 && b == 0 {
      NoBits(k);
    } else if k > 0 {
      OrBits(a / 2, b / 2, k - 1);
    }
  }

  lemma {:induction false} NoBits(k: nat)
    ensures !HasBit(0, k)
  {
    if k > 0 {
      NoBits(k - 1);
    }
  }

  lemma {:induction false} OrZero(a: nat)
    ensures Or(a, 0) == a
  {
    if a > 0 {
      OrZero(a / 2);
    }
  }

  /** A record's syllable value: serial << 4 | type. */
  function Pack(serial: nat, typ: int): nat
    requires typ >= 0
  {
    16 * Or(serial, typ / 16) + typ % 16
  }

  /** The value has the bits of the type, and those of the serial from the fifth bit on. */
  lemma PackBits(serial: nat, typ: int, k: nat)
    requires typ >= 0
    ensures HasBit(Pack(serial, typ), k) <==> HasBit(typ, k) || (k >= 4 && HasBit(serial, k - 4))
  {
    hide Or, HasBit;
    var v, t := Pack(serial, typ), typ;
    assert v / 16 == Or(serial, typ / 16) && v % 16 == typ % 16;
    SixteenBits(v, k);
    SixteenBits(t, k);
    if k >= 4 {
      OrBits(serial, typ / 16, k - 4);
    }
  }

  lemma LowBit(n: nat, k: nat)
    ensures k < 4 ==>
      var m := if k == 0 then n else if k == 1 then n / 2 else if k == 2 then n / 2 / 2 else n / 2 / 2 / 2;
      HasBit(n, k) == (m % 2 == 1)
  {
    if k == 3 {
      assert HasBit(n, 3) == HasBit(n / 2, 2) == HasBit(n / 2 / 2, 1);
    }
  }

  /** The lowest four bits of a number are those of its remainder, the others those of its
      sixteenth. */
  lemma SixteenBits(n: nat, k: nat)
    ensures HasBit(n, k) <==> if k < 4 then HasBit(n % 16, k) else HasBit(n / 16, k - 4)
  {
    var q, r := n / 16, n % 16;
    var h := n / 2;
    assert h == 8 * q + r / 2 && h / 2 == 4 * q + r / 2 / 2 && h / 2 / 2 == 2 * q + r / 2 / 2 / 2;
    LowBit(n, k);
    LowBit(r, k);
    if k >= 4 {
      assert HasBit(n, k) == HasBit(h, k - 1) == HasBit(h / 2, k - 2) == HasBit(h / 2 / 2, k - 3);
      assert HasBit(h / 2 / 2, k - 3) == HasBit(h / 2 / 2 / 2, k - 4) && h / 2 / 2 / 2 == q;
    }
  }

  lemma PackSmall(serial: nat, typ: int)
    requires 0 <= typ < 16
    ensures Pack(serial, typ) == 16 * serial + typ
  {
    OrZero(serial);
  }

  /** The serial of the k-th syllable: 1 to 15, over and over. */
  function SerialOf(k: nat): nat { k % 15 + 1 }

  /** values holds, over each piece, the piece's serial and type. */
  ghost predicate Packed(out: seq<Piece>, values: seq<nat>, n: nat)
    requires n <= |out|
  {
    forall k :: 0 <= k < n ==> Holds(values, out[k], SerialOf(k))
  }

  ghost predicate Holds(values: seq<nat>, piece: Piece, serial: nat) {
    && 0 <= piece.start <= piece.end <= |values| && piece.typ >= 0
    && forall i :: piece.start <= i < piece.end ==> values[i] == Pack(serial, piece.typ)
  }

  method Fill(a: array<nat>, lo: nat, hi: nat, v: nat)
    requires lo <= hi <= a.Length
    modifies a
    ensures a[..] == old(a[..lo]) + seq(hi - lo, _ => v) + old(a[hi..])
  {
    for i := lo to hi
      invariant a[..lo] == old(a[..lo]) && a[hi..] == old(a[hi..])
      invariant forall j :: lo <= j < i ==> a[j] == v
    {
      a[i] := v;
    }
    assert a[..] == a[..lo] + a[lo..hi] + a[hi..];
    assert a[lo..hi] == seq(hi - lo, _ => v);
  }

  lemma PackedMore(g: seq<Rule>, cats: Word, out: seq<Piece>, before: seq<nat>, after: seq<nat>, k: nat)
    requires Cuts(g, cats, out, |cats|) && |before| == |cats| && k < |out| && out[k].typ >= 0
    requires Packed(out, before, k) && out[k].start <= out[k].end <= |cats|
    requires after == before[..out[k].start] + seq(out[k].end - out[k].start, _ => Pack(SerialOf(k), out[k].typ))
      + before[out[k].end..]
    ensures Packed(out, after, k + 1)
  {
    forall j | 0 <= j < k ensures Holds(after, out[j], SerialOf(j)) {
      EarlierEnds(g, cats, out, j, k);
      assert Holds(before, out[j], SerialOf(j));
    }
  }

  lemma SerialStep(k: nat)
    ensures SerialOf(k + 1) == if SerialOf(k) + 1 == 16 then 1 else SerialOf(k) + 1
  {
  }

  lemma TypeInRange(g: seq<Rule>, cats: Word, out: seq<Piece>, k: nat)
    requires Cuts(g, cats, out, |cats|) && k < |out| && forall r :: 0 <= r < |g| ==> g[r].typ >= 0
    ensures exists r :: 0 <= r < |g| && out[k].typ == g[r].typ
  {
    hide Match;
    assert Longest(g, cats, out[k]);
    var r := FirstRank(g, cats[out[k].start..out[k].end]);
    assert r < |g|;
  }

  ghost predicate HasType(out: seq<Piece>, n: nat, typ: int) {
    exists k :: 0 <= k < n <= |out| && out[k].typ == typ
  }

  lemma HasTypeMore(out: seq<Piece>, n: nat, typ: int)
    requires n < |out|
    ensures HasType(out, n + 1, typ) <==> HasType(out, n, typ) || out[n].typ == typ
  {
  }

  lemma NothingPacked(out: seq<Piece>, values: seq<nat>, typ: int)
    ensures Packed(out, values, 0) && !HasType(out, 0, typ)
  {
  }

  method FindSyllables(m: Machine, cats: Word, syllable: array<nat>, brokenType: int,
                       ghost g: seq<Rule>, ghost categories: seq<int>) returns (broken: bool, ghost out: seq<Piece>)
    requires Compiles(m, g, categories) && Covered(g, categories, cats) && HasAny(g)
    requires forall r :: 0 <= r < |g| ==> g[r].typ >= 0
    requires syllable.Length == |cats|
    modifies syllable
    ensures Cuts(g, cats, out, |cats|) && Packed(out, syllable[..], |out|)
    ensures broken <==> HasType(out, |out|, brokenType)
  {
    hide Cuts, Packed, HasType, Covered, Compiles;
    var pieces := Scan(m, cats, g, categories);
    out := pieces.value;
    var serial: nat;
    serial, broken := 1, false;
    NothingPacked(out, syllable[..], brokenType);
    for k := 0 to |pieces.value|
      invariant serial == SerialOf(k)
      invariant Packed(out, syllable[..], k)
      invariant broken <==> HasType(out, k, brokenType)
    {
      var piece := pieces.value[k];
      PieceInText(g, cats, out, k);
      TypeInRange(g, cats, out, k);
      ghost var before := syllable[..];
      Fill(syllable, piece.start, piece.end, Pack(serial, piece.typ));
      PackedMore(g, cats, out, before, syllable[..], k);
      SerialStep(k);
      HasTypeMore(out, k, brokenType);
      serial := serial + 1;
      if serial == 16 {
        serial := 1;
      }
      broken := broken || piece.typ == brokenType;
    }
  }

  lemma {:induction false} EarlierEnds(g: seq<Rule>, cats: Word, out: seq<Piece>, j: nat, k: nat)
    requires Cuts(g, cats, out, |cats|) && j < k < |out|
    ensures out[j].end <= out[k].start
    decreases k - j
  {
    if j + 1 < k {
      EarlierEnds(g, cats, out, j + 1, k);
      assert Longest(g, cats, out[j + 1]);
    }
  }

  /** Runs of one value, as (start, end): every run maximal, nothing left out. */
  ghost predicate Runs(values: seq<nat>, runs: seq<(nat, nat)>, n: nat) {
    && (if runs == [] then n == 0 else runs[0].0 == 0 && runs[|runs| - 1].1 == n)
    && n <= |values|
    && (forall k :: 0 <= k < |runs| ==> IsRun(values, runs[k]))
    && (forall k :: 0 < k < |runs| ==> runs[k - 1].1 == runs[k].0)
  }

  ghost predicate IsRun(values: seq<nat>, r: (nat, nat)) {
    && r.0 < r.1 <= |values|
    && (forall i :: r.0 <= i < r.1 ==> values[i] == values[r.0])
    && (r.1 < |values| ==> values[r.1] != values[r.0])
  }

  method Syllables(values: seq<nat>) returns (runs: seq<(nat, nat)>)
    ensures Runs(values, runs, |values|)
  {
    var start: nat := 0;
    runs := [];
    while start < |values|
      invariant start <= |values| && Runs(values, runs, start)
      decreases |values| - start
    {
      var end: nat := start + 1;
      while end < |values| && values[end] == values[start]
        invariant start < end <= |values|
        invariant forall i :: start <= i < end ==> values[i] == values[start]
      {
        end := end + 1;
      }
      runs := runs + [(start, end)];
      start := end;
    }
  }

  lemma PieceInText(g: seq<Rule>, cats: Word, out: seq<Piece>, k: nat)
    requires Cuts(g, cats, out, |cats|) && k < |out|
    ensures out[k].start < out[k].end <= |cats|
  {
    assert Longest(g, cats, out[k]);
  }

  lemma RunInText(values: seq<nat>, r: (nat, nat))
    requires IsRun(values, r)
    ensures r.0 < r.1 <= |values|
  {
  }

  /** Neighbouring pieces have different values. */
  ghost predicate Told(out: seq<Piece>) {
    && (forall k :: 0 <= k < |out| ==> out[k].typ >= 0)
    && forall k: nat :: k + 1 < |out| ==> Pack(SerialOf(k), out[k].typ) != Pack(SerialOf(k + 1), out[k + 1].typ)
  }

  /** So they have with types below 16, whatever the types are. */
  lemma SmallTypesTold(g: seq<Rule>, cats: Word, out: seq<Piece>)
    requires Cuts(g, cats, out, |cats|) && forall r :: 0 <= r < |g| ==> 0 <= g[r].typ < 16
    ensures Told(out)
  {
    hide Cuts, Pack;
    forall k | 0 <= k < |out| ensures 0 <= out[k].typ < 16 {
      TypeInRange(g, cats, out, k);
    }
    forall k: nat | k + 1 < |out|
      ensures Pack(SerialOf(k), out[k].typ) != Pack(SerialOf(k + 1), out[k + 1].typ)
    {
      PackSmall(SerialOf(k), out[k].typ);
      PackSmall(SerialOf(k + 1), out[k + 1].typ);
      SerialStep(k);
    }
  }

  /** Two syllables of type 16, the second and the third of a text, have one value. */
  lemma LargeTypesMeet()
    ensures Pack(SerialOf(1), 16) == Pack(SerialOf(2), 16)
  {
    assert SerialOf(1) == 2 && SerialOf(2) == 3;
    assert Or(2, 1) == 2 * Or(1, 0) + 1 && Or(3, 1) == 2 * Or(1, 0) + 1;
  }

  /** A run that starts where a piece does ends where it does. */
  lemma RunIsPiece(g: seq<Rule>, cats: Word, out: seq<Piece>, values: seq<nat>, r: (nat, nat), k: nat)
    requires Cuts(g, cats, out, |cats|) && |values| == |cats| && Packed(out, values, |out|)
    requires k < |out| && IsRun(values, r) && r.0 == out[k].start && Told(out)
    ensures r.1 == out[k].end
  {
    hide Longest, SerialOf, Or;
    var p := out[k];
    PieceInText(g, cats, out, k);
    assert Holds(values, p, SerialOf(k));
    if k + 1 < |out| {
      PieceInText(g, cats, out, k + 1);
      assert Holds(values, out[k + 1], SerialOf(k + 1));
      assert values[p.end] == Pack(SerialOf(k + 1), out[k + 1].typ) && values[p.start] == Pack(SerialOf(k), p.typ);
      assert values[p.end] != values[p.start];
    } else {
      assert p.end == |values|;
    }
    assert forall i :: p.start <= i < p.end ==> values[i] == values[p.start];
  }

  /** Round trip: where neighbours differ, the runs read back from the syllable values are exactly
      the cuts made. */
  lemma {:induction false} CutsReadBack(g: seq<Rule>, cats: Word, out: seq<Piece>, values: seq<nat>,
                                        runs: seq<(nat, nat)>, k: nat)
    requires Cuts(g, cats, out, |cats|) && |values| == |cats|
    requires Packed(out, values, |out|) && Runs(values, runs, |values|) && k <= |out| && Told(out)
    ensures k <= |runs| && forall j :: 0 <= j < k ==> runs[j] == (out[j].start, out[j].end)
    ensures k == |out| ==> |runs| == |out|
  {
    if k > 0 {
      hide Holds, IsRun, Packed, Told;
      CutsReadBack(g, cats, out, values, runs, k - 1);
      var p := out[k - 1];
      assert Longest(g, cats, p);
      if k > 1 {
        assert runs[k - 2].1 == out[k - 2].end == p.start;
      }
      assert k - 1 < |runs|;
      var r := runs[k - 1];
      assert r.0 == p.start && IsRun(values, r);
      RunIsPiece(g, cats, out, values, r, k - 1);
      if k < |runs| {
        RunInText(values, runs[k]);
      }
    }
  }

  /** The runs read back are the cuts made. */
  ghost predicate ReadsBack(out: seq<Piece>, runs: seq<(nat, nat)>) {
    |runs| == |out| && forall k :: 0 <= k < |out| ==> runs[k] == (out[k].start, out[k].end)
  }

  /** They are so exactly when neighbours differ, as they do with types below 16. */
  lemma ReadBackWhenTold(g: seq<Rule>, cats: Word, out: seq<Piece>, values: seq<nat>, runs: seq<(nat, nat)>)
    requires Cuts(g, cats, out, |cats|) && |values| == |cats|
    requires Packed(out, values, |out|) && Runs(values, runs, |values|)
    ensures ReadsBack(out, runs) <==> Told(out)
    ensures (forall r :: 0 <= r < |g| ==> 0 <= g[r].typ < 16) ==> ReadsBack(out, runs)
  {
    hide Pack, SerialOf;
    if forall r :: 0 <= r < |g| ==> 0 <= g[r].typ < 16 {
      SmallTypesTold(g, cats, out);
    }
    if Told(out) {
      CutsReadBack(g, cats, out, values, runs, |out|);
    } else if ReadsBack(out, runs) {
      forall k | 0 <= k < |out| ensures Holds(values, out[k], SerialOf(k)) && out[k].start < out[k].end {
        PieceInText(g, cats, out, k);
      }
      forall k: nat | k + 1 < |out|
        ensures Pack(SerialOf(k), out[k].typ) != Pack(SerialOf(k + 1), out[k + 1].typ)
      {
        assert IsRun(values, runs[k]) && runs[k].1 == runs[k + 1].0;
        assert values[out[k].start] == Pack(SerialOf(k), out[k].typ);
        assert values[out[k + 1].start] == Pack(SerialOf(k + 1), out[k + 1].typ);
      }
    }
  }
}
