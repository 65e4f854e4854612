/** Icon packs written and read back (pack of lib/ugfx/tools/uic.py, read_pack of
    lib/ugfx/tools/uic_sheet.py). */
module UicPack {
  import opened Wrappers
  import opened UicBytes
  import opened UicBody
  import opened UicWalk
  import UicNames

  /** An icon: its name, the 16 bytes of its view box, its slots and commands, and the fraction
      bits if they are given. */
  datatype Icon = Icon(name: UicNames.Text, viewbox: seq<Byte>, slots: seq<nat>, commands: seq<Command<real>>,
                       size: nat, frac: Option<nat>)

  // ------------------------------------------------------------------------ bodies

  function Quantities(cs: seq<Command<real>>, f: nat): Option<seq<Command<int>>> {
    if cs == [] then Some([])
    else
      match (Quantities(cs[..|cs| - 1], f), Quantised(cs[|cs| - 1], f))
      case (Some(qs), Some(q)) => Some(qs + [q])
      case _ => None
  }

  lemma {:induction false} QuantitiesWritable(cs: seq<Command<real>>, f: nat)
    ensures Quantities(cs, f).Some? ==>
      |Quantities(cs, f).value| == |cs| && forall k :: 0 <= k < |cs| ==> Writable(Quantities(cs, f).value[k])
  {
    hide Quantised, Writable;
    if cs != [] {
      QuantitiesWritable(cs[..|cs| - 1], f);
      QuantisedWritable(cs[|cs| - 1], f);
    }
  }

  /** The commands ds are the commands cs with quantised coordinates. */
  ghost predicate AllStandFor(ds: seq<Command<int>>, cs: seq<Command<real>>, f: nat) {
    |ds| == |cs| && forall k :: 0 <= k < |cs| ==> CommandStandsFor(ds[k], cs[k], f)
  }

  lemma {:induction false} QuantitiesNearest(cs: seq<Command<real>>, f: nat, ds: seq<Command<int>>)
    ensures Quantities(cs, f) == Some(ds) <==> AllStandFor(ds, cs, f)
    decreases |cs|
  {
    hide Quantised, CommandStandsFor;
    if cs != [] {
      var n := |cs| - 1;
      if |ds| == |cs| {
        assert ds == ds[..n] + [ds[n]];
        QuantitiesNearest(cs[..n], f, ds[..n]);
        QuantisedNearest(cs[n], f, ds[n]);
      } else if Quantities(cs, f).Some? {
        QuantitiesNearest(cs[..n], f, Quantities(cs[..n], f).value);
      }
    }
  }

  lemma {:induction false} StayUnfit(cs: seq<Command<real>>, f: nat, k: nat)
    requires k <= |cs| && Quantities(cs[..k], f).None?
    ensures Quantities(cs, f).None?
    decreases |cs|
  {
    hide Quantised;
    if k < |cs| {
      assert cs[..|cs| - 1][..k] == cs[..k];
      StayUnfit(cs[..|cs| - 1], f, k);
    } else {
      assert cs[..k] == cs;
    }
  }

  lemma {:induction false} FittingQuantities(cs: seq<Command<real>>, all: seq<Command<real>>, f: nat)
    requires cs <= all && AllQuantise(all, f) && forall k :: 0 <= k < |all| ==> Shaped(all[k])
    ensures Quantities(cs, f).Some?
    decreases |cs|
  {
    hide Quantised, AllQuantise;
    if cs != [] {
      FittingQuantities(cs[..|cs| - 1], all, f);
      FittingQuantises(all, f, |cs| - 1);
    }
  }

  function PutSlots(slots: seq<nat>): (r: seq<Byte>)
    requires forall k :: 0 <= k < |slots| ==> slots[k] < U32
    ensures |r| == 4 * |slots|
  {
    if slots == [] then [] else PutSlots(slots[..|slots| - 1]) + Put32(slots[|slots| - 1])
  }

  lemma SlotsMore(slots: seq<nat>, k: nat)
    requires k < |slots| && forall j :: 0 <= j <= k ==> slots[j] < U32
    ensures PutSlots(slots[..k + 1]) == PutSlots(slots[..k]) + Put32(slots[k])
  {
    assert slots[..k + 1][..k] == slots[..k];
  }

  ghost predicate HeadFits(i: Icon, f: nat) {
    |i.viewbox| == 16 && f < 256 && |i.slots| < 256 && forall k :: 0 <= k < |i.slots| ==> i.slots[k] < U32
  }

  /** The bytes of an icon's body. */
  ghost function BodyOf(i: Icon, f: nat): seq<Byte>
    requires HeadFits(i, f) && Quantities(i.commands, f).Some?
  {
    QuantitiesWritable(i.commands, f);
    i.viewbox + [f, |i.slots|] + Put16(0) + PutSlots(i.slots) + (EncodedAll(Quantities(i.commands, f).value) + [END])
  }

  method WriteCommands(cs: seq<Command<real>>, f: nat) returns (r: Option<seq<Byte>>)
    ensures r.Some? <==> Quantities(cs, f).Some?
    ensures r.Some? ==> (forall k :: 0 <= k < |Quantities(cs, f).value| ==> Writable(Quantities(cs, f).value[k]))
                        && r.value == EncodedAll(Quantities(cs, f).value)
  {
    hide Quantised, Writable, Encoded;
    var out: seq<Byte> := [];
    for k := 0 to |cs|
      invariant Quantities(cs[..k], f).Some?
      invariant forall j :: 0 <= j < |Quantities(cs[..k], f).value| ==> Writable(Quantities(cs[..k], f).value[j])
      invariant out == EncodedAll(Quantities(cs[..k], f).value)
    {
      assert cs[..k + 1][..k] == cs[..k];
      var c := WriteCommand(cs[k], f);
      if c.None? {
        StayUnfit(cs, f, k + 1);
        return None;
      }
      EncodedMore(Quantities(cs[..k], f).value, Quantised(cs[k], f).value);
      out := out + c.value;
    }
    assert cs[..|cs|] == cs;
    r := Some(out);
  }

  /** What the walk over the body b of an icon shows: the view box, the number of fraction bits, and
      each command with the whole numbers nearest to its scaled coordinates, and then the end. */
  ghost predicate Shows(b: seq<Byte>, i: Icon, f: nat) {
    && |b| >= 20 && b[..16] == i.viewbox && b[16] == f && b[17] == |i.slots|
    && (forall k :: 0 <= k < |i.slots| ==> Get32(b, 20 + 4 * k) == Some(i.slots[k]))
    && match Walked(b, CommandsAt(b))
       case None => false
       case Some(xs) =>
         && |xs| == |i.commands| + 1 && xs[|i.commands|] == End
         && forall k :: 0 <= k < |i.commands| ==> xs[k].Known? && CommandStandsFor(xs[k].c, i.commands[k], f)
  }

  lemma {:induction false} SlotAt(slots: seq<nat>, b: seq<Byte>, p: nat, k: nat)
    requires k < |slots| && (forall j :: 0 <= j < |slots| ==> slots[j] < U32) && Stands(PutSlots(slots), b, p)
    ensures Get32(b, p + 4 * k) == Some(slots[k])
  {
    hide Put32, Get32;
    var n := |slots| - 1;
    StandsParts(PutSlots(slots[..n]), Put32(slots[n]), b, p);
    if k < n {
      SlotAt(slots[..n], b, p, k);
    } else {
      Get32Put(slots[n], b, p + 4 * n);
    }
  }

  lemma BodyShows(i: Icon, f: nat)
    requires HeadFits(i, f) && Quantities(i.commands, f).Some?
    ensures Shows(BodyOf(i, f), i, f)
  {
    hide EncodedAll, PutSlots, Quantities, Walked, Found, CommandStandsFor;
    var qs := Quantities(i.commands, f).value;
    var b := BodyOf(i, f);
    BodyRecovered(i, f);
    QuantitiesNearest(i.commands, f, qs);
    FoundItems(qs);
    SlotsShown(i, f);
  }

  lemma SlotsShown(i: Icon, f: nat)
    requires HeadFits(i, f) && Quantities(i.commands, f).Some?
    ensures var b := BodyOf(i, f);
      && |b| >= 20 && b[..16] == i.viewbox && b[17] == |i.slots|
      && forall k :: 0 <= k < |i.slots| ==> Get32(b, 20 + 4 * k) == Some(i.slots[k])
  {
    hide EncodedAll, PutSlots, Quantities, Get32, Put16;
    QuantitiesWritable(i.commands, f);
    var head, tail := i.viewbox + [f, |i.slots|] + Put16(0), EncodedAll(Quantities(i.commands, f).value) + [END];
    var b, slots := BodyOf(i, f), PutSlots(i.slots);
    assert b == head + slots + tail;
    StandsIn(head, slots, tail);
    forall k | 0 <= k < |i.slots| ensures Get32(b, 20 + 4 * k) == Some(i.slots[k]) {
      SlotAt(i.slots, b, 20, k);
    }
  }

  method Body(i: Icon) returns (r: Option<seq<Byte>>, f: nat)
    ensures i.frac.Some? ==> f == i.frac.value
    ensures i.frac.None? ==> Largest(i.commands, f)
    ensures r.Some? <==> HeadFits(i, f) && Quantities(i.commands, f).Some?
    ensures r.Some? ==> r.value == BodyOf(i, f) && Shows(r.value, i, f)
  {
    hide Shows, AllFit, Quantities, PutSlots, EncodedAll;
    if i.frac.Some? {
      f := i.frac.value;
    } else {
      f := FractionBits(i.commands);
    }
    r := None;
    if |i.viewbox| != 16 || f >= 256 || |i.slots| >= 256 {
      return;
    }
    var slots: seq<Byte> := [];
    for k := 0 to |i.slots|
      invariant forall j :: 0 <= j < k ==> i.slots[j] < U32
      invariant slots == PutSlots(i.slots[..k])
    {
      if i.slots[k] >= U32 {
        return;
      }
      SlotsMore(i.slots, k);
      slots := slots + Put32(i.slots[k]);
    }
    assert i.slots[..|i.slots|] == i.slots;
    var commands := WriteCommands(i.commands, f);
    if commands.None? {
      return;
    }
    r := Some(i.viewbox + [f, |i.slots|] + Put16(0) + slots + (commands.value + [END]));
    BodyShows(i, f);
  }

  /** Where the commands start, from what the body says of itself. */
  function CommandsAt(b: seq<Byte>): nat
    requires |b| >= 20
  {
    var slots: int := b[17];
    20 + 4 * slots
  }

  /** The walk over a body recovers the number of fraction bits and the commands at quantised
      coordinates. */
  lemma BodyRecovered(i: Icon, f: nat)
    requires HeadFits(i, f) && Quantities(i.commands, f).Some?
    ensures var b := BodyOf(i, f);
      |b| >= 20 && b[16] == f && Walked(b, CommandsAt(b)) == Some(Found(Quantities(i.commands, f).value))
  {
    hide EncodedAll, PutSlots, Quantities, Walked, Found;
    QuantitiesWritable(i.commands, f);
    var qs := Quantities(i.commands, f).value;
    var b, tail := BodyOf(i, f), EncodedAll(qs) + [END];
    var before := i.viewbox + [f, |i.slots|] + Put16(0) + PutSlots(i.slots);
    assert b == before + tail;
    StandsIn(before, tail, []);
    assert before + tail + [] == b;
    WalkRecovers(qs, b, 20 + 4 * |i.slots|);
  }

  // ------------------------------------------------------------------- the layout

  datatype Entry = Entry(name: seq<Byte>, size: nat, body: seq<Byte>)

  function Padding(n: nat): nat { (4 - n % 4) % 4 }

  function Zeros(n: nat): (r: seq<Byte>)
    ensures |r| == n && forall k :: 0 <= k < n ==> r[k] == 0
  {
    seq(n, _ => 0)
  }

  function Padded(b: seq<Byte>): seq<Byte> { b + Zeros(Padding(|b|)) }

  /** The names, and the bodies, of the first n entries one after another. */
  function Strings(es: seq<Entry>, n: nat): seq<Byte>
    requires n <= |es|
  {
    if n == 0 then [] else Strings(es, n - 1) + es[n - 1].name
  }

  function Bodies(es: seq<Entry>, n: nat): seq<Byte>
    requires n <= |es|
  {
    if n == 0 then [] else Bodies(es, n - 1) + Padded(es[n - 1].body)
  }

  /** Every number of the row of entry k fits its field. */
  predicate RowFits(es: seq<Entry>, k: nat)
    requires k < |es|
  {
    && |Strings(es, k)| < U32 && |Bodies(es, k)| < U32 && |es[k].body| < U32
    && |es[k].name| < U16 && es[k].size < U16
  }

  function Row(es: seq<Entry>, k: nat): (r: seq<Byte>)
    requires k < |es| && RowFits(es, k)
    ensures |r| == 16
  {
    Put32(|Strings(es, k)|) + (Put32(|Bodies(es, k)|)
      + (Put32(|es[k].body|) + (Put16(|es[k].name|) + Put16(es[k].size))))
  }

  function Rows(es: seq<Entry>, n: nat): (r: seq<Byte>)
    requires n <= |es| && forall k: nat :: k < n ==> RowFits(es, k)
    ensures |r| == 16 * n
  {
    if n == 0 then [] else Rows(es, n - 1) + Row(es, n - 1)
  }

  /** Every body starts at a multiple of four bytes, with less than four between. */
  lemma {:induction false} BodiesAligned(es: seq<Entry>, n: nat)
    requires n <= |es|
    ensures |Bodies(es, n)| % 4 == 0 && BodiesAt(es) % 4 == 0
    ensures n > 0 ==> 0 <= |Bodies(es, n)| - |Bodies(es, n - 1)| - |es[n - 1].body| < 4
    ensures 0 <= BodiesAt(es) - StringsAt(es) - |Strings(es, |es|)| < 4
  {
    if n > 0 {
      BodiesAligned(es, n - 1);
    }
  }

  const MAGIC: seq<Byte> := [0x55, 0x49, 0x43, 0x1a]
  const INDEX: nat := 32

  function StringsAt(es: seq<Entry>): nat { INDEX + 16 * |es| }

  function BodiesAt(es: seq<Entry>): nat {
    var end := StringsAt(es) + |Strings(es, |es|)|;
    end + Padding(end)
  }

  predicate Fits(es: seq<Entry>) {
    && (forall k: nat :: k < |es| ==> RowFits(es, k))
    && |es| < U32 && StringsAt(es) < U32 && |Strings(es, |es|)| < U32 && BodiesAt(es) < U32 && |Bodies(es, |es|)| < U32
  }

  function Header(es: seq<Entry>): (r: seq<Byte>)
    requires Fits(es)
    ensures |r| == INDEX
  {
    MAGIC + (Put16(1) + (Put16(0) + (Put32(|es|) + (Put32(INDEX) + (Put32(StringsAt(es)) + (Put32(|Strings(es, |es|)|)
    + (Put32(BodiesAt(es)) + Put32(|Bodies(es, |es|)|))))))))
  }

  /** A whole pack. */
  function Packed(es: seq<Entry>): seq<Byte>
    requires Fits(es)
  {
    var end := StringsAt(es) + |Strings(es, |es|)|;
    Header(es) + Rows(es, |es|) + Strings(es, |es|) + Zeros(BodiesAt(es) - end) + Bodies(es, |es|)
  }

  // ------------------------------------------------------------------ reading a pack

  /** Entry k of a pack: its row is read, and then what the row points to. */
  function EntryAt(data: seq<Byte>, index: nat, strings: nat, bodies: nat, k: nat): Option<Entry> {
    var p := index + 16 * k;
    match (Get32(data, p), Get32(data, p + 4), Get32(data, p + 8), Get16(data, p + 12), Get16(data, p + 14))
    case (Some(no), Some(bo), Some(bs), Some(nl), Some(size)) =>
      Some(Entry(Slice(data, strings + no, nl), size, Slice(data, bodies + bo, bs)))
    case _ => None
  }

  function Entries(data: seq<Byte>, index: nat, strings: nat, bodies: nat, n: nat): Option<seq<Entry>> {
    if n == 0 then Some([])
    else
      match (Entries(data, index, strings, bodies, n - 1), EntryAt(data, index, strings, bodies, n - 1))
      case (Some(es), Some(e)) => Some(es + [e])
      case _ => None
  }

  function Unpacked(data: seq<Byte>): Option<seq<Entry>> {
    match (Get32(data, 8), Get32(data, 12), Get32(data, 16), Get32(data, 24), Get32(data, 28))
    case (Some(n), Some(index), Some(strings), Some(bodies), Some(_)) => Entries(data, index, strings, bodies, n)
    case _ => None
  }

  /** An icon as it is read: its name, its size and its body. */
  datatype Read = Read(name: UicNames.Text, size: nat, body: seq<Byte>)

  /** The entries with their names decoded; none when the bytes of a name are not UTF-8. */
  function Named(es: seq<Entry>): Option<seq<Read>> {
    if es == [] then Some([])
    else
      var last := es[|es| - 1];
      match (Named(es[..|es| - 1]), UicNames.Decoded(last.name))
      case (Some(rs), Some(name)) => Some(rs + [Read(name, last.size, last.body)])
      case _ => None
  }

  lemma NamedMore(es: seq<Entry>, e: Entry)
    ensures Named(es + [e]) == match (Named(es), UicNames.Decoded(e.name))
                               case (Some(rs), Some(name)) => Some(rs + [Read(name, e.size, e.body)])
                               case _ => None
  {
    assert (es + [e])[..|es|] == es;
  }

  lemma {:induction false} StayNameless(es: seq<Entry>, k: nat)
    requires k <= |es| && Named(es[..k]).None?
    ensures Named(es).None?
    decreases |es|
  {
    if k < |es| {
      assert es[..|es| - 1][..k] == es[..k];
      StayNameless(es[..|es| - 1], k);
    } else {
      assert es[..k] == es;
    }
  }

  /** What is read from a pack: every entry with its name. */
  function ReadBack(data: seq<Byte>): Option<seq<Read>> {
    match Unpacked(data)
    case None => None
    case Some(es) => Named(es)
  }

  method ReadPack(data: seq<Byte>) returns (r: Option<seq<Read>>)
    ensures r == ReadBack(data)
  {
    hide Get32, EntryAt, Named;
    var n, index, strings, bodies, size := Get32(data, 8), Get32(data, 12), Get32(data, 16), Get32(data, 24),
      Get32(data, 28);
    if n.None? || index.None? || strings.None? || bodies.None? || size.None? {
      return None;
    }
    var out: seq<Read> := [];
    ghost var es: seq<Entry> := [];
    assert Named([]) == Some([]) by {
      NothingNamed();
    }
    for k := 0 to n.value
      invariant Entries(data, index.value, strings.value, bodies.value, k) == Some(es) && Named(es) == Some(out)
    {
      var e := EntryAt(data, index.value, strings.value, bodies.value, k);
      if e.None? {
        StayUnread(data, index.value, strings.value, bodies.value, k + 1, n.value);
        return None;
      }
      var name := UicNames.Decoded(e.value.name);
      NamedMore(es, e.value);
      es := es + [e.value];
      if name.None? {
        EntriesStart(data, index.value, strings.value, bodies.value, k + 1, n.value);
        if Unpacked(data).Some? {
          StayNameless(Unpacked(data).value, k + 1);
        }
        return None;
      }
      out := out + [Read(name.value, e.value.size, e.value.body)];
    }
    r := Some(out);
  }

  lemma NothingNamed()
    ensures Named([]) == Some([])
  {
  }

  /** The first entries are those that are read first. */
  lemma {:induction false} EntriesStart(data: seq<Byte>, index: nat, strings: nat, bodies: nat, k: nat, n: nat)
    requires k <= n && Entries(data, index, strings, bodies, k).Some?
    ensures Entries(data, index, strings, bodies, n).Some? ==>
      var es := Entries(data, index, strings, bodies, n).value;
      |es| == n && es[..k] == Entries(data, index, strings, bodies, k).value
    decreases n
  {
    hide EntryAt;
    EntriesCount(data, index, strings, bodies, k);
    if k < n {
      EntriesStart(data, index, strings, bodies, k, n - 1);
    }
  }

  lemma {:induction false} EntriesCount(data: seq<Byte>, index: nat, strings: nat, bodies: nat, n: nat)
    ensures Entries(data, index, strings, bodies, n).Some? ==> |Entries(data, index, strings, bodies, n).value| == n
  {
    hide EntryAt;
    if n > 0 {
      EntriesCount(data, index, strings, bodies, n - 1);
    }
  }

  lemma {:induction false} StayUnread(data: seq<Byte>, index: nat, strings: nat, bodies: nat, k: nat, n: nat)
    requires k <= n && Entries(data, index, strings, bodies, k).None?
    ensures Entries(data, index, strings, bodies, n).None?
    decreases n
  {
    hide EntryAt;
    if k < n {
      StayUnread(data, index, strings, bodies, k, n - 1);
    }
  }

  // -------------------------------------------------------------------- there and back

  lemma {:induction false} RowStands(es: seq<Entry>, n: nat, k: nat)
    requires k < n <= |es| && forall j: nat :: j < n ==> RowFits(es, j)
    ensures Stands(Row(es, k), Rows(es, n), 16 * k)
    decreases n
  {
    hide Row, RowFits;
    if k < n - 1 {
      RowStands(es, n - 1, k);
      StandsLonger(Row(es, k), Rows(es, n - 1), Row(es, n - 1), 16 * k);
    }
  }

  lemma StandsLonger(part: seq<Byte>, data: seq<Byte>, more: seq<Byte>, p: nat)
    requires Stands(part, data, p)
    ensures Stands(part, data + more, p)
  {
    assert (data + more)[p..p + |part|] == data[p..p + |part|];
  }

  lemma StandsAfter(before: seq<Byte>, part: seq<Byte>, data: seq<Byte>, p: nat)
    requires Stands(part, data, p)
    ensures Stands(part, before + data, |before| + p)
  {
    assert (before + data)[|before| + p..|before| + p + |part|] == data[p..p + |part|];
  }

  lemma {:induction false} NameStands(es: seq<Entry>, n: nat, k: nat)
    requires k < n <= |es|
    ensures Stands(es[k].name, Strings(es, n), |Strings(es, k)|)
    decreases n
  {
    if k < n - 1 {
      NameStands(es, n - 1, k);
      StandsLonger(es[k].name, Strings(es, n - 1), es[n - 1].name, |Strings(es, k)|);
    }
  }

  lemma {:induction false} BodyStands(es: seq<Entry>, n: nat, k: nat)
    requires k < n <= |es|
    ensures Stands(es[k].body, Bodies(es, n), |Bodies(es, k)|)
    decreases n
  {
    hide Zeros;
    if k < n - 1 {
      BodyStands(es, n - 1, k);
      StandsLonger(es[k].body, Bodies(es, n - 1), Padded(es[n - 1].body), |Bodies(es, k)|);
    } else {
      StandsIn(Bodies(es, k), es[k].body, Zeros(Padding(|es[k].body|)));
      assert Bodies(es, n) == Bodies(es, k) + es[k].body + Zeros(Padding(|es[k].body|));
    }
  }

  lemma SliceStands(part: seq<Byte>, data: seq<Byte>, p: nat)
    requires Stands(part, data, p)
    ensures Slice(data, p, |part|) == part
  {
  }

  lemma RowRead(es: seq<Entry>, k: nat, data: seq<Byte>, index: nat, strings: nat, bodies: nat)
    requires k < |es| && RowFits(es, k) && Stands(Row(es, k), data, index + 16 * k)
    requires Stands(es[k].name, data, strings + |Strings(es, k)|) && Stands(es[k].body, data, bodies + |Bodies(es, k)|)
    ensures EntryAt(data, index, strings, bodies, k) == Some(es[k])
  {
    hide Put16, Put32, Get16, Get32, Stands, Strings, Bodies, Slice;
    var p := index + 16 * k;
    var s16 := Put16(|es[k].name|) + Put16(es[k].size);
    var s12 := Put32(|es[k].body|) + s16;
    var s8 := Put32(|Bodies(es, k)|) + s12;
    StandsParts(Put32(|Strings(es, k)|), s8, data, p);
    StandsParts(Put32(|Bodies(es, k)|), s12, data, p + 4);
    StandsParts(Put32(|es[k].body|), s16, data, p + 8);
    StandsParts(Put16(|es[k].name|), Put16(es[k].size), data, p + 12);
    Get32Put(|Strings(es, k)|, data, p);
    Get32Put(|Bodies(es, k)|, data, p + 4);
    Get32Put(|es[k].body|, data, p + 8);
    Get16Put(|es[k].name|, data, p + 12);
    Get16Put(es[k].size, data, p + 14);
    SliceStands(es[k].name, data, strings + |Strings(es, k)|);
    SliceStands(es[k].body, data, bodies + |Bodies(es, k)|);
  }

  lemma {:induction false} EntriesRead(es: seq<Entry>, n: nat, data: seq<Byte>, index: nat, strings: nat, bodies: nat)
    requires n <= |es| && forall k: nat :: k < n ==> EntryAt(data, index, strings, bodies, k) == Some(es[k])
    ensures Entries(data, index, strings, bodies, n) == Some(es[..n])
  {
    hide EntryAt;
    if n > 0 {
      EntriesRead(es, n - 1, data, index, strings, bodies);
      assert es[..n] == es[..n - 1] + [es[n - 1]];
    }
  }

  lemma HeaderRead(es: seq<Entry>, data: seq<Byte>)
    requires Fits(es) && Stands(Header(es), data, 0)
    ensures Get32(data, 8) == Some(|es|) && Get32(data, 12) == Some(INDEX) && Get32(data, 16) == Some(StringsAt(es))
    ensures Get32(data, 24) == Some(BodiesAt(es)) && Get32(data, 28) == Some(|Bodies(es, |es|)|)
  {
    hide Put16, Put32, Get16, Get32, Stands, Strings, Bodies, StringsAt, BodiesAt, RowFits;
    var h28 := Put32(|Bodies(es, |es|)|);
    var h24 := Put32(BodiesAt(es)) + h28;
    var h20 := Put32(|Strings(es, |es|)|) + h24;
    var h16 := Put32(StringsAt(es)) + h20;
    var h12 := Put32(INDEX) + h16;
    var h8 := Put32(|es|) + h12;
    StandsParts(MAGIC, Put16(1) + (Put16(0) + h8), data, 0);
    StandsParts(Put16(1), Put16(0) + h8, data, 4);
    StandsParts(Put16(0), h8, data, 6);
    StandsParts(Put32(|es|), h12, data, 8);
    StandsParts(Put32(INDEX), h16, data, 12);
    StandsParts(Put32(StringsAt(es)), h20, data, 16);
    StandsParts(Put32(|Strings(es, |es|)|), h24, data, 20);
    StandsParts(Put32(BodiesAt(es)), h28, data, 24);
    Get32Put(|es|, data, 8);
    Get32Put(INDEX, data, 12);
    Get32Put(StringsAt(es), data, 16);
    Get32Put(BodiesAt(es), data, 24);
    Get32Put(|Bodies(es, |es|)|, data, 28);
  }

  /** Reading a pack gives back every entry, its name, its size and exactly its body, in the order
      in which they were packed. */
  lemma UnpackPacked(es: seq<Entry>)
    requires Fits(es)
    ensures Unpacked(Packed(es)) == Some(es)
  {
    hide Stands, Header, Rows, Strings, Bodies, Get32, EntryAt, RowFits;
    var data, n := Packed(es), |es|;
    var end := StringsAt(es) + |Strings(es, n)|;
    var tail := Rows(es, n) + Strings(es, n) + Zeros(BodiesAt(es) - end) + Bodies(es, n);
    assert data == [] + Header(es) + tail;
    StandsIn([], Header(es), tail);
    HeaderRead(es, data);
    forall k: nat | k < n ensures EntryAt(data, INDEX, StringsAt(es), BodiesAt(es), k) == Some(es[k]) {
      EntryPacked(es, k);
    }
    EntriesRead(es, n, data, INDEX, StringsAt(es), BodiesAt(es));
    assert es[..n] == es;
  }

  /** Each entry is found in the pack. */
  lemma EntryPacked(es: seq<Entry>, k: nat)
    requires Fits(es) && k < |es|
    ensures EntryAt(Packed(es), INDEX, StringsAt(es), BodiesAt(es), k) == Some(es[k])
  {
    hide Stands, Header, Rows, Strings, Bodies, EntryAt, RowFits;
    var data, n := Packed(es), |es|;
    var end := StringsAt(es) + |Strings(es, n)|;
    var gap := Zeros(BodiesAt(es) - end);
    RowStands(es, n, k);
    StandsAfter(Header(es), Row(es, k), Rows(es, n), 16 * k);
    StandsLonger(Row(es, k), Header(es) + Rows(es, n), Strings(es, n) + gap + Bodies(es, n), INDEX + 16 * k);
    assert data == Header(es) + Rows(es, n) + (Strings(es, n) + gap + Bodies(es, n));
    NameStands(es, n, k);
    StandsAfter(Header(es) + Rows(es, n), es[k].name, Strings(es, n), |Strings(es, k)|);
    StandsLonger(es[k].name, Header(es) + Rows(es, n) + Strings(es, n), gap + Bodies(es, n),
                 StringsAt(es) + |Strings(es, k)|);
    assert data == Header(es) + Rows(es, n) + Strings(es, n) + (gap + Bodies(es, n));
    BodyStands(es, n, k);
    StandsAfter(Header(es) + Rows(es, n) + Strings(es, n) + gap, es[k].body, Bodies(es, n), |Bodies(es, k)|);
    RowRead(es, k, data, INDEX, StringsAt(es), BodiesAt(es));
  }

  // -------------------------------------------------------------------- writing a pack

  /** Byte by byte, a start of a name before the name. */
  predicate NameLess(a: seq<Byte>, b: seq<Byte>) {
    if a == [] then b != []
    else b != [] && (a[0] < b[0] || (a[0] == b[0] && NameLess(a[1..], b[1..])))
  }

  /** By name and then by size. */
  predicate Before(a: Icon, b: Icon) {
    var x, y := UicNames.Utf8(a.name), UicNames.Utf8(b.name);
    NameLess(x, y) || (x == y && a.size < b.size)
  }

  lemma {:induction false} NameLessTotal(a: seq<Byte>, b: seq<Byte>)
    ensures NameLess(a, b) || a == b || NameLess(b, a)
    ensures !(NameLess(a, b) && NameLess(b, a)) && !NameLess(a, a)
  {
    if a != [] {
      NameLessTotal(a[1..], a[1..]);
      if b != [] {
        NameLessTotal(a[1..], b[1..]);
        assert a == [a[0]] + a[1..] && b == [b[0]] + b[1..];
      }
    }
  }

  /** At k a name first differs from one that comes after it, by a lower byte or by its end. */
  ghost predicate LowerAt(a: seq<Byte>, b: seq<Byte>, k: nat) {
    k <= |a| && k < |b| && a[..k] == b[..k] && (k < |a| ==> a[k] < b[k])
  }

  lemma LowerNext(a: seq<Byte>, b: seq<Byte>, k: nat)
    requires a != [] && b != []
    ensures LowerAt(a, b, k + 1) <==> a[0] == b[0] && LowerAt(a[1..], b[1..], k)
  {
    if k + 1 <= |a| && k + 1 < |b| {
      assert a[..k + 1] == [a[0]] + a[1..][..k] && b[..k + 1] == [b[0]] + b[1..][..k];
    }
  }

  lemma {:induction false} NameLessIs(a: seq<Byte>, b: seq<Byte>)
    ensures NameLess(a, b) <==> exists k: nat :: LowerAt(a, b, k)
  {
    if a == [] || b == [] || a[0] < b[0] {
      assert b != [] ==> LowerAt(a, b, 0);
    } else {
      NameLessIs(a[1..], b[1..]);
      if k: nat :| LowerAt(a, b, k) {
        assert k > 0;
        LowerNext(a, b, k - 1);
      }
      if a[0] == b[0] {
        if k: nat :| LowerAt(a[1..], b[1..], k) {
          LowerNext(a, b, k);
        }
      }
    }
  }

  lemma {:induction false} NameLessTransitive(a: seq<Byte>, b: seq<Byte>, c: seq<Byte>)
    requires NameLess(a, b) && NameLess(b, c)
    ensures NameLess(a, c)
  {
    if a != [] && a[0] == b[0] == c[0] {
      NameLessTransitive(a[1..], b[1..], c[1..]);
    }
  }

  lemma NotBeforeTransitive(a: Icon, b: Icon, c: Icon)
    requires !Before(b, a) && !Before(c, b)
    ensures !Before(c, a)
  {
    hide NameLess;
    var x, y, z := UicNames.Utf8(a.name), UicNames.Utf8(b.name), UicNames.Utf8(c.name);
    NameLessTotal(x, y);
    NameLessTotal(y, z);
    NameLessTotal(x, z);
    if NameLess(x, y) && NameLess(y, z) {
      NameLessTransitive(x, y, z);
    }
  }

  ghost predicate InOrder(icons: seq<Icon>) { forall i, j :: 0 <= i < j < |icons| ==> !Before(icons[j], icons[i]) }

  /** An icon put in after all that are not after it. */
  function Insert(icons: seq<Icon>, x: Icon): (r: seq<Icon>)
    ensures |r| == |icons| + 1
  {
    if icons == [] || !Before(x, icons[|icons| - 1]) then icons + [x]
    else Insert(icons[..|icons| - 1], x) + [icons[|icons| - 1]]
  }

  function SortIcons(icons: seq<Icon>): (r: seq<Icon>)
    ensures |r| == |icons|
  {
    if icons == [] then [] else Insert(SortIcons(icons[..|icons| - 1]), icons[|icons| - 1])
  }

  lemma {:induction false} InsertMembers(icons: seq<Icon>, x: Icon)
    ensures multiset(Insert(icons, x)) == multiset(icons) + multiset{x}
    ensures forall i :: 0 <= i < |Insert(icons, x)| ==> Insert(icons, x)[i] in icons || Insert(icons, x)[i] == x
  {
    hide Before;
    var n := |icons| - 1;
    if icons != [] && Before(x, icons[n]) {
      InsertMembers(icons[..n], x);
      assert icons == icons[..n] + [icons[n]];
    }
  }

  lemma {:induction false} InsertFacts(icons: seq<Icon>, x: Icon)
    requires InOrder(icons)
    ensures InOrder(Insert(icons, x))
  {
    hide Before;
    var n := |icons| - 1;
    if icons == [] {
      assert Insert(icons, x) == [x];
    } else if !Before(x, icons[n]) {
      forall i | 0 <= i <= n ensures !Before(x, icons[i]) {
        if i < n {
          NotBeforeTransitive(icons[i], icons[n], x);
        }
      }
    } else {
      var front, last := icons[..n], icons[n];
      InsertFacts(front, x);
      InsertMembers(front, x);
      var r := Insert(front, x);
      BeforeNotAfter(x, last);
      forall i | 0 <= i < |r| ensures !Before(last, r[i]) {
        if r[i] in front {
          var k :| 0 <= k < n && front[k] == r[i];
          assert !Before(icons[n], icons[k]);
        }
      }
    }
  }

  lemma BeforeNotAfter(a: Icon, b: Icon)
    requires Before(a, b)
    ensures !Before(b, a)
  {
    NameLessTotal(UicNames.Utf8(a.name), UicNames.Utf8(b.name));
  }

  /** The icons in order, all of them. */
  lemma {:induction false} SortFacts(icons: seq<Icon>)
    ensures InOrder(SortIcons(icons)) && multiset(SortIcons(icons)) == multiset(icons)
  {
    hide Insert, Before;
    if icons != [] {
      var n := |icons| - 1;
      SortFacts(icons[..n]);
      InsertFacts(SortIcons(icons[..n]), icons[n]);
      InsertMembers(SortIcons(icons[..n]), icons[n]);
      assert icons == icons[..n] + [icons[n]];
    }
  }

  /** Of two icons in the sorted list the one that comes first has the name whose bytes come first,
      or the same name and no larger size. */
  lemma SortedByName(icons: seq<Icon>, i: nat, j: nat)
    requires i < j < |icons|
    ensures var a, b := SortIcons(icons)[i], SortIcons(icons)[j];
      var x, y := UicNames.Utf8(a.name), UicNames.Utf8(b.name);
      if x == y then a.size <= b.size else exists k: nat :: LowerAt(x, y, k)
  {
    hide NameLess, LowerAt, UicNames.Utf8;
    var a, b := SortIcons(icons)[i], SortIcons(icons)[j];
    var x, y := UicNames.Utf8(a.name), UicNames.Utf8(b.name);
    SortFacts(icons);
    assert !Before(b, a);
    NameLessTotal(x, y);
    NameLessIs(x, y);
  }

  /** The icons of one name and size, in order. */
  ghost function Alike(icons: seq<Icon>, name: UicNames.Text, size: nat): seq<Icon> {
    if icons == [] then []
    else
      var last := icons[|icons| - 1];
      Alike(icons[..|icons| - 1], name, size) + if last.name == name && last.size == size then [last] else []
  }

  lemma {:induction false} InsertLast(icons: seq<Icon>, x: Icon, name: UicNames.Text, size: nat)
    ensures Alike(Insert(icons, x), name, size) == Alike(icons + [x], name, size)
  {
    hide Before, Alike;
    var n := |icons| - 1;
    if icons != [] && Before(x, icons[n]) {
      var front, last := icons[..n], icons[n];
      InsertLast(front, x, name, size);
      AlikeMore(Insert(front, x), last, name, size);
      AlikeMore(front, x, name, size);
      AlikeMore(icons, x, name, size);
      AlikeMore(front, last, name, size);
      assert icons == front + [last];
      NotBoth(x, last);
    }
  }

  lemma AlikeMore(icons: seq<Icon>, x: Icon, name: UicNames.Text, size: nat)
    ensures Alike(icons + [x], name, size) ==
      Alike(icons, name, size) + if x.name == name && x.size == size then [x] else []
  {
    assert (icons + [x])[..|icons|] == icons;
  }

  lemma NotBoth(a: Icon, b: Icon)
    requires Before(a, b)
    ensures a.name != b.name || a.size != b.size
  {
    NameLessTotal(UicNames.Utf8(a.name), UicNames.Utf8(b.name));
  }

  /** The sort leaves icons of one name and size in the order they were given in. */
  lemma {:induction false} SortStable(icons: seq<Icon>, name: UicNames.Text, size: nat)
    ensures Alike(SortIcons(icons), name, size) == Alike(icons, name, size)
  {
    if icons != [] {
      var n := |icons| - 1;
      var front := SortIcons(icons[..n]);
      SortStable(icons[..n], name, size);
      InsertLast(front, icons[n], name, size);
      AlikeMore(front, icons[n], name, size);
    }
  }

  /** The fraction bits of an icon are those given, or the most that fit. */
  ghost predicate Chosen(i: Icon, f: nat) {
    if i.frac.Some? then f == i.frac.value
    else Largest(i.commands, f)
  }

  /** With the fraction bits that are chosen, the coordinates are written whenever any number of
      fraction bits up to 14 lets them be written. */
  lemma WritesWhenAnyDoes(i: Icon, f: nat, g: nat)
    requires i.frac.None? && Chosen(i, f) && g <= 14 && AllQuantise(i.commands, g)
    requires forall k :: 0 <= k < |i.commands| ==> Shaped(i.commands[k])
    ensures Quantities(i.commands, f).Some?
  {
    hide AllQuantise, Quantities;
    ChosenWrites(i.commands, f, g);
    FittingQuantities(i.commands, i.commands, f);
  }

  lemma ChosenOnce(i: Icon, f: nat, g: nat)
    requires Chosen(i, f) && Chosen(i, g)
    ensures f == g
  {
    hide AllFit;
  }

  /** Bodies that are given, by name and size; one that is empty counts for none. */
  type Given = map<(UicNames.Text, nat), seq<Byte>>

  predicate IsGiven(i: Icon, given: Given) { (i.name, i.size) in given && given[(i.name, i.size)] != [] }

  /** The body of an icon: the one that is given, or what is written of the icon. */
  ghost predicate IsBody(i: Icon, given: Given, b: seq<Byte>) {
    if IsGiven(i, given) then b == given[(i.name, i.size)]
    else exists f: nat :: Chosen(i, f) && HeadFits(i, f) && Quantities(i.commands, f).Some? && b == BodyOf(i, f)
  }

  /** An entry is its icon's name and size, and the icon's body. */
  ghost predicate IsEntry(i: Icon, given: Given, e: Entry) {
    UicNames.Encodable(i.name) && e.name == UicNames.Utf8(i.name) && e.size == i.size && IsBody(i, given, e.body)
  }

  /** The name cannot be encoded, or no body can be written. */
  ghost predicate NoEntry(i: Icon, given: Given) {
    || !UicNames.Encodable(i.name)
    || (!IsGiven(i, given)
        && exists f: nat :: Chosen(i, f) && !(HeadFits(i, f) && Quantities(i.commands, f).Some?))
  }

  lemma NoEntryIsNone(i: Icon, given: Given, e: Entry)
    requires NoEntry(i, given)
    ensures !IsEntry(i, given, e)
  {
    hide HeadFits, Quantities, BodyOf, Chosen;
    if IsEntry(i, given, e) {
      var f: nat :| Chosen(i, f) && !(HeadFits(i, f) && Quantities(i.commands, f).Some?);
      var g: nat :| Chosen(i, g) && HeadFits(i, g) && Quantities(i.commands, g).Some? && e.body == BodyOf(i, g);
      ChosenOnce(i, f, g);
    }
  }

  /** An icon has one entry only. */
  lemma EntryOnce(i: Icon, given: Given, a: Entry, b: Entry)
    requires IsEntry(i, given, a) && IsEntry(i, given, b)
    ensures a == b
  {
    hide HeadFits, Quantities, BodyOf, Chosen;
    if !IsGiven(i, given) {
      var f: nat :| Chosen(i, f) && HeadFits(i, f) && Quantities(i.commands, f).Some? && a.body == BodyOf(i, f);
      var g: nat :| Chosen(i, g) && HeadFits(i, g) && Quantities(i.commands, g).Some? && b.body == BodyOf(i, g);
      ChosenOnce(i, f, g);
    }
  }

  lemma IsChosen(i: Icon, f: nat)
    requires i.frac.Some? ==> f == i.frac.value
    requires i.frac.None? ==> Largest(i.commands, f)
    ensures Chosen(i, f)
  {
  }

  ghost predicate AreEntries(icons: seq<Icon>, given: Given, es: seq<Entry>) {
    |icons| == |es| && forall k :: 0 <= k < |es| ==> IsEntry(icons[k], given, es[k])
  }

  lemma EntriesOnce(icons: seq<Icon>, given: Given, a: seq<Entry>, b: seq<Entry>)
    requires AreEntries(icons, given, a) && AreEntries(icons, given, b)
    ensures a == b
  {
    hide IsEntry;
    forall k | 0 <= k < |a| ensures a[k] == b[k] {
      EntryOnce(icons[k], given, a[k], b[k]);
    }
  }

  method EntryOf(i: Icon, given: Given) returns (e: Option<Entry>)
    ensures e.Some? ==> IsEntry(i, given, e.value)
    ensures e.None? ==> NoEntry(i, given)
  {
    hide HeadFits, Quantities, BodyOf, Chosen;
    if exists k :: 0 <= k < |i.name| && UicNames.Surrogate(i.name[k]) {
      return None;
    }
    var name := UicNames.Utf8(i.name);
    if IsGiven(i, given) {
      return Some(Entry(name, i.size, given[(i.name, i.size)]));
    }
    var b, f := Body(i);
    IsChosen(i, f);
    e := if b.None? then None else Some(Entry(name, i.size, b.value));
  }

  /** There are entries that fit, and there is a pack exactly then. */
  ghost predicate Packable(icons: seq<Icon>, given: Given) {
    exists es :: AreEntries(icons, given, es) && Fits(es)
  }

  lemma NotPackable(icons: seq<Icon>, given: Given, k: nat)
    requires k < |icons| && NoEntry(icons[k], given)
    ensures !Packable(icons, given)
  {
    hide IsEntry, NoEntry, Fits;
    forall es | AreEntries(icons, given, es) ensures false {
      NoEntryIsNone(icons[k], given, es[k]);
    }
  }

  lemma FitsOrNot(icons: seq<Icon>, given: Given, es: seq<Entry>)
    requires AreEntries(icons, given, es)
    ensures Packable(icons, given) <==> Fits(es)
  {
    hide IsEntry, Fits;
    if Packable(icons, given) {
      var more :| AreEntries(icons, given, more) && Fits(more);
      EntriesOnce(icons, given, es, more);
    }
  }

  /** The icons as they are read back: in order, by name, with their bodies. */
  ghost predicate ReadAs(icons: seq<Icon>, given: Given, rs: seq<Read>) {
    && |rs| == |icons|
    && forall k :: 0 <= k < |rs| ==>
         rs[k].name == icons[k].name && rs[k].size == icons[k].size && IsBody(icons[k], given, rs[k].body)
  }

  lemma {:induction false} EntriesNamed(icons: seq<Icon>, given: Given, es: seq<Entry>)
    requires AreEntries(icons, given, es)
    ensures Named(es).Some? && ReadAs(icons, given, Named(es).value)
    decreases |es|
  {
    hide IsBody, UicNames.Utf8, UicNames.Decoded;
    if es != [] {
      var n := |es| - 1;
      EntriesNamed(icons[..n], given, es[..n]);
      assert IsEntry(icons[n], given, es[n]);
      UicNames.DecodedUtf8(icons[n].name);
    }
  }

  /** Whose body is not given shows all its commands when it is read back. */
  ghost predicate AllShow(icons: seq<Icon>, given: Given, rs: seq<Read>) {
    |rs| == |icons| && forall k :: 0 <= k < |rs| ==> IsGiven(icons[k], given) || SomeShows(rs[k].body, icons[k])
  }

  ghost predicate SomeShows(b: seq<Byte>, i: Icon) { exists f: nat :: Chosen(i, f) && Shows(b, i, f) }

  lemma ReadShows(icons: seq<Icon>, given: Given, rs: seq<Read>)
    requires ReadAs(icons, given, rs)
    ensures AllShow(icons, given, rs)
  {
    hide Chosen, Shows, HeadFits, Quantities, BodyOf;
    forall k | 0 <= k < |rs| && !IsGiven(icons[k], given) ensures SomeShows(rs[k].body, icons[k]) {
      var i := icons[k];
      var f: nat :| Chosen(i, f) && HeadFits(i, f) && Quantities(i.commands, f).Some? && rs[k].body == BodyOf(i, f);
      BodyShows(i, f);
    }
  }

  /** A pack of icons, with the bodies that are given for some; none when a name cannot be encoded, a
      body cannot be written or a number does not fit its field. */
  method Pack(icons: seq<Icon>, given: Given) returns (r: Option<seq<Byte>>, ghost es: seq<Entry>)
    ensures r.Some? <==> Packable(SortIcons(icons), given)
    ensures r.Some? ==> AreEntries(SortIcons(icons), given, es) && Fits(es) && r.value == Packed(es)
    ensures r.Some? ==>
      && ReadBack(r.value).Some? && ReadAs(SortIcons(icons), given, ReadBack(r.value).value)
      && AllShow(SortIcons(icons), given, ReadBack(r.value).value)
  {
    hide AllShow, Before, IsEntry, NoEntry, Fits, SortIcons, Packable, ReadAs;
    var sorted := SortIcons(icons);
    var entries: seq<Entry> := [];
    for k := 0 to |sorted|
      invariant AreEntries(sorted[..k], given, entries)
    {
      var e := EntryOf(sorted[k], given);
      if e.None? {
        NotPackable(sorted, given, k);
        es := entries;
        return None, es;
      }
      entries := entries + [e.value];
    }
    assert sorted[..|sorted|] == sorted;
    es := entries;
    FitsOrNot(sorted, given, es);
    r := Write(entries);
    if r.Some? {
      UnpackPacked(entries);
      EntriesNamed(sorted, given, entries);
      ReadShows(sorted, given, ReadBack(r.value).value);
    }
  }

  /** The layout, entry by entry. */
  method Write(es: seq<Entry>) returns (r: Option<seq<Byte>>)
    ensures r.Some? <==> Fits(es)
    ensures r.Some? ==> r.value == Packed(es)
  {
    hide Put16, Put32, Header, Padding, Zeros;
    var strings: seq<Byte>, data: seq<Byte>, index: seq<Byte> := [], [], [];
    r := None;
    for k := 0 to |es|
      invariant strings == Strings(es, k) && data == Bodies(es, k)
      invariant forall j: nat :: j < k ==> RowFits(es, j)
      invariant index == Rows(es, k)
    {
      var e := es[k];
      if |strings| >= U32 || |data| >= U32 || |e.body| >= U32 || |e.name| >= U16 || e.size >= U16 {
        assert !RowFits(es, k);
        return;
      }
      index := index + (Put32(|strings|) + (Put32(|data|) + (Put32(|e.body|) + (Put16(|e.name|) + Put16(e.size)))));
      strings := strings + e.name;
      data := data + (e.body + Zeros(Padding(|e.body|)));
    }
    var stringsAt := INDEX + 16 * |es|;
    var dataAt := stringsAt + |strings| + Padding(stringsAt + |strings|);
    if |es| >= U32 || stringsAt >= U32 || |strings| >= U32 || dataAt >= U32 || |data| >= U32 {
      return;
    }
    r := Some(Header(es) + index + strings + Zeros(dataAt - stringsAt - |strings|) + data);
  }
}
