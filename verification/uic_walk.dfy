/** Icon bodies written, and walked through again command by command (body and dump of
    lib/ugfx/tools/uic.py). */
module UicWalk {
  import opened Wrappers
  import opened UicBytes
  import opened UicBody

  ghost predicate Writable(c: Command<int>) {
    && Shaped(c)
    && (c.Path? ==> forall k :: 0 <= k < |c.at| ==> InRange(c.at[k]))
    && (c.Stroke? ==> InRange(c.width))
  }

  lemma QuantiseRange(v: real, f: nat)
    ensures Quantise(v, f).Some? ==> InRange(Quantise(v, f).value)
  {
    hide Scaled;
  }

  lemma {:induction false} QuantiseInRange(vs: seq<real>, f: nat)
    ensures QuantiseAll(vs, f).Some? ==>
      |QuantiseAll(vs, f).value| == |vs| && forall k :: 0 <= k < |vs| ==> InRange(QuantiseAll(vs, f).value[k])
  {
    hide Scaled;
    if vs != [] {
      QuantiseInRange(vs[..|vs| - 1], f);
    }
  }

  lemma QuantisedWritable(c: Command<real>, f: nat)
    ensures Quantised(c, f).Some? ==> Writable(Quantised(c, f).value) && Shaped(c)
  {
    hide Scaled;
    if c.Path? {
      QuantiseInRange(c.at, f);
    }
  }

  // ---------------------------------------------------------------------- writing

  ghost function PutAll(qs: seq<int>): (r: seq<Byte>)
    requires forall k :: 0 <= k < |qs| ==> InRange(qs[k])
    ensures |r| == 2 * |qs|
  {
    if qs == [] then [] else PutI16(qs[0]) + PutAll(qs[1..])
  }

  ghost function Encoded(c: Command<int>): seq<Byte>
    requires Writable(c)
  {
    match c
    case Path(op, at) => [Code(op)] + PutAll(at)
    case Close => [CLOSE]
    case Fill(slot, rule) => [FILL, slot, rule]
    case Stroke(slot, join, cap, width) => [STROKE, slot, join + 16 * cap] + PutI16(width)
    case Opacity(alpha) => [OPACITY, alpha]
  }

  /** The byte a command starts with and how many bytes it has, by its kind. */
  lemma FirstByte(c: Command<int>)
    requires Writable(c)
    ensures |Encoded(c)| == match c
      case Path(op, _) => (match op case Move => 5 case Line => 5 case Quad => 9 case Cubic => 13)
      case Close => 1
      case Fill(_, _) => 3
      case Stroke(_, _, _, _) => 5
      case Opacity(_) => 2
    ensures Encoded(c)[0] == match c
      case Path(op, _) => (match op case Move => 1 case Line => 2 case Quad => 3 case Cubic => 4)
      case Close => 5
      case Fill(_, _) => 0x10
      case Stroke(_, _, _, _) => 0x11
      case Opacity(_) => 0x20
  {
    hide PutI16, PutAll;
  }

  ghost function EncodedAll(cs: seq<Command<int>>): seq<Byte>
    requires forall k :: 0 <= k < |cs| ==> Writable(cs[k])
  {
    if cs == [] then [] else Encoded(cs[0]) + EncodedAll(cs[1..])
  }

  lemma {:induction false} EncodedMore(cs: seq<Command<int>>, c: Command<int>)
    requires Writable(c) && forall k :: 0 <= k < |cs| ==> Writable(cs[k])
    ensures EncodedAll(cs + [c]) == EncodedAll(cs) + Encoded(c)
  {
    hide Encoded, Writable;
    if cs != [] {
      assert (cs + [c])[1..] == cs[1..] + [c];
      EncodedMore(cs[1..], c);
    } else {
      assert [c][1..] == [];
    }
  }

  lemma {:induction false} PutMore(qs: seq<int>, q: int)
    requires InRange(q) && forall k :: 0 <= k < |qs| ==> InRange(qs[k])
    ensures PutAll(qs + [q]) == PutAll(qs) + PutI16(q)
  {
    hide PutI16;
    if qs != [] {
      assert (qs + [q])[1..] == qs[1..] + [q];
      PutMore(qs[1..], q);
    } else {
      assert [q][1..] == [];
    }
  }

  method WriteCommand(c: Command<real>, f: nat) returns (r: Option<seq<Byte>>)
    ensures r.Some? <==> Quantised(c, f).Some?
    ensures r.Some? ==> Writable(Quantised(c, f).value) && r.value == Encoded(Quantised(c, f).value)
    ensures r.Some? ==> CommandStandsFor(Quantised(c, f).value, c, f)
  {
    if Quantised(c, f).Some? {
      QuantisedNearest(c, f, Quantised(c, f).value);
    }
    hide CommandStandsFor, Quantise, PutI16, Writable, InRange;
    QuantisedWritable(c, f);
    match c
    case Path(op, at) =>
      var qs := WriteNumbers(at, f);
      if qs.None? || |at| != Coords(op) {
        QuantiseInRange(at, f);
        return None;
      }
      QuantiseInRange(at, f);
      r := Some([Code(op)] + qs.value);
    case Close => r := Some([CLOSE]);
    case Fill(slot, rule) => r := Some([FILL, slot, rule]);
    case Stroke(slot, join, cap, width) =>
      var q := Quantise(width, f);
      if q.None? {
        return None;
      }
      QuantiseRange(width, f);
      r := Some([STROKE, slot, join + 16 * cap] + PutI16(q.value));
    case Opacity(alpha) => r := Some([OPACITY, alpha]);
  }

  method WriteNumbers(vs: seq<real>, f: nat) returns (r: Option<seq<Byte>>)
    ensures r.Some? <==> QuantiseAll(vs, f).Some?
    ensures r.Some? ==> (forall k :: 0 <= k < |QuantiseAll(vs, f).value| ==> InRange(QuantiseAll(vs, f).value[k]))
                        && r.value == PutAll(QuantiseAll(vs, f).value)
  {
    hide PutI16, Scaled;
    var out: seq<Byte> := [];
    for k := 0 to |vs|
      invariant QuantiseAll(vs[..k], f).Some?
      invariant forall j :: 0 <= j < |QuantiseAll(vs[..k], f).value| ==> InRange(QuantiseAll(vs[..k], f).value[j])
      invariant out == PutAll(QuantiseAll(vs[..k], f).value)
    {
      assert vs[..k + 1][..k] == vs[..k];
      var q := Quantise(vs[k], f);
      if q.None? {
        StaysUnfit(vs, f, k + 1);
        return None;
      }
      PutMore(QuantiseAll(vs[..k], f).value, q.value);
      out := out + PutI16(q.value);
    }
    assert vs[..|vs|] == vs;
    r := Some(out);
  }

  lemma {:induction false} StaysUnfit(vs: seq<real>, f: nat, k: nat)
    requires k <= |vs| && QuantiseAll(vs[..k], f).None?
    ensures QuantiseAll(vs, f).None?
    decreases |vs|
  {
    hide Quantise;
    if k < |vs| {
      assert vs[..|vs| - 1][..k] == vs[..k];
      StaysUnfit(vs[..|vs| - 1], f, k);
    } else {
      assert vs[..k] == vs;
    }
  }

  // ---------------------------------------------------------------------- walking

  /** What the walk finds: a command, a byte that is none, or the end. */
  datatype Item = Known(c: Command<int>) | Unknown(code: Byte) | End

  function Named(code: Byte): Option<Op> {
    if code == 1 then Some(Move) else if code == 2 then Some(Line) else if code == 3 then Some(Quad)
    else if code == 4 then Some(Cubic) else None
  }

  function GetAll(b: seq<Byte>, p: nat, n: nat): (r: Option<seq<int>>)
    ensures r.Some? ==> |r.value| == n
    decreases n
  {
    if n == 0 then Some([])
    else
      match (GetI16(b, p), GetAll(b, p + 2, n - 1))
      case (Some(q), Some(qs)) => Some([q] + qs)
      case _ => None
  }

  /** The item at p, and where the next is; none when the bytes end inside of it. */
  function ItemAt(b: seq<Byte>, p: nat): (r: Option<(Item, nat)>)
    requires p < |b|
    ensures r.Some? ==> p < r.value.1
  {
    var code := b[p];
    if Named(code).Some? then
      var op := Named(code).value;
      match GetAll(b, p + 1, Coords(op))
      case None => None
      case Some(qs) => Some((Known(Path(op, qs)), p + 1 + 2 * Coords(op)))
    else if code == FILL then
      if p + 2 >= |b| then None else Some((Known(Fill(b[p + 1], b[p + 2])), p + 3))
    else if code == STROKE then
      match GetI16(b, p + 3)
      case None => None
      case Some(w) => Some((Known(Stroke(b[p + 1], b[p + 2] % 16, b[p + 2] / 16, w)), p + 5))
    else if code == OPACITY then
      if p + 1 >= |b| then None else Some((Known(Opacity(b[p + 1])), p + 2))
    else if code == CLOSE then Some((Known(Close), p + 1))
    else if code == END then Some((End, p + 1))
    else Some((Unknown(code), p + 1))
  }

  /** A byte that starts no command is passed over by itself. */
  lemma UnknownIs(b: seq<Byte>, p: nat)
    requires p < |b|
    ensures ItemAt(b, p) == Some((Unknown(b[p]), p + 1)) <==>
      b[p] > 5 && b[p] != 0x10 && b[p] != 0x11 && b[p] != 0x20
  {
    hide GetI16, GetAll;
  }

  /** All items from p to the end, or to the end of the bytes. */
  function Walked(b: seq<Byte>, p: nat): Option<seq<Item>>
    decreases |b| - p
  {
    if p >= |b| then Some([])
    else
      match ItemAt(b, p)
      case None => None
      case Some((x, q)) =>
        if x.End? then Some([x])
        else
          match Walked(b, q)
          case None => None
          case Some(xs) => Some([x] + xs)
  }

  method Walk(b: seq<Byte>, start: nat) returns (r: Option<seq<Item>>)
    ensures r == Walked(b, start)
  {
    var xs: seq<Item> := [];
    var p := start;
    assert forall rest: seq<Item> :: [] + rest == rest;
    while p < |b|
      invariant Walked(b, start) == match Walked(b, p) case None => None case Some(rest) => Some(xs + rest)
      decreases |b| - p
    {
      var x := ItemAt(b, p);
      if x.None? {
        return None;
      }
      var (item, next) := x.value;
      ghost var before := xs;
      xs := xs + [item];
      assert forall rest: seq<Item> :: before + ([item] + rest) == xs + rest;
      if item.End? {
        assert before + [item] == xs;
        return Some(xs);
      }
      p := next;
    }
    assert xs + [] == xs;
    r := Some(xs);
  }

  lemma {:induction false} GetAllPut(qs: seq<int>, b: seq<Byte>, p: nat)
    requires (forall k :: 0 <= k < |qs| ==> InRange(qs[k])) && Stands(PutAll(qs), b, p)
    ensures GetAll(b, p, |qs|) == Some(qs)
  {
    if qs != [] {
      hide PutI16, GetI16;
      StandsParts(PutI16(qs[0]), PutAll(qs[1..]), b, p);
      GetI16Put(qs[0], b, p);
      GetAllPut(qs[1..], b, p + 2);
      assert qs == [qs[0]] + qs[1..];
    }
  }

  /** A command that is written is found again, and the walk goes on after it. */
  lemma ItemOfEncoded(c: Command<int>, b: seq<Byte>, p: nat)
    requires Writable(c) && Stands(Encoded(c), b, p)
    ensures p < |b| && ItemAt(b, p) == Some((Known(c), p + |Encoded(c)|))
  {
    hide PutI16, GetI16, GetAll, PutAll;
    StandsAt(Encoded(c), b, p, 0);
    match c
    case Path(op, at) =>
      StandsParts([Code(op)], PutAll(at), b, p);
      GetAllPut(at, b, p + 1);
    case Fill(_, _) =>
      StandsAt(Encoded(c), b, p, 1);
      StandsAt(Encoded(c), b, p, 2);
    case Stroke(slot, join, cap, width) =>
      StandsAt(Encoded(c), b, p, 1);
      StandsAt(Encoded(c), b, p, 2);
      StandsParts([STROKE, slot, join + 16 * cap], PutI16(width), b, p);
      GetI16Put(width, b, p + 3);
    case Opacity(_) =>
      StandsAt(Encoded(c), b, p, 1);
    case Close =>
  }

  lemma EndAt(b: seq<Byte>, p: nat)
    requires p < |b| && b[p] == END
    ensures ItemAt(b, p) == Some((End, p + 1))
  {
  }

  /** The commands that are found. */
  function Found(cs: seq<Command<int>>): seq<Item> {
    if cs == [] then [End] else [Known(cs[0])] + Found(cs[1..])
  }

  lemma {:induction false} FoundItems(cs: seq<Command<int>>)
    ensures |Found(cs)| == |cs| + 1 && Found(cs)[|cs|] == End
    ensures forall k :: 0 <= k < |cs| ==> Found(cs)[k] == Known(cs[k])
  {
    if cs != [] {
      FoundItems(cs[1..]);
    }
  }

  /** The walk over what was written recovers the commands. */
  lemma {:induction false} WalkRecovers(cs: seq<Command<int>>, b: seq<Byte>, p: nat)
    requires (forall k :: 0 <= k < |cs| ==> Writable(cs[k])) && Stands(EncodedAll(cs) + [END], b, p)
    ensures Walked(b, p) == Some(Found(cs))
    decreases |cs|
  {
    hide Encoded, Writable, ItemAt;
    if cs == [] {
      StandsAt([END], b, p, 0);
      assert [] + [END] == [END];
      EndAt(b, p);
    } else {
      var rest := EncodedAll(cs[1..]) + [END];
      assert EncodedAll(cs) + [END] == Encoded(cs[0]) + rest;
      StandsParts(Encoded(cs[0]), rest, b, p);
      ItemOfEncoded(cs[0], b, p);
      WalkRecovers(cs[1..], b, p + |Encoded(cs[0])|);
    }
  }
}
