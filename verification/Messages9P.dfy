/** 9P2000 messages and stat records: the encoder writes exactly the size it computes, the in-place
    decoder gives the message back, and what it leaves encodes to the same bytes exactly when no string
    holds a NUL. */
module Messages9P {
  import opened Wrappers
  import opened Words
  import opened Wire

  const MAXWELEM: nat := 16
  const HEADER: nat := 7

  /** head: the fixed fields. unit: the fields of one element of a list counted by the last fixed
      field. raw: whether bytes counted by that field follow. */
  datatype Layout = Layout(head: seq<Kind>, unit: seq<Kind>, raw: bool)

  const QID: seq<Kind> := [U(1), U(4), U(4), U(4)]

  function LayoutOf(typ: nat): Option<Layout> {
    if typ == 100 || typ == 101 then Some(Layout([U(4), Str], [], false))
    else if typ == 102 then Some(Layout([U(4), Str, Str], [], false))
    else if typ == 103 || typ == 105 then Some(Layout(QID, [], false))
    else if typ == 104 then Some(Layout([U(4), U(4), Str, Str], [], false))
    else if typ == 107 then Some(Layout([Str], [], false))
    else if typ == 108 then Some(Layout([U(2)], [], false))
    else if typ == 110 then Some(Layout([U(4), U(4), U(2)], [Str], false))
    else if typ == 111 then Some(Layout([U(2)], QID, false))
    else if typ == 112 then Some(Layout([U(4), U(1)], [], false))
    else if typ == 113 || typ == 115 then Some(Layout(QID + [U(4)], [], false))
    else if typ == 114 then Some(Layout([U(4), Str, U(4), U(1)], [], false))
    else if typ == 116 then Some(Layout([U(4), U(4), U(4), U(4)], [], false))
    else if typ == 117 then Some(Layout([U(4)], [], true))
    else if typ == 118 then Some(Layout([U(4), U(4), U(4), U(4)], [], true))
    else if typ == 119 then Some(Layout([U(4)], [], false))
    else if typ == 120 || typ == 122 || typ == 124 then Some(Layout([U(4)], [], false))
    else if typ == 125 then Some(Layout([U(2)], [], true))
    else if typ == 126 then Some(Layout([U(4), U(2)], [], true))
    else if typ == 109 || typ == 121 || typ == 123 || typ == 127 then Some(Layout([], [], false))
    else None
  }

  datatype Msg = Msg(typ: nat, tag: nat, head: seq<Atom>, list: seq<Atom>, raw: Bytes)

  function Repeat(n: nat, unit: seq<Kind>): seq<Kind> {
    if n == 0 then [] else unit + Repeat(n - 1, unit)
  }

  /** The last fixed field, when it is a number. */
  function CountOf(head: seq<Atom>): nat {
    if head != [] && head[|head| - 1].Num? then head[|head| - 1].v else 0
  }

  /** In-range fields of the message's own layout. */
  ghost predicate WellFormed(m: Msg) {
    var lay := LayoutOf(m.typ);
    && lay.Some? && m.typ < 256 && m.tag < 0x1_0000
    && AllFit(m.head) && AllFit(m.list) && Kinds(m.head) == lay.value.head
    && (if lay.value.unit == [] then m.list == []
        else CountOf(m.head) <= MAXWELEM && Kinds(m.list) == Repeat(CountOf(m.head), lay.value.unit))
    && |m.raw| == (if lay.value.raw then CountOf(m.head) else 0)
    && Size(m) < WORD_MOD
  }

  /** sizeS2M. */
  function Size(m: Msg): nat {
    HEADER + SizeOf(m.head) + SizeOf(m.list) + |m.raw|
  }

  function SizeOf(atoms: seq<Atom>): nat {
    if atoms == [] then 0
    else (if atoms[0].Num? then atoms[0].width else 2 + |atoms[0].s|) + SizeOf(atoms[1..])
  }

  lemma {:induction false} SizeExact(atoms: seq<Atom>)
    ensures |EncodeAtoms(atoms)| == SizeOf(atoms)
  {
    if atoms == [] {
      assert EncodeAtoms(atoms) == [];
    } else {
      SizeExact(atoms[1..]);
    }
  }

  /** convS2M. */
  function Encode(m: Msg): Bytes {
    Le(Size(m), 4) + Le(m.typ, 1) + Le(m.tag, 2) + EncodeAtoms(m.head) + EncodeAtoms(m.list) + m.raw
  }

  /** The encoder writes exactly the size it computed. */
  lemma EncodeSize(m: Msg)
    ensures |Encode(m)| == Size(m)
  {
    hide Le;
    SizeExact(m.head);
    SizeExact(m.list);
  }

  // ---- decoding ----

  function ListKinds(lay: Layout, count: nat): Option<seq<Kind>> {
    if lay.unit == [] then Some([]) else if count > MAXWELEM then None else Some(Repeat(count, lay.unit))
  }

  /** What convM2S reads, with the strings taken out of an untouched buffer. */
  function Decode(b: Bytes, n: nat): Option<Msg>
    requires n <= |b|
  {
    if n < HEADER then None
    else
      var size := Machine.Rd(b, 0, 4);
      var lay := LayoutOf(b[4]);
      if size < HEADER || size > n || lay.None? then None
      else
        var d := DecodeBody(b, lay.value, HEADER, size);
        if d.None? then None else Some(Msg(b[4], Machine.Rd(b, 5, 2), d.value.head, d.value.list, d.value.raw))
  }

  datatype Parts = Parts(head: seq<Atom>, list: seq<Atom>, raw: Bytes)

  /** The fields between p and size, which they must fill. */
  function DecodeBody(b: Bytes, lay: Layout, p: nat, size: nat): Option<Parts>
    requires p <= size <= |b|
  {
    var h := PureAtoms(b, p, size, lay.head);
    if h.None? then None
    else
      var count := CountOf(h.value.atoms);
      var ks := ListKinds(lay, count);
      if ks.None? then None
      else
        var t := PureAtoms(b, h.value.next, size, ks.value);
        if t.None? then None
        else
          var q := t.value.next;
          var end := q + if lay.raw then count else 0;
          if end != size then None else Some(Parts(h.value.atoms, t.value.atoms, b[q..end]))
  }

  lemma Slices(m: Msg, b: Bytes)
    requires Encode(m) <= b
    ensures var h, t := |EncodeAtoms(m.head)|, |EncodeAtoms(m.list)|;
      && HEADER + h + t + |m.raw| == |Encode(m)| == Size(m) <= |b|
      && b[0..4] == Le(Size(m), 4) && b[4..5] == Le(m.typ, 1) && b[5..7] == Le(m.tag, 2)
      && b[HEADER..HEADER + h] == EncodeAtoms(m.head) && b[HEADER + h..HEADER + h + t] == EncodeAtoms(m.list)
      && b[HEADER + h + t..Size(m)] == m.raw
  {
    hide Le, EncodeAtoms;
    EncodeSize(m);
    var e := Encode(m);
    var h, t := |EncodeAtoms(m.head)|, |EncodeAtoms(m.list)|;
    assert b[0..4] == e[0..4] == Le(Size(m), 4);
    assert b[4..5] == e[4..5] == Le(m.typ, 1);
    assert b[5..7] == e[5..7] == Le(m.tag, 2);
    assert b[HEADER..HEADER + h] == e[HEADER..HEADER + h] == EncodeAtoms(m.head);
    assert b[HEADER + h..HEADER + h + t] == e[HEADER + h..HEADER + h + t] == EncodeAtoms(m.list);
    assert b[HEADER + h + t..Size(m)] == e[HEADER + h + t..] == m.raw;
  }

  /** Every in-range message comes back, whatever follows it in the buffer. */
  lemma RoundTrip(m: Msg, b: Bytes, n: nat)
    requires WellFormed(m) && Encode(m) <= b && Size(m) <= n <= |b|
    ensures Decode(b, n) == Some(m)
  {
    hide Le, Machine.Rd, EncodeAtoms, PureAtoms, LayoutOf, Kinds, AllFit, Size, Encode;
    Slices(m, b);
    HeaderRead(m, b);
    var h, t := |EncodeAtoms(m.head)|, |EncodeAtoms(m.list)|;
    PureOfEncode(b, HEADER, Size(m), m.head);
    PureOfEncode(b, HEADER + h, Size(m), m.list);
    KindsEmpty();
  }

  lemma KindsEmpty()
    ensures Kinds([]) == []
  {
  }

  lemma HeaderRead(m: Msg, b: Bytes)
    requires WellFormed(m) && |b| >= HEADER
    requires b[0..4] == Le(Size(m), 4) && b[4..5] == Le(m.typ, 1) && b[5..7] == Le(m.tag, 2)
    ensures Machine.Rd(b, 0, 4) == Size(m) && b[4] == m.typ && Machine.Rd(b, 5, 2) == m.tag
  {
    hide Machine.Rd, Size, LayoutOf, AllFit, Kinds, Le, Pow2;
    HeaderBounds();
    ReadLe(b, 0, Size(m), 4);
    ReadLe(b, 5, m.tag, 2);
    LeOne(m.typ);
    assert b[4] == b[4..5][0] == m.typ;
  }

  lemma HeaderBounds()
    ensures WORD_MOD == Pow2(8 * 4) && 0x1_0000 == Pow2(8 * 2)
  {
    Pow2Of32();
  }

  /** The fields the decoder finds are those of the bytes. */
  lemma EncodeDecoded(b: Bytes, n: nat)
    requires n <= |b| && Decode(b, n).Some?
    ensures var m := Decode(b, n).value; WellFormed(m) && Size(m) <= n && Encode(m) == b[..Size(m)]
  {
    hide Le, Machine.Rd, EncodeAtoms, PureAtoms, LayoutOf, Kinds, AllFit;
    var m := Decode(b, n).value;
    var size := Machine.Rd(b, 0, 4);
    var lay := LayoutOf(b[4]).value;
    var h := PureAtoms(b, HEADER, size, lay.head).value;
    EncodeOfPure(b, HEADER, size, lay.head);
    var ks := ListKinds(lay, CountOf(h.atoms)).value;
    EncodeOfPure(b, h.next, size, ks);
    var t := PureAtoms(b, h.next, size, ks).value;
    LeRead(b, 0, 4);
    LeRead(b, 5, 2);
    LeOne(b[4]);
    Pow2Of32();
    EncodeSize(m);
    SixParts(b, h.next, t.next, size);
  }

  lemma SixParts(b: Bytes, p: nat, q: nat, size: nat)
    requires HEADER <= p <= q <= size <= |b|
    ensures b[..size] == b[0..4] + [b[4]] + b[5..7] + b[HEADER..p] + b[p..q] + b[q..size]
  {
  }

  lemma LeOne(v: Byte)
    ensures Le(v, 1) == [v]
  {
    assert Le(v / 256, 0) == [];
  }

  // ---- decoding in place ----

  lemma {:induction false} PureConcat(b: Bytes, p: nat, end: nat, ks: seq<Kind>, ls: seq<Kind>)
    requires p <= end <= |b|
    ensures PureAtoms(b, p, end, ks + ls)
         == match PureAtoms(b, p, end, ks)
            case None => None
            case Some(Run(x, q)) =>
              match PureAtoms(b, q, end, ls)
              case None => None
              case Some(Run(y, r)) => Some(Run(x + y, r))
    decreases |ks|
  {
    hide PureAtom;
    if ks == [] {
      assert ks + ls == ls;
      var y := PureAtoms(b, p, end, ls);
      assert y.Some? ==> [] + y.value.atoms == y.value.atoms;
    } else {
      assert (ks + ls)[1..] == ks[1..] + ls;
      var g := PureAtom(b, p, end, ks[0]);
      if g.Some? {
        PureConcat(b, g.value.next, end, ks[1..], ls);
        var x, all := PureAtoms(b, g.value.next, end, ks[1..]), PureAtoms(b, g.value.next, end, ks[1..] + ls);
        if all.Some? {
          var y := PureAtoms(b, x.value.next, end, ls).value.atoms;
          assert [g.value.atom] + (x.value.atoms + y) == [g.value.atom] + x.value.atoms + y;
        }
      }
    }
  }

  lemma {:induction false} PlaceConcat(b: Bytes, p: nat, end: nat, ks: seq<Kind>, ls: seq<Kind>)
    requires p <= end <= |b|
    ensures PlaceAtoms(b, p, end, ks + ls)
         == match PlaceAtoms(b, p, end, ks)
            case None => None
            case Some(PlacedAll(c, x, q)) =>
              match PlaceAtoms(c, q, end, ls)
              case None => None
              case Some(PlacedAll(d, y, r)) => Some(PlacedAll(d, x + y, r))
    decreases |ks|
  {
    hide PlaceAtom;
    if ks == [] {
      assert ks + ls == ls;
      var y := PlaceAtoms(b, p, end, ls);
      assert y.Some? ==> [] + y.value.slots == y.value.slots;
    } else {
      assert (ks + ls)[1..] == ks[1..] + ls;
      var g := PlaceAtom(b, p, end, ks[0]);
      if g.Some? {
        var c, q := g.value.b, g.value.next;
        PlaceConcat(c, q, end, ks[1..], ls);
        var x, all := PlaceAtoms(c, q, end, ks[1..]), PlaceAtoms(c, q, end, ks[1..] + ls);
        if all.Some? {
          var y := PlaceAtoms(x.value.b, x.value.next, end, ls).value.slots;
          assert [g.value.slot] + (x.value.slots + y) == [g.value.slot] + x.value.slots + y;
        }
      }
    }
  }

  /** The count in the last fixed slot. */
  function SlotCount(slots: seq<Slot>): nat {
    if slots != [] && slots[|slots| - 1].Val? then slots[|slots| - 1].v else 0
  }

  /** Type and tag, the buffer after decoding, the slots of all fields, and where the raw bytes lie. */
  datatype InPlace = InPlace(typ: nat, tag: nat, b: Bytes, slots: seq<Slot>, rawAt: nat, rawEnd: nat)

  /** convM2S. */
  function DecodeInPlace(b: Bytes, n: nat): Option<InPlace>
    requires n <= |b|
  {
    if n < HEADER then None
    else
      var size := Machine.Rd(b, 0, 4);
      var lay := LayoutOf(b[4]);
      if size < HEADER || size > n || lay.None? then None
      else
        var h := PlaceAtoms(b, HEADER, size, lay.value.head);
        if h.None? then None
        else
          var count := SlotCount(h.value.slots);
          var ks := ListKinds(lay.value, count);
          if ks.None? then None
          else
            var t := PlaceAtoms(h.value.b, h.value.next, size, ks.value);
            if t.None? then None
            else
              var q := t.value.next;
              var end := q + if lay.value.raw then count else 0;
              if end != size then None
              else Some(InPlace(b[4], Machine.Rd(b, 5, 2), t.value.b, h.value.slots + t.value.slots, q, end))
  }

  /** The in-place decoder accepts what the pure one accepts; in the buffer it leaves, every slot means
      the field, strings included, and the raw bytes are where they were. */
  lemma InPlaceOk(b: Bytes, n: nat)
    requires n <= |b|
    ensures var r, g := DecodeInPlace(b, n), Decode(b, n);
      && (r.Some? <==> g.Some?)
      && (r.Some? ==>
            var m, fields := g.value, g.value.head + g.value.list;
            && |r.value.slots| == |fields| && r.value.rawEnd <= |r.value.b| && r.value.rawAt <= r.value.rawEnd
            && r.value.typ == m.typ && r.value.tag == m.tag
            && (forall i :: 0 <= i < |fields| ==> Means(r.value.b, r.value.slots[i], fields[i]))
            && r.value.b[r.value.rawAt..r.value.rawEnd] == m.raw)
  {
    hide Machine.Rd, PureAtoms, PlaceAtoms, LayoutOf, Means, Repeat;
    if n >= HEADER {
      var size, lay := Machine.Rd(b, 0, 4), LayoutOf(b[4]);
      if HEADER <= size <= n && lay.Some? {
        PlaceAll(b, HEADER, size, lay.value.head);
        var h, g := PlaceAtoms(b, HEADER, size, lay.value.head), PureAtoms(b, HEADER, size, lay.value.head);
        if h.Some? {
          SameCount(h.value.b, h.value.slots, g.value.atoms);
          var ks := ListKinds(lay.value, CountOf(g.value.atoms));
          if ks.Some? {
            WholeOk(b, size, lay.value, ks.value);
          }
        }
      }
    }
  }

  lemma SameCount(b: Bytes, slots: seq<Slot>, atoms: seq<Atom>)
    requires |slots| == |atoms| && forall i :: 0 <= i < |slots| ==> Means(b, slots[i], atoms[i])
    ensures SlotCount(slots) == CountOf(atoms)
  {
    if slots != [] {
      assert Means(b, slots[|slots| - 1], atoms[|slots| - 1]);
    }
  }

  lemma WholeOk(b: Bytes, size: nat, lay: Layout, ks: seq<Kind>)
    requires HEADER <= size <= |b| && PlaceAtoms(b, HEADER, size, lay.head).Some?
      && PureAtoms(b, HEADER, size, lay.head).Some?
    ensures var h, g := PlaceAtoms(b, HEADER, size, lay.head).value, PureAtoms(b, HEADER, size, lay.head).value;
      var t, x := PlaceAtoms(h.b, h.next, size, ks), PureAtoms(b, g.next, size, ks);
      && (t.Some? <==> x.Some?)
      && (t.Some? ==>
            && t.value.next == x.value.next <= size && SameFrom(b, t.value.b, x.value.next)
            && |h.slots + t.value.slots| == |g.atoms + x.value.atoms|
            && forall i :: 0 <= i < |h.slots + t.value.slots| ==>
                 Means(t.value.b, (h.slots + t.value.slots)[i], (g.atoms + x.value.atoms)[i]))
  {
    hide PureAtoms, PlaceAtoms, Means;
    PlaceAll(b, HEADER, size, lay.head);
    PlaceConcat(b, HEADER, size, lay.head, ks);
    PureConcat(b, HEADER, size, lay.head, ks);
    PlaceAll(b, HEADER, size, lay.head + ks);
  }

  /** Sending and receiving: the receiver's in-place decoder finds every field of the message. */
  lemma SendReceive(m: Msg, b: Bytes, n: nat)
    requires WellFormed(m) && Encode(m) <= b && Size(m) <= n <= |b|
    ensures var r := DecodeInPlace(b, n);
      && r.Some? && |r.value.slots| == |m.head + m.list| && r.value.rawAt <= r.value.rawEnd <= |r.value.b|
      && (forall i :: 0 <= i < |m.head + m.list| ==> Means(r.value.b, r.value.slots[i], (m.head + m.list)[i]))
      && r.value.b[r.value.rawAt..r.value.rawEnd] == m.raw
  {
    hide Decode, DecodeInPlace, WellFormed, Encode, Means;
    RoundTrip(m, b, n);
    InPlaceOk(b, n);
  }

  // ---- encoding what was decoded ----

  lemma {:induction false} CutSize(atoms: seq<Atom>)
    ensures SizeOf(CutAll(atoms)) <= SizeOf(atoms)
    ensures SizeOf(CutAll(atoms)) == SizeOf(atoms) <==> Clean(atoms)
    ensures Clean(atoms) ==> CutAll(atoms) == atoms
  {
    hide CString, NoNul;
    if atoms == [] {
    } else {
      CutSize(atoms[1..]);
      assert CutAll(atoms)[1..] == CutAll(atoms[1..]);
      CleanFirst(atoms);
      if atoms[0].Text? {
        CStringWhole(atoms[0].s, 0);
        assert atoms[0].s[0..] == atoms[0].s;
      }
      assert atoms == [atoms[0]] + atoms[1..];
      assert CutAll(atoms) == [CutAtom(atoms[0])] + CutAll(atoms[1..]);
    }
  }

  lemma CleanFirst(atoms: seq<Atom>)
    requires atoms != []
    ensures Clean(atoms) <==> (atoms[0].Text? ==> NoNul(atoms[0].s)) && Clean(atoms[1..])
  {
    hide NoNul;
    if Clean(atoms) {
      assert forall i :: 0 <= i < |atoms[1..]| ==> atoms[1..][i] == atoms[i + 1];
    } else {
      var i :| 0 <= i < |atoms| && atoms[i].Text? && !NoNul(atoms[i].s);
      assert i > 0 ==> atoms[1..][i - 1] == atoms[i];
    }
  }

  /** The message as the caller of convM2S holds it: numbers in the structure, strings and bytes in the buffer;
      its fields are of the kinds head and list. */
  function HeldMsg(r: InPlace, head: seq<Kind>, list: seq<Kind>): Msg
    requires |r.slots| == |head| + |list| && r.rawAt <= r.rawEnd <= |r.b|
  {
    Msg(r.typ, r.tag, Held(r.b, r.slots[..|head|], head), Held(r.b, r.slots[|head|..], list), r.b[r.rawAt..r.rawEnd])
  }

  /** The caller holds the message with its strings cut at their first NUL. */
  lemma HeldCut(b: Bytes, n: nat)
    requires n <= |b| && Decode(b, n).Some?
    ensures var m, r := Decode(b, n).value, DecodeInPlace(b, n);
      && r.Some? && |r.value.slots| == |m.head| + |m.list| && r.value.rawAt <= r.value.rawEnd <= |r.value.b|
      && HeldMsg(r.value, Kinds(m.head), Kinds(m.list)) == m.(head := CutAll(m.head), list := CutAll(m.list))
  {
    hide Decode, DecodeInPlace, Means, Kinds;
    InPlaceOk(b, n);
    var m, r := Decode(b, n).value, DecodeInPlace(b, n).value;
    var fields := m.head + m.list;
    forall i | 0 <= i < |m.head|
      ensures Means(r.b, r.slots[..|m.head|][i], m.head[i])
    {
      assert fields[i] == m.head[i];
    }
    forall i | 0 <= i < |m.list|
      ensures Means(r.b, r.slots[|m.head|..][i], m.list[i])
    {
      assert fields[|m.head| + i] == m.list[i];
    }
    HeldIs(r.b, r.slots[..|m.head|], m.head);
    HeldIs(r.b, r.slots[|m.head|..], m.list);
  }

  /** Encoding what decoding left gives the same bytes exactly when no string of the message holds a NUL. */
  lemma Reencode(b: Bytes, n: nat)
    requires n <= |b| && Decode(b, n).Some?
    ensures var m, r := Decode(b, n).value, DecodeInPlace(b, n);
      && r.Some? && |r.value.slots| == |m.head| + |m.list| && r.value.rawAt <= r.value.rawEnd <= |r.value.b|
      && Size(m) <= n
      && (Encode(HeldMsg(r.value, Kinds(m.head), Kinds(m.list))) == b[..Size(m)] <==> Clean(m.head) && Clean(m.list))
  {
    hide Decode, DecodeInPlace, Encode, HeldMsg, Kinds, SizeOf, Clean, CutAll, WellFormed;
    var m := Decode(b, n).value;
    HeldCut(b, n);
    EncodeDecoded(b, n);
    CutSize(m.head);
    CutSize(m.list);
    EncodeSize(m.(head := CutAll(m.head), list := CutAll(m.list)));
    EncodeSize(m);
  }

  // ---- stat records ----

  const STAT: seq<Kind> := [U(2), U(4)] + QID + [U(4), U(4), U(4), U(4), U(4), Str, Str, Str, Str]

  ghost predicate StatOk(atoms: seq<Atom>) {
    AllFit(atoms) && Kinds(atoms) == STAT && SizeOf(atoms) < 0x1_0000
  }

  /** convD2M. */
  function EncodeStat(atoms: seq<Atom>): Bytes {
    Le(SizeOf(atoms), 2) + EncodeAtoms(atoms)
  }

  /** convM2D: the fields and the record's size; it may hold more than the fields. */
  function DecodeStat(b: Bytes, n: nat): (r: Option<(Run, nat)>)
    requires n <= |b|
    ensures r.Some? ==> r.value.1 <= n
  {
    if n < 2 || Machine.Rd(b, 0, 2) + 2 > n then None
    else
      var size := Machine.Rd(b, 0, 2) + 2;
      match PureAtoms(b, 2, size, STAT)
      case None => None
      case Some(run) => Some((run, size))
  }

  lemma StatRoundTrip(atoms: seq<Atom>, b: Bytes, n: nat)
    requires StatOk(atoms) && EncodeStat(atoms) <= b && |EncodeStat(atoms)| <= n <= |b|
    ensures DecodeStat(b, n) == Some((Run(atoms, |EncodeStat(atoms)|), |EncodeStat(atoms)|))
  {
    hide Le, Machine.Rd, EncodeAtoms, PureAtoms, Kinds, AllFit, SizeOf;
    SizeExact(atoms);
    Pow2Of32();
    var e := EncodeStat(atoms);
    assert b[0..2] == e[0..2] == Le(SizeOf(atoms), 2);
    ReadLe(b, 0, SizeOf(atoms), 2);
    assert b[2..|e|] == e[2..] == EncodeAtoms(atoms);
    PureOfEncode(b, 2, |e|, atoms);
  }

  /** The fields of an accepted record are those of its bytes. */
  lemma EncodeStatDecoded(b: Bytes, n: nat)
    requires n <= |b| && DecodeStat(b, n).Some?
    ensures var (run, size) := DecodeStat(b, n).value;
      && Kinds(run.atoms) == STAT && AllFit(run.atoms)
      && run.next == 2 + SizeOf(run.atoms) <= size && (EncodeStat(run.atoms) == b[..size] <==> run.next == size)
  {
    hide Le, Machine.Rd, EncodeAtoms, PureAtoms, Kinds, AllFit, SizeOf;
    var (run, size) := DecodeStat(b, n).value;
    EncodeOfPure(b, 2, size, STAT);
    SizeExact(run.atoms);
    LeRead(b, 0, 2);
    assert b[..run.next] == b[0..2] + b[2..run.next];
    assert |EncodeStat(run.atoms)| == run.next;
  }

  /** convM2D: the strings become C strings in the buffer, which is returned with the fields' slots and the
      record's size. */
  function DecodeStatInPlace(b: Bytes, n: nat): Option<(PlacedAll, nat)>
    requires n <= |b|
  {
    if n < 2 || Machine.Rd(b, 0, 2) + 2 > n then None
    else
      var size := Machine.Rd(b, 0, 2) + 2;
      match PlaceAtoms(b, 2, size, STAT)
      case None => None
      case Some(run) => Some((run, size))
  }

  /** It accepts what the pure decoder accepts, with the same size; in the buffer it leaves every slot means
      its field, no string overwritten by a later one, and what follows the fields is as it was. */
  lemma StatInPlaceOk(b: Bytes, n: nat)
    requires n <= |b|
    ensures var r, g := DecodeStatInPlace(b, n), DecodeStat(b, n);
      && (r.Some? <==> g.Some?)
      && (r.Some? ==>
            && r.value.1 == g.value.1 && r.value.0.next == g.value.0.next && SameFrom(b, r.value.0.b, r.value.0.next)
            && |r.value.0.slots| == |g.value.0.atoms|
            && forall i :: 0 <= i < |g.value.0.atoms| ==> Means(r.value.0.b, r.value.0.slots[i], g.value.0.atoms[i]))
  {
    hide Machine.Rd, PureAtoms, PlaceAtoms, Means;
    if n >= 2 && Machine.Rd(b, 0, 2) + 2 <= n {
      PlaceAll(b, 2, Machine.Rd(b, 0, 2) + 2, STAT);
    }
  }

  /** A stat record sent and decoded in place by the receiver: every field is there. */
  lemma StatSendReceive(atoms: seq<Atom>, b: Bytes, n: nat)
    requires StatOk(atoms) && EncodeStat(atoms) <= b && |EncodeStat(atoms)| <= n <= |b|
    ensures var r := DecodeStatInPlace(b, n);
      && r.Some? && r.value.1 == |EncodeStat(atoms)| && |r.value.0.slots| == |atoms|
      && forall i :: 0 <= i < |atoms| ==> Means(r.value.0.b, r.value.0.slots[i], atoms[i])
  {
    hide DecodeStat, DecodeStatInPlace, StatOk, EncodeStat, Means;
    StatRoundTrip(atoms, b, n);
    StatInPlaceOk(b, n);
  }

  /** Encoding what decoding a record left gives the same bytes exactly when the fields fill the record and none of
      its strings holds a NUL. */
  lemma StatReencode(b: Bytes, n: nat)
    requires n <= |b| && DecodeStat(b, n).Some?
    ensures var (run, size), r := DecodeStat(b, n).value, DecodeStatInPlace(b, n);
      && r.Some? && |r.value.0.slots| == |STAT|
      && (EncodeStat(Held(r.value.0.b, r.value.0.slots, STAT)) == b[..size] <==> run.next == size && Clean(run.atoms))
  {
    hide DecodeStat, DecodeStatInPlace, EncodeStat, Means, Clean, CutAll, Kinds, SizeOf, AllFit;
    var (run, size) := DecodeStat(b, n).value;
    StatInPlaceOk(b, n);
    EncodeStatDecoded(b, n);
    var r := DecodeStatInPlace(b, n).value.0;
    HeldIs(r.b, r.slots, run.atoms);
    CutSize(run.atoms);
    StatLength(run.atoms);
    StatLength(CutAll(run.atoms));
  }

  lemma StatLength(atoms: seq<Atom>)
    ensures |EncodeStat(atoms)| == 2 + SizeOf(atoms)
  {
    hide Le, EncodeAtoms, SizeOf;
    SizeExact(atoms);
  }

  // ---- the move inside the buffer ----

  /** gstr: moves the string down over its length and ends it, in the buffer itself. */
  method Gstr(buf: array<Byte>, p: nat, end: nat) returns (next: Option<nat>)
    requires end <= buf.Length
    modifies buf
    ensures var r := PlaceAtom(old(buf[..]), p, end, Str);
      && (next.Some? <==> r.Some?)
      && (next.Some? ==> next.value == r.value.next && buf[..] == r.value.b)
      && (next.None? ==> buf[..] == old(buf[..]))
  {
    hide Machine.Rd;
    if p + 2 > end {
      return None;
    }
    var n := Read16(buf, p);
    if p + 2 + n > end {
      return None;
    }
    ghost var b := buf[..];
    var i := 0;
    while i < n
      invariant 0 <= i <= n
      invariant forall k :: p <= k < p + i ==> buf[k] == b[k + 2]
      invariant forall k :: 0 <= k < p || p + i <= k < buf.Length ==> buf[k] == b[k]
    {
      buf[p + i] := buf[p + i + 2];
      i := i + 1;
    }
    buf[p + n] := 0;
    ShiftedAt(b, p, n);
    assert buf[..] == Shifted(b, p, n);
    return Some(p + 2 + n);
  }

  lemma ShiftedAt(b: Bytes, p: nat, n: nat)
    requires p + 2 + n <= |b|
    ensures forall k :: 0 <= k < |b| ==>
      Shifted(b, p, n)[k] == if p <= k < p + n then b[k + 2] else if k == p + n then 0 else b[k]
  {
    var x := b[..p] + b[p + 2..p + 2 + n];
    var y := x + [0];
    assert Shifted(b, p, n) == y + b[p + n + 1..];
    forall k | 0 <= k < |b|
      ensures Shifted(b, p, n)[k] == if p <= k < p + n then b[k + 2] else if k == p + n then 0 else b[k]
    {
      if k < p + n {
        assert Shifted(b, p, n)[k] == y[k] == x[k];
      } else if k == p + n {
        assert Shifted(b, p, n)[k] == y[k];
      } else {
        assert Shifted(b, p, n)[k] == b[p + n + 1..][k - (p + n + 1)];
      }
    }
  }

  method Read16(buf: array<Byte>, p: nat) returns (v: nat)
    requires p + 2 <= buf.Length
    ensures v == Machine.Rd(buf[..], p, 2)
  {
    var lo: nat, hi: nat := buf[p], buf[p + 1];
    v := lo + 256 * hi;
    var b := buf[..];
    assert Machine.Rd(b, p + 2, 0) == 0;
    assert Machine.Rd(b, p + 1, 1) == b[p + 1];
  }
}
