/** 9P2000 fields on the wire: little-endian numbers and counted strings (intro(5) of the Plan 9
    manual), and the decoder that turns each string into a C string inside the buffer itself. */
module Wire {
  import opened Wrappers
  import opened Words
  import Machine

  type Bytes = seq<Byte>

  datatype Kind = U(width: nat) | Str

  datatype Atom = Num(width: nat, v: nat) | Text(s: Bytes)

  function KindOf(a: Atom): Kind {
    if a.Num? then U(a.width) else Str
  }

  function Kinds(atoms: seq<Atom>): (ks: seq<Kind>)
    ensures |ks| == |atoms|
  {
    if atoms == [] then [] else [KindOf(atoms[0])] + Kinds(atoms[1..])
  }

  // ---- numbers ----

  function Le(v: nat, width: nat): (b: Bytes)
    ensures |b| == width
    decreases width
  {
    if width == 0 then [] else [v % 256] + Le(v / 256, width - 1)
  }

  lemma {:induction false} ReadLe(b: Bytes, p: nat, v: nat, width: nat)
    requires p + width <= |b| && b[p..p + width] == Le(v, width) && v < Pow2(8 * width)
    ensures Machine.Rd(b, p, width) == v
    decreases width
  {
    if width == 0 {
    } else {
      Machine.Pow2Byte(width);
      assert b[p] == b[p..p + width][0] == v % 256;
      assert b[p + 1..p + 1 + (width - 1)] == b[p..p + width][1..];
      ReadLe(b, p + 1, v / 256, width - 1);
    }
  }

  lemma {:induction false} LeRead(b: Bytes, p: nat, width: nat)
    requires p + width <= |b|
    ensures Le(Machine.Rd(b, p, width), width) == b[p..p + width] && Machine.Rd(b, p, width) < Pow2(8 * width)
    decreases width
  {
    if width == 0 {
    } else {
      hide Pow2;
      var rest := Machine.Rd(b, p + 1, width - 1);
      LeRead(b, p + 1, width - 1);
      ByteFirst(b[p], rest);
      assert b[p..p + width] == [b[p]] + b[p + 1..p + 1 + (width - 1)];
    }
  }

  lemma ByteFirst(lo: Byte, rest: nat)
    ensures (lo + 256 * rest) % 256 == lo && (lo + 256 * rest) / 256 == rest
  {
  }

  // ---- encoding ----

  function EncodeAtom(a: Atom): Bytes {
    match a
    case Num(width, v) => Le(v, width)
    case Text(s) => Le(|s|, 2) + s
  }

  function EncodeAtoms(atoms: seq<Atom>): Bytes {
    if atoms == [] then [] else EncodeAtom(atoms[0]) + EncodeAtoms(atoms[1..])
  }

  /** The values fit their fields. */
  predicate Fits(a: Atom) {
    match a
    case Num(width, v) => v < Pow2(8 * width)
    case Text(s) => |s| < 0x1_0000
  }

  predicate AllFit(atoms: seq<Atom>) {
    forall i :: 0 <= i < |atoms| ==> Fits(atoms[i])
  }

  // ---- decoding, the buffer untouched ----

  datatype Got = Got(atom: Atom, next: nat)

  function PureAtom(b: Bytes, p: nat, end: nat, k: Kind): (r: Option<Got>)
    requires end <= |b|
    ensures r.Some? ==> p <= r.value.next <= end
  {
    match k
    case U(width) => if p + width > end then None else Some(Got(Num(width, Machine.Rd(b, p, width)), p + width))
    case Str =>
      if p + 2 > end then None
      else
        var n := Machine.Rd(b, p, 2);
        if p + 2 + n > end then None else Some(Got(Text(b[p + 2..p + 2 + n]), p + 2 + n))
  }

  datatype Run = Run(atoms: seq<Atom>, next: nat)

  function PureAtoms(b: Bytes, p: nat, end: nat, ks: seq<Kind>): (r: Option<Run>)
    requires end <= |b|
    ensures r.Some? ==> |r.value.atoms| == |ks| && (p <= end ==> p <= r.value.next <= end)
    decreases |ks|
  {
    if ks == [] then Some(Run([], p))
    else
      match PureAtom(b, p, end, ks[0])
      case None => None
      case Some(Got(a, q)) =>
        match PureAtoms(b, q, end, ks[1..])
        case None => None
        case Some(Run(rest, r)) => Some(Run([a] + rest, r))
  }

  lemma PureOfEncode1(b: Bytes, p: nat, end: nat, a: Atom)
    requires end <= |b| && Fits(a) && p + |EncodeAtom(a)| <= end && b[p..p + |EncodeAtom(a)|] == EncodeAtom(a)
    ensures PureAtom(b, p, end, KindOf(a)) == Some(Got(a, p + |EncodeAtom(a)|))
  {
    hide Machine.Rd;
    match a
    case Num(width, v) => ReadLe(b, p, v, width);
    case Text(s) =>
      assert b[p..p + 2] == b[p..p + 2 + |s|][..2] == Le(|s|, 2);
      Pow2Of32();
      ReadLe(b, p, |s|, 2);
      assert b[p + 2..p + 2 + |s|] == b[p..p + 2 + |s|][2..] == s;
  }

  /** Encoded fields read back, whatever surrounds them. */
  lemma {:induction false} PureOfEncode(b: Bytes, p: nat, end: nat, atoms: seq<Atom>)
    requires end <= |b| && AllFit(atoms) && p + |EncodeAtoms(atoms)| <= end
    requires b[p..p + |EncodeAtoms(atoms)|] == EncodeAtoms(atoms)
    ensures PureAtoms(b, p, end, Kinds(atoms)) == Some(Run(atoms, p + |EncodeAtoms(atoms)|))
    decreases |atoms|
  {
    hide PureAtom, EncodeAtom, Fits;
    if atoms == [] {
    } else {
      var e, rest := EncodeAtom(atoms[0]), EncodeAtoms(atoms[1..]);
      var all := b[p..p + |e| + |rest|];
      assert b[p..p + |e|] == all[..|e|] == e;
      assert b[p + |e|..p + |e| + |rest|] == all[|e|..] == rest;
      PureOfEncode1(b, p, end, atoms[0]);
      PureOfEncode(b, p + |e|, end, atoms[1..]);
      assert Kinds(atoms)[1..] == Kinds(atoms[1..]);
      assert [atoms[0]] + atoms[1..] == atoms;
    }
  }

  lemma EncodeOfPure1(b: Bytes, p: nat, end: nat, k: Kind)
    requires end <= |b| && PureAtom(b, p, end, k).Some?
    ensures var g := PureAtom(b, p, end, k).value;
      Fits(g.atom) && KindOf(g.atom) == k && EncodeAtom(g.atom) == b[p..g.next]
  {
    hide Machine.Rd;
    match k
    case U(width) => LeRead(b, p, width);
    case Str =>
      LeRead(b, p, 2);
      Pow2Of32();
      var n := Machine.Rd(b, p, 2);
      assert b[p..p + 2 + n] == b[p..p + 2] + b[p + 2..p + 2 + n];
  }

  /** Decoded fields encode to the bytes they came from. */
  lemma {:induction false} EncodeOfPure(b: Bytes, p: nat, end: nat, ks: seq<Kind>)
    requires p <= end <= |b| && PureAtoms(b, p, end, ks).Some?
    ensures var r := PureAtoms(b, p, end, ks).value;
      AllFit(r.atoms) && Kinds(r.atoms) == ks && EncodeAtoms(r.atoms) == b[p..r.next]
    decreases |ks|
  {
    hide PureAtom, EncodeAtom, Fits;
    if ks == [] {
    } else {
      EncodeOfPure1(b, p, end, ks[0]);
      var g := PureAtom(b, p, end, ks[0]).value;
      EncodeOfPure(b, g.next, end, ks[1..]);
      var r := PureAtoms(b, p, end, ks).value;
      assert r.atoms[1..] == PureAtoms(b, g.next, end, ks[1..]).value.atoms;
      assert b[p..r.next] == b[p..g.next] + b[g.next..r.next];
    }
  }

  // ---- decoding in place ----

  /** A number, or where a C string starts in the buffer. */
  datatype Slot = Val(v: nat) | Ptr(at: nat)

  /** gstr's move: n bytes two places down, then a NUL. */
  function Shifted(b: Bytes, p: nat, n: nat): (r: Bytes)
    requires p + 2 + n <= |b|
    ensures |r| == |b|
  {
    b[..p] + b[p + 2..p + 2 + n] + [0] + b[p + n + 1..]
  }

  datatype Placed = Placed(b: Bytes, slot: Slot, next: nat)

  function PlaceAtom(b: Bytes, p: nat, end: nat, k: Kind): (r: Option<Placed>)
    requires end <= |b|
    ensures r.Some? ==> |r.value.b| == |b| && p <= r.value.next <= end
  {
    match k
    case U(width) => if p + width > end then None else Some(Placed(b, Val(Machine.Rd(b, p, width)), p + width))
    case Str =>
      if p + 2 > end then None
      else
        var n := Machine.Rd(b, p, 2);
        if p + 2 + n > end then None else Some(Placed(Shifted(b, p, n), Ptr(p), p + 2 + n))
  }

  datatype PlacedAll = PlacedAll(b: Bytes, slots: seq<Slot>, next: nat)

  function PlaceAtoms(b: Bytes, p: nat, end: nat, ks: seq<Kind>): (r: Option<PlacedAll>)
    requires end <= |b|
    ensures r.Some? ==> |r.value.b| == |b| && |r.value.slots| == |ks|
    decreases |ks|
  {
    if ks == [] then Some(PlacedAll(b, [], p))
    else
      match PlaceAtom(b, p, end, ks[0])
      case None => None
      case Some(Placed(c, s, q)) =>
        match PlaceAtoms(c, q, end, ks[1..])
        case None => None
        case Some(PlacedAll(d, rest, r)) => Some(PlacedAll(d, [s] + rest, r))
  }

  /** The C string at p: the bytes up to the next NUL. */
  function CString(b: Bytes, p: nat): Bytes
    decreases |b| - p
  {
    if p >= |b| || b[p] == 0 then [] else [b[p]] + CString(b, p + 1)
  }

  predicate NoNul(s: Bytes) {
    forall i :: 0 <= i < |s| ==> s[i] != 0
  }

  /** What the caller finds in a slot once decoding is over. */
  predicate Means(b: Bytes, slot: Slot, a: Atom) {
    match a
    case Num(_, v) => slot == Val(v)
    case Text(s) => slot.Ptr? && CString(b, slot.at) == CString(s, 0)
  }

  /** Bytes followed by a NUL are, as a C string, those up to their own first NUL. */
  lemma {:induction false} CStringIs(b: Bytes, p: nat, s: Bytes, k: nat)
    requires p + |s| < |b| && b[p..p + |s|] == s && b[p + |s|] == 0 && k <= |s|
    ensures CString(b, p + k) == CString(s, k)
    decreases |s| - k
  {
    if k == |s| {
    } else {
      assert b[p + k] == b[p..p + |s|][k] == s[k];
      CStringIs(b, p, s, k + 1);
    }
  }

  /** They are all of the bytes exactly when there is no NUL among them. */
  lemma {:induction false} CStringWhole(s: Bytes, k: nat)
    requires k <= |s|
    ensures |CString(s, k)| <= |s| - k
    ensures |CString(s, k)| == |s| - k <==> NoNul(s[k..])
    ensures NoNul(s[k..]) ==> CString(s, k) == s[k..]
    decreases |s| - k
  {
    if k == |s| {
    } else {
      assert s[k..] == [s[k]] + s[k + 1..];
      CStringWhole(s, k + 1);
    }
  }

  // ---- fields as the caller holds them ----

  /** A field with its string cut at the first NUL. */
  function CutAtom(a: Atom): Atom {
    if a.Num? then a else Text(CString(a.s, 0))
  }

  function CutAll(atoms: seq<Atom>): (r: seq<Atom>)
    ensures |r| == |atoms| && forall i :: 0 <= i < |atoms| ==> r[i] == CutAtom(atoms[i])
  {
    seq(|atoms|, i requires 0 <= i < |atoms| => CutAtom(atoms[i]))
  }

  /** No string holds a NUL. */
  predicate Clean(atoms: seq<Atom>) {
    forall i :: 0 <= i < |atoms| ==> atoms[i].Text? ==> NoNul(atoms[i].s)
  }

  /** What is in a slot of kind k, strings read from the buffer. */
  function HeldAtom(b: Bytes, slot: Slot, k: Kind): Atom {
    match k
    case U(width) => Num(width, if slot.Val? then slot.v else 0)
    case Str => Text(if slot.Ptr? then CString(b, slot.at) else [])
  }

  function Held(b: Bytes, slots: seq<Slot>, ks: seq<Kind>): (r: seq<Atom>)
    requires |slots| == |ks|
    ensures |r| == |ks| && forall i :: 0 <= i < |ks| ==> r[i] == HeldAtom(b, slots[i], ks[i])
  {
    seq(|ks|, i requires 0 <= i < |ks| => HeldAtom(b, slots[i], ks[i]))
  }

  lemma {:induction false} KindsAt(atoms: seq<Atom>, i: nat)
    requires i < |atoms|
    ensures Kinds(atoms)[i] == KindOf(atoms[i])
  {
    if i == 0 {
    } else {
      KindsAt(atoms[1..], i - 1);
    }
  }

  /** The caller holds the decoded fields with their strings cut. */
  lemma HeldIs(b: Bytes, slots: seq<Slot>, atoms: seq<Atom>)
    requires |slots| == |atoms| && forall i :: 0 <= i < |atoms| ==> Means(b, slots[i], atoms[i])
    ensures Held(b, slots, Kinds(atoms)) == CutAll(atoms)
  {
    hide CString, Kinds;
    forall i | 0 <= i < |atoms|
      ensures Held(b, slots, Kinds(atoms))[i] == CutAll(atoms)[i]
    {
      KindsAt(atoms, i);
      assert Means(b, slots[i], atoms[i]);
    }
  }

  /** Both buffers agree from p on. */
  ghost predicate SameFrom(b: Bytes, c: Bytes, p: nat) {
    |b| == |c| && forall i :: p <= i < |b| ==> b[i] == c[i]
  }

  ghost predicate SameBefore(b: Bytes, c: Bytes, p: nat) {
    |b| == |c| && forall i :: 0 <= i < p && i < |b| ==> b[i] == c[i]
  }

  lemma PureSame(b: Bytes, c: Bytes, p: nat, end: nat, k: Kind)
    requires end <= |b| && SameFrom(b, c, p)
    ensures PureAtom(b, p, end, k) == PureAtom(c, p, end, k)
  {
    hide Machine.Rd;
    match k
    case U(width) =>
      if p + width <= end {
        Machine.SameRead(b, c, p, width);
      }
    case Str =>
      if p + 2 <= end {
        Machine.SameRead(b, c, p, 2);
        var n := Machine.Rd(b, p, 2);
        if p + 2 + n <= end {
          assert b[p + 2..p + 2 + n] == c[p + 2..p + 2 + n];
        }
      }
  }

  lemma {:induction false} PureAllSame(b: Bytes, c: Bytes, p: nat, end: nat, ks: seq<Kind>)
    requires p <= end <= |b| && SameFrom(b, c, p)
    ensures PureAtoms(b, p, end, ks) == PureAtoms(c, p, end, ks)
    decreases |ks|
  {
    hide PureAtom;
    if ks == [] {
    } else {
      PureSame(b, c, p, end, ks[0]);
      if PureAtom(b, p, end, ks[0]).Some? {
        PureAllSame(b, c, PureAtom(b, p, end, ks[0]).value.next, end, ks[1..]);
      }
    }
  }

  /** One field: the same field as the pure decoder's, the bytes after it and before it untouched. */
  lemma PlaceOne(b: Bytes, p: nat, end: nat, k: Kind)
    requires end <= |b|
    ensures var r, g := PlaceAtom(b, p, end, k), PureAtom(b, p, end, k);
      && (r.Some? <==> g.Some?)
      && (r.Some? ==>
            && r.value.next == g.value.next && SameFrom(b, r.value.b, g.value.next) && SameBefore(b, r.value.b, p)
            && (g.value.atom.Num? ==> r.value.slot == Val(g.value.atom.v))
            && (g.value.atom.Text? ==>
                  && r.value.slot == Ptr(p) && p + |g.value.atom.s| < g.value.next
                  && r.value.b[p..p + |g.value.atom.s|] == g.value.atom.s && r.value.b[p + |g.value.atom.s|] == 0))
  {
    hide Machine.Rd;
  }

  /** Every field: decoding in place gives what the pure decoder gives, and no string already decoded
      is overwritten by a later one. */
  lemma {:induction false} PlaceAll(b: Bytes, p: nat, end: nat, ks: seq<Kind>)
    requires p <= end <= |b|
    ensures var r, g := PlaceAtoms(b, p, end, ks), PureAtoms(b, p, end, ks);
      && (r.Some? <==> g.Some?)
      && (r.Some? ==>
            && r.value.next == g.value.next && SameFrom(b, r.value.b, r.value.next) && SameBefore(b, r.value.b, p)
            && forall i :: 0 <= i < |ks| ==> Means(r.value.b, r.value.slots[i], g.value.atoms[i]))
    decreases |ks|
  {
    hide PureAtom, PlaceAtom, Machine.Rd;
    if ks == [] {
    } else {
      PlaceOne(b, p, end, ks[0]);
      if PlaceAtom(b, p, end, ks[0]).Some? {
        var s, g := PlaceAtom(b, p, end, ks[0]).value, PureAtom(b, p, end, ks[0]).value;
        PlaceAll(s.b, s.next, end, ks[1..]);
        PureAllSame(b, s.b, s.next, end, ks[1..]);
        var r := PlaceAtoms(b, p, end, ks);
        if r.Some? {
          FirstMeans(s.b, r.value.b, s.slot, g.atom, p, s.next);
        }
      }
    }
  }

  lemma FirstMeans(c: Bytes, d: Bytes, slot: Slot, a: Atom, p: nat, q: nat)
    requires SameBefore(c, d, q) && q <= |c|
    requires a.Num? ==> slot == Val(a.v)
    requires a.Text? ==> slot == Ptr(p) && p + |a.s| < q && c[p..p + |a.s|] == a.s && c[p + |a.s|] == 0
    ensures Means(d, slot, a)
  {
    if a.Text? {
      assert d[p..p + |a.s|] == c[p..p + |a.s|];
      CStringIs(d, p, a.s, 0);
    }
  }
}
