/** The linker's layout, symbol resolution and relocation. Addresses do not wrap in the layout;
    relocated values are 32-bit. */
module Linker {
  import opened Wrappers
  import opened Words
  import Machine

  /** sec: 0 undefined, 1 text, 2 data, 3 bss, 4 absolute. */
  datatype Sym = Sym(name: string, val: Word, sec: nat, global: bool)

  datatype Kind = Abs32 | Rel32 | Abs16

  datatype Rel = Rel(off: nat, sec: nat, kind: Kind, sym: nat, add: Word)

  datatype Obj = Obj(text: seq<Byte>, data: seq<Byte>, bss: nat, syms: seq<Sym>, rels: seq<Rel>)

  function Bytes(o: Obj, sec: nat): seq<Byte> {
    if sec == 1 then o.text else if sec == 2 then o.data else []
  }

  function Size(o: Obj, sec: nat): nat {
    if sec == 3 then o.bss else |Bytes(o, sec)|
  }

  function Width(r: Rel): nat {
    if r.kind.Abs16? then 2 else 4
  }

  /** Some relocation uses symbol j. */
  predicate Used(o: Obj, j: nat) {
    exists r :: 0 <= r < |o.rels| && o.rels[r].sym == j
  }

  /** Symbols and relocations name what is there, and every field lies in its section. */
  predicate GoodObj(o: Obj) {
    && (forall j :: 0 <= j < |o.syms| ==> o.syms[j].sec <= 4)
    && (forall k :: 0 <= k < |o.rels| ==>
          1 <= o.rels[k].sec <= 2 && o.rels[k].off + Width(o.rels[k]) <= Size(o, o.rels[k].sec)
            && o.rels[k].sym < |o.syms|)
  }

  // ---- what read_obj checks ----

  /** The checks of a relocation; the end of its field is a 32-bit sum. */
  predicate RelRead(o: Obj, r: Rel) {
    1 <= r.sec <= 2 && Repr(r.off + Width(r)) <= Size(o, r.sec) && r.sym < |o.syms|
  }

  predicate ReadOk(o: Obj) {
    && (forall j :: 0 <= j < |o.syms| ==> o.syms[j].sec <= 4)
    && (forall k :: 0 <= k < |o.rels| ==> RelRead(o, o.rels[k]))
  }

  /** Offsets and sizes are words of the file. */
  predicate InWords(o: Obj) {
    |o.text| < WORD_MOD && |o.data| < WORD_MOD && forall k :: 0 <= k < |o.rels| ==> o.rels[k].off < WORD_MOD
  }

  /** An object that is read is good exactly when no field's end passes 32 bits. */
  lemma ReadExact(o: Obj)
    requires InWords(o)
    ensures GoodObj(o) <==> ReadOk(o) && forall k :: 0 <= k < |o.rels| ==> o.rels[k].off + Width(o.rels[k]) < WORD_MOD
  {
    forall k | 0 <= k < |o.rels|
      ensures var r := o.rels[k];
        1 <= r.sec <= 2 && r.off + Width(r) <= Size(o, r.sec) && r.sym < |o.syms|
        <==> RelRead(o, r) && r.off + Width(r) < WORD_MOD
    {
      SmallEnd(o, o.rels[k]);
    }
    if GoodObj(o) {
      forall k | 0 <= k < |o.rels|
        ensures RelRead(o, o.rels[k]) && o.rels[k].off + Width(o.rels[k]) < WORD_MOD
      {
        SmallEnd(o, o.rels[k]);
      }
    }
  }

  lemma SmallEnd(o: Obj, r: Rel)
    requires |o.text| < WORD_MOD && |o.data| < WORD_MOD
    ensures r.off + Width(r) < WORD_MOD ==> Repr(r.off + Width(r)) == r.off + Width(r)
    ensures 1 <= r.sec <= 2 ==> Size(o, r.sec) < WORD_MOD
  {
  }

  /** A relocation two bytes before the end of the address space is read, into a section of four bytes. */
  lemma FarOffset()
    ensures var o := Obj([0, 0, 0, 0], [], 0, [Sym("a", 0, 1, false)], [Rel(0xFFFF_FFFE, 1, Abs32, 0, 0)]);
      InWords(o) && ReadOk(o) && !GoodObj(o)
  {
    var o := Obj([0, 0, 0, 0], [], 0, [Sym("a", 0, 1, false)], [Rel(0xFFFF_FFFE, 1, Abs32, 0, 0)]);
    assert o.rels[0].off + Width(o.rels[0]) == WORD_MOD + 2;
    assert Repr(WORD_MOD + 2) == 2;
  }

  /** The two checking loops of read_obj. */
  method CheckObj(o: Obj) returns (ok: bool)
    ensures ok <==> ReadOk(o)
  {
    for j := 0 to |o.syms|
      invariant forall i :: 0 <= i < j ==> o.syms[i].sec <= 4
    {
      if o.syms[j].sec > 4 {
        return false;
      }
    }
    for k := 0 to |o.rels|
      invariant forall i :: 0 <= i < k ==> RelRead(o, o.rels[i])
    {
      var r := o.rels[k];
      var lim := if r.sec == 1 then |o.text| else if r.sec == 2 then |o.data| else 0;
      var w := if r.kind.Abs16? then 2 else 4;
      if r.sec < 1 || r.sec > 2 || Repr(r.off + w) > lim {
        assert !RelRead(o, r);
        return false;
      }
      if r.sym >= |o.syms| {
        assert !RelRead(o, r);
        return false;
      }
    }
    return true;
  }

  // ---- layout ----

  function Align(v: nat, a: nat): (r: nat)
    requires a > 0
    ensures v <= r < v + a && r % a == 0
  {
    AlignFacts(v, a);
    (v + a - 1) / a * a
  }

  lemma AlignFacts(v: nat, a: nat)
    requires a > 0
    ensures var r := (v + a - 1) / a * a; v <= r < v + a && r % a == 0
  {
    DivMod(v + a - 1, a);
    ModUnique((v + a - 1) / a * a, a, (v + a - 1) / a, 0);
  }

  /** Where section sec of each object starts, the first at or after pos. */
  function Bases(objs: seq<Obj>, sec: nat, pos: nat): (b: seq<nat>)
    ensures |b| == |objs|
  {
    if objs == [] then [] else [Align(pos, 4)] + Bases(objs[1..], sec, Align(pos, 4) + Size(objs[0], sec))
  }

  function End(objs: seq<Obj>, sec: nat, pos: nat): nat {
    if objs == [] then pos else End(objs[1..], sec, Align(pos, 4) + Size(objs[0], sec))
  }

  /** starts[s]: address of section s; ends[s]: its end; index 0 is not used. */
  datatype Layout = Layout(base: seq<seq<nat>>, starts: seq<nat>, ends: seq<nat>)

  function Place(objs: seq<Obj>, textAddr: nat): Layout {
    var textEnd := End(objs, 1, textAddr);
    var dataAddr := Align(textEnd, 4096);
    var dataEnd := End(objs, 2, dataAddr);
    var bssAddr := Align(dataEnd, 4);
    Layout([[], Bases(objs, 1, textAddr), Bases(objs, 2, dataAddr), Bases(objs, 3, bssAddr)],
           [0, textAddr, dataAddr, bssAddr], [0, textEnd, dataEnd, End(objs, 3, bssAddr)])
  }

  predicate Placed(objs: seq<Obj>, lay: Layout) {
    && |lay.base| == 4 && |lay.starts| == 4 && |lay.ends| == 4
    && forall s :: 1 <= s <= 3 ==> |lay.base[s]| == |objs|
  }

  /** The bases of one section: aligned, within the section, in order. */
  lemma {:induction false} BaseOk(objs: seq<Obj>, sec: nat, pos: nat, i: nat, j: nat)
    requires i < |objs| && j < |objs|
    ensures var b := Bases(objs, sec, pos);
      && b[i] % 4 == 0 && pos <= b[i] && b[i] + Size(objs[i], sec) <= End(objs, sec, pos)
      && (i < j ==> b[i] + Size(objs[i], sec) <= b[j])
  {
    var next := Align(pos, 4) + Size(objs[0], sec);
    EndLater(objs[1..], sec, next);
    if i > 0 {
      BaseOk(objs[1..], sec, next, i - 1, if j > 0 then j - 1 else 0);
    } else if j > 0 {
      BaseOk(objs[1..], sec, next, j - 1, j - 1);
    }
  }

  lemma {:induction false} EndLater(objs: seq<Obj>, sec: nat, pos: nat)
    ensures pos <= End(objs, sec, pos)
  {
    if objs == [] {
    } else {
      EndLater(objs[1..], sec, Align(pos, 4) + Size(objs[0], sec));
    }
  }

  function Base(lay: Layout, i: nat, sec: nat): nat
    requires |lay.base| == 4 && 1 <= sec <= 3 && i < |lay.base[sec]|
  {
    lay.base[sec][i]
  }

  lemma SectionOk(objs: seq<Obj>, textAddr: nat, i: nat, s: nat, j: nat)
    requires i < |objs| && 1 <= s <= 3 && j < |objs|
    ensures var lay := Place(objs, textAddr);
      && Placed(objs, lay) && Base(lay, i, s) % 4 == 0
      && lay.starts[s] <= Base(lay, i, s) && Base(lay, i, s) + Size(objs[i], s) <= lay.ends[s]
      && (i < j ==> Base(lay, i, s) + Size(objs[i], s) <= Base(lay, j, s))
  {
    hide Align, Bases, End, Size;
    var lay := Place(objs, textAddr);
    BaseOk(objs, s, lay.starts[s], i, j);
    assert s == 1 || s == 2 || s == 3;
  }

  lemma SectionOrder(objs: seq<Obj>, textAddr: nat)
    ensures var lay := Place(objs, textAddr);
      Placed(objs, lay) && textAddr == lay.starts[1] <= lay.ends[1] <= lay.starts[2] <= lay.ends[2] <= lay.starts[3]
  {
    hide Bases, End, Size;
    var lay := Place(objs, textAddr);
    EndLater(objs, 1, textAddr);
    EndLater(objs, 2, lay.starts[2]);
  }

  /** All sections of all objects are 4-aligned and pairwise disjoint. */
  lemma LayoutOk(objs: seq<Obj>, textAddr: nat, i: nat, s: nat, j: nat, t: nat)
    requires i < |objs| && j < |objs| && 1 <= s <= 3 && 1 <= t <= 3 && (i, s) != (j, t)
    ensures var lay := Place(objs, textAddr);
      && Placed(objs, lay) && Base(lay, i, s) % 4 == 0
      && (Base(lay, i, s) + Size(objs[i], s) <= Base(lay, j, t)
        || Base(lay, j, t) + Size(objs[j], t) <= Base(lay, i, s))
  {
    hide Place, Size;
    SectionOk(objs, textAddr, i, s, j);
    SectionOk(objs, textAddr, j, t, i);
    SectionOrder(objs, textAddr);
  }

  // ---- fields to patch ----

  datatype Fix = Fix(at: nat, width: nat, value: Word)

  predicate FixApart(a: Fix, b: Fix) {
    a.at + a.width <= b.at || b.at + b.width <= a.at
  }

  predicate AllApart(a: Fix, fs: seq<Fix>) {
    forall k :: 0 <= k < |fs| ==> FixApart(a, fs[k])
  }

  predicate Pairwise(fs: seq<Fix>) {
    fs != [] ==> AllApart(fs[0], fs[1..]) && Pairwise(fs[1..])
  }

  predicate Fits(fs: seq<Fix>, n: nat) {
    forall k :: 0 <= k < |fs| ==> fs[k].at + fs[k].width <= n
  }

  predicate Covers(f: Fix, x: nat) {
    f.at <= x < f.at + f.width
  }

  function Patch(img: seq<Byte>, fs: seq<Fix>): (r: seq<Byte>)
    requires Fits(fs, |img|)
    ensures |r| == |img|
    decreases |fs|
  {
    if fs == [] then img
    else
      assert forall k :: 0 <= k < |fs[1..]| ==> fs[1..][k] == fs[k + 1];
      Patch(Machine.Wr(img, fs[0].at, fs[0].value, fs[0].width), fs[1..])
  }

  /** Bytes no fix covers stay. */
  lemma {:induction false} PatchOutside(img: seq<Byte>, fs: seq<Fix>, x: nat)
    requires Fits(fs, |img|) && x < |img| && forall k :: 0 <= k < |fs| ==> !Covers(fs[k], x)
    ensures Patch(img, fs)[x] == img[x]
    decreases |fs|
  {
    if fs == [] {
    } else {
      var next := Machine.Wr(img, fs[0].at, fs[0].value, fs[0].width);
      assert !Covers(fs[0], x);
      assert forall k :: 0 <= k < |fs[1..]| ==> fs[1..][k] == fs[k + 1];
      PatchOutside(next, fs[1..], x);
      assert next[x] == img[x];
      hide Machine.Wr;
    }
  }

  /** Fixes that do not overlap all read back. */
  lemma {:induction false} PatchField(img: seq<Byte>, fs: seq<Fix>, k: nat)
    requires Fits(fs, |img|) && Pairwise(fs) && k < |fs|
    ensures Machine.Rd(Patch(img, fs), fs[k].at, fs[k].width) == fs[k].value % Pow2(8 * fs[k].width)
    decreases |fs|
  {
    hide Machine.Rd, Machine.Wr, Pow2;
    var next := Machine.Wr(img, fs[0].at, fs[0].value, fs[0].width);
    assert forall k :: 0 <= k < |fs[1..]| ==> fs[1..][k] == fs[k + 1];
    if k > 0 {
      PatchField(next, fs[1..], k - 1);
    } else {
      Machine.ReadBack(img, fs[0].at, fs[0].value, fs[0].width);
      var out := Patch(next, fs[1..]);
      forall x | fs[0].at <= x < fs[0].at + fs[0].width
        ensures out[x] == next[x]
      {
        assert forall m :: 0 <= m < |fs[1..]| ==> FixApart(fs[0], fs[1..][m]);
        PatchOutside(next, fs[1..], x);
      }
      Machine.SameRead(out, next, fs[0].at, fs[0].width);
    }
  }

  // ---- symbols ----

  function SymAddr(lay: Layout, i: nat, sym: Sym): Word
    requires |lay.base| == 4 && forall s :: 1 <= s <= 3 ==> i < |lay.base[s]|
  {
    if 1 <= sym.sec <= 3 then Repr(Base(lay, i, sym.sec) + sym.val) else sym.val
  }

  predicate DefinedAt(objs: seq<Obj>, i: nat, j: nat, name: string) {
    i < |objs| && j < |objs[i].syms| && objs[i].syms[j].global && objs[i].syms[j].sec != 0
      && objs[i].syms[j].name == name
  }

  /** The first definition of a global name, searching from object i, symbol j. */
  function FindGlobal(objs: seq<Obj>, i: nat, j: nat, name: string): (r: Option<(nat, nat)>)
    ensures r.Some? ==> DefinedAt(objs, r.value.0, r.value.1, name)
    decreases |objs| - i, if i < |objs| then |objs[i].syms| - j else 0
  {
    if i >= |objs| then None
    else if j >= |objs[i].syms| then FindGlobal(objs, i + 1, 0, name)
    else if DefinedAt(objs, i, j, name) then Some((i, j))
    else FindGlobal(objs, i, j + 1, name)
  }

  /** _etext, _edata and _end. */
  function Special(lay: Layout, name: string): Option<Word>
    requires |lay.ends| == 4
  {
    if name == "_etext" then Some(Repr(lay.ends[1]))
    else if name == "_edata" then Some(Repr(lay.ends[2]))
    else if name == "_end" then Some(Repr(lay.ends[3]))
    else None
  }

  function Global(objs: seq<Obj>, lay: Layout, name: string): Option<Word>
    requires Placed(objs, lay)
  {
    match FindGlobal(objs, 0, 0, name)
    case Some((i, j)) => Some(SymAddr(lay, i, objs[i].syms[j]))
    case None => Special(lay, name)
  }

  /** The address a relocation's symbol stands for. */
  function Target(objs: seq<Obj>, lay: Layout, i: nat, j: nat): Option<Word>
    requires Placed(objs, lay) && i < |objs| && j < |objs[i].syms|
  {
    var sym := objs[i].syms[j];
    if sym.sec == 0 then Global(objs, lay, sym.name) else Some(SymAddr(lay, i, sym))
  }

  /** Symbol resolution reports no error: no name is defined twice, no linker symbol is defined by
      an object, and every symbol a relocation uses has an address. */
  ghost predicate Resolved(objs: seq<Obj>, lay: Layout)
    requires Placed(objs, lay)
  {
    && (forall i, j, k, l, name :: DefinedAt(objs, i, j, name) && DefinedAt(objs, k, l, name) ==> i == k && j == l)
    && (forall i, j, name :: DefinedAt(objs, i, j, name) ==> Special(lay, name).None?)
    && (forall i, r :: 0 <= i < |objs| && 0 <= r < |objs[i].rels| && objs[i].rels[r].sym < |objs[i].syms| ==>
          Target(objs, lay, i, objs[i].rels[r].sym).Some?)
  }

  /** A name means its one definition, wherever it stands. */
  lemma {:induction false} GlobalIs(objs: seq<Obj>, lay: Layout, i: nat, j: nat, name: string)
    requires Placed(objs, lay) && Resolved(objs, lay) && DefinedAt(objs, i, j, name)
    ensures Global(objs, lay, name) == Some(SymAddr(lay, i, objs[i].syms[j]))
  {
    FindSome(objs, 0, 0, i, j, name);
  }

  lemma {:induction false} FindSome(objs: seq<Obj>, a: nat, b: nat, i: nat, j: nat, name: string)
    requires DefinedAt(objs, i, j, name) && (a < i || (a == i && b <= j))
    ensures FindGlobal(objs, a, b, name).Some?
    decreases |objs| - a, if a < |objs| then |objs[a].syms| - b else 0
  {
    if b >= |objs[a].syms| {
      FindSome(objs, a + 1, 0, i, j, name);
    } else if !DefinedAt(objs, a, b, name) {
      FindSome(objs, a, b + 1, i, j, name);
    }
  }

  // ---- relocation ----

  function FieldAddr(lay: Layout, i: nat, r: Rel): nat
    requires |lay.base| == 4 && 1 <= r.sec <= 2 && i < |lay.base[r.sec]|
  {
    Base(lay, i, r.sec) + r.off
  }

  /** S + A, or S + A - (P + 4). */
  function FieldValue(objs: seq<Obj>, lay: Layout, i: nat, r: Rel): Word
    requires Placed(objs, lay) && i < |objs| && r.sym < |objs[i].syms| && 1 <= r.sec <= 2
  {
    var s := Target(objs, lay, i, r.sym);
    var v := Repr((if s.Some? then s.value else 0) + r.add);
    if r.kind.Rel32? then Repr(v - (FieldAddr(lay, i, r) + 4)) else v
  }

  ghost predicate Good(objs: seq<Obj>) {
    forall i :: 0 <= i < |objs| ==> GoodObj(objs[i])
  }

  /** Relocation rel of object obj. */
  datatype Tag = Tag(obj: nat, rel: nat)

  predicate Tagged(objs: seq<Obj>, t: Tag) {
    t.obj < |objs| && t.rel < |objs[t.obj].rels|
  }

  predicate From(t: Tag, i: nat, r: nat) {
    i < t.obj || (i == t.obj && r <= t.rel)
  }

  /** The relocations in the order the linker applies them, from relocation r of object i on. */
  function Tags(objs: seq<Obj>, i: nat, r: nat): (ts: seq<Tag>)
    ensures forall k :: 0 <= k < |ts| ==> Tagged(objs, ts[k]) && From(ts[k], i, r)
    ensures forall a, b :: 0 <= a < b < |ts| ==> ts[a] != ts[b]
    decreases |objs| - i, if i < |objs| then |objs[i].rels| - r else 0
  {
    if i >= |objs| then []
    else if r >= |objs[i].rels| then Tags(objs, i + 1, 0)
    else [Tag(i, r)] + Tags(objs, i, r + 1)
  }

  lemma {:induction false} TagsHas(objs: seq<Obj>, i: nat, r: nat, t: Tag)
    requires Tagged(objs, t) && From(t, i, r)
    ensures t in Tags(objs, i, r)
    decreases |objs| - i, if i < |objs| then |objs[i].rels| - r else 0
  {
    if r >= |objs[i].rels| {
      TagsHas(objs, i + 1, 0, t);
    } else if t != Tag(i, r) {
      TagsHas(objs, i, r + 1, t);
    }
  }

  /** The field of a relocation, as an offset into the image. */
  function FixOf(objs: seq<Obj>, textAddr: nat, t: Tag): Fix
    requires Good(objs) && Tagged(objs, t)
  {
    var lay, r := Place(objs, textAddr), objs[t.obj].rels[t.rel];
    SectionOk(objs, textAddr, t.obj, r.sec, t.obj);
    SectionOrder(objs, textAddr);
    Fix(FieldAddr(lay, t.obj, r) - textAddr, Width(r), FieldValue(objs, lay, t.obj, r))
  }

  function FixesOf(objs: seq<Obj>, textAddr: nat, ts: seq<Tag>): (fs: seq<Fix>)
    requires Good(objs) && forall k :: 0 <= k < |ts| ==> Tagged(objs, ts[k])
    ensures |fs| == |ts| && forall k :: 0 <= k < |ts| ==> fs[k] == FixOf(objs, textAddr, ts[k])
  {
    if ts == [] then [] else [FixOf(objs, textAddr, ts[0])] + FixesOf(objs, textAddr, ts[1..])
  }

  /** The relocations of an object do not overlap. */
  predicate RelsApart(o: Obj) {
    forall a, b :: 0 <= a < b < |o.rels| && o.rels[a].sec == o.rels[b].sec ==>
      o.rels[a].off + Width(o.rels[a]) <= o.rels[b].off || o.rels[b].off + Width(o.rels[b]) <= o.rels[a].off
  }

  /** Two fields of the image do not overlap. */
  lemma FieldsApart(objs: seq<Obj>, textAddr: nat, t: Tag, u: Tag)
    requires Good(objs) && (forall m :: 0 <= m < |objs| ==> RelsApart(objs[m]))
    requires Tagged(objs, t) && Tagged(objs, u) && t != u
    ensures FixApart(FixOf(objs, textAddr, t), FixOf(objs, textAddr, u))
  {
    hide Place, FieldValue;
    var a, b := objs[t.obj].rels[t.rel].sec, objs[u.obj].rels[u.rel].sec;
    if (t.obj, a) != (u.obj, b) {
      LayoutOk(objs, textAddr, t.obj, a, u.obj, b);
    }
    assert GoodObj(objs[t.obj]) && GoodObj(objs[u.obj]) && RelsApart(objs[t.obj]);
  }

  lemma {:induction false} FixesPairwise(objs: seq<Obj>, textAddr: nat, ts: seq<Tag>)
    requires Good(objs) && (forall m :: 0 <= m < |objs| ==> RelsApart(objs[m]))
    requires (forall k :: 0 <= k < |ts| ==> Tagged(objs, ts[k])) && forall a, b :: 0 <= a < b < |ts| ==> ts[a] != ts[b]
    ensures Pairwise(FixesOf(objs, textAddr, ts))
  {
    hide FixOf, RelsApart, Good;
    if ts == [] {
    } else {
      var fs := FixesOf(objs, textAddr, ts);
      FixesPairwise(objs, textAddr, ts[1..]);
      forall k | 0 <= k < |fs[1..]|
        ensures FixApart(fs[0], fs[1..][k])
      {
        FieldsApart(objs, textAddr, ts[0], ts[k + 1]);
      }
      assert fs[1..] == FixesOf(objs, textAddr, ts[1..]);
    }
  }

  // ---- the image ----

  /** total: the image ends with the data, or with the text when there is no data. */
  function ImageSize(lay: Layout): nat
    requires |lay.ends| == 4 && |lay.starts| == 4
  {
    var end := if lay.ends[2] == lay.starts[2] then lay.ends[1] else lay.ends[2];
    if end >= lay.starts[1] then end - lay.starts[1] else 0
  }

  function Copy(img: seq<Byte>, at: nat, b: seq<Byte>): seq<Byte>
    requires b != [] ==> at + |b| <= |img|
  {
    if b == [] then img else img[..at] + b + img[at + |b|..]
  }

  /** The section of object i is in the image. */
  lemma InImage(objs: seq<Obj>, textAddr: nat, i: nat, s: nat)
    requires i < |objs| && 1 <= s <= 2
    ensures var lay := Place(objs, textAddr);
      && Placed(objs, lay) && lay.starts[1] == textAddr <= lay.ends[1] <= lay.starts[2] <= lay.ends[2]
      && textAddr <= Base(lay, i, s)
      && (Bytes(objs[i], s) != [] ==> Base(lay, i, s) - textAddr + |Bytes(objs[i], s)| <= ImageSize(lay))
  {
    hide Place;
    SectionOk(objs, textAddr, i, s, i);
    SectionOrder(objs, textAddr);
  }

  /** The sections of objects i and up copied to their places. */
  function Fill(objs: seq<Obj>, textAddr: nat, img: seq<Byte>, i: nat): (r: seq<Byte>)
    requires var lay := Place(objs, textAddr);
      lay.starts[1] <= lay.ends[1] <= lay.starts[2] <= lay.ends[2] && |img| == ImageSize(lay)
    ensures |r| == |img|
    decreases |objs| - i
  {
    if i >= |objs| then img
    else
      var lay := Place(objs, textAddr);
      InImage(objs, textAddr, i, 1);
      InImage(objs, textAddr, i, 2);
      var a := Copy(img, Base(lay, i, 1) - textAddr, objs[i].text);
      Fill(objs, textAddr, Copy(a, Base(lay, i, 2) - textAddr, objs[i].data), i + 1)
  }

  /** Byte x of the image belongs to section s of object i. */
  predicate Owns(objs: seq<Obj>, lay: Layout, i: nat, s: nat, x: nat)
    requires Placed(objs, lay) && 1 <= s <= 2
  {
    i < |objs| && Base(lay, i, s) <= x < Base(lay, i, s) + |Bytes(objs[i], s)|
  }

  /** Filling from object i on puts each section's bytes in place and leaves the rest. */
  lemma {:induction false} FillOk(objs: seq<Obj>, textAddr: nat, img: seq<Byte>, i: nat, j: nat, s: nat, x: nat)
    requires var lay := Place(objs, textAddr);
      lay.starts[1] <= lay.ends[1] <= lay.starts[2] <= lay.ends[2] && |img| == ImageSize(lay) && Placed(objs, lay)
    requires 1 <= s <= 2 && Owns(objs, Place(objs, textAddr), j, s, textAddr + x)
    ensures x < |img|
    ensures Fill(objs, textAddr, img, i)[x]
         == if j >= i then Bytes(objs[j], s)[textAddr + x - Base(Place(objs, textAddr), j, s)] else img[x]
    decreases |objs| - i
  {
    hide Place, Copy;
    InImage(objs, textAddr, j, s);
    if i >= |objs| {
    } else {
      var lay := Place(objs, textAddr);
      InImage(objs, textAddr, i, 1);
      InImage(objs, textAddr, i, 2);
      var y := Base(lay, j, s) - textAddr;
      if (i, 1) != (j, s) {
        LayoutOk(objs, textAddr, i, 1, j, s);
      }
      if (i, 2) != (j, s) {
        LayoutOk(objs, textAddr, i, 2, j, s);
      }
      CopyAt(img, Base(lay, i, 1) - textAddr, objs[i].text, x);
      var a := Copy(img, Base(lay, i, 1) - textAddr, objs[i].text);
      CopyAt(a, Base(lay, i, 2) - textAddr, objs[i].data, x);
      FillOk(objs, textAddr, Copy(a, Base(lay, i, 2) - textAddr, objs[i].data), i + 1, j, s, x);
    }
  }

  lemma CopyAt(img: seq<Byte>, at: nat, b: seq<Byte>, x: nat)
    requires (b != [] ==> at + |b| <= |img|) && x < |img|
    ensures |Copy(img, at, b)| == |img|
    ensures Copy(img, at, b)[x] == if at <= x < at + |b| then b[x - at] else img[x]
  {
  }

  /** Byte x of the image belongs to no section of object i. */
  predicate Misses(objs: seq<Obj>, textAddr: nat, i: nat, x: nat)
    requires Placed(objs, Place(objs, textAddr))
  {
    !Owns(objs, Place(objs, textAddr), i, 1, textAddr + x) && !Owns(objs, Place(objs, textAddr), i, 2, textAddr + x)
  }

  /** Bytes of no section keep what the image held before. */
  lemma {:induction false} FillRest(objs: seq<Obj>, textAddr: nat, img: seq<Byte>, i: nat, x: nat)
    requires var lay := Place(objs, textAddr);
      lay.starts[1] <= lay.ends[1] <= lay.starts[2] <= lay.ends[2] && |img| == ImageSize(lay) && Placed(objs, lay)
    requires x < |img| && forall j :: i <= j < |objs| ==> Misses(objs, textAddr, j, x)
    ensures Fill(objs, textAddr, img, i)[x] == img[x]
    decreases |objs| - i
  {
    hide Place, Copy;
    if i >= |objs| {
    } else {
      var lay := Place(objs, textAddr);
      InImage(objs, textAddr, i, 1);
      InImage(objs, textAddr, i, 2);
      assert Misses(objs, textAddr, i, x);
      CopyAt(img, Base(lay, i, 1) - textAddr, objs[i].text, x);
      var a := Copy(img, Base(lay, i, 1) - textAddr, objs[i].text);
      CopyAt(a, Base(lay, i, 2) - textAddr, objs[i].data, x);
      FillRest(objs, textAddr, Copy(a, Base(lay, i, 2) - textAddr, objs[i].data), i + 1, x);
    }
  }

  // ---- the linked image ----

  function Zeros(n: nat): (z: seq<Byte>)
    ensures |z| == n && forall i :: 0 <= i < n ==> z[i] == 0
  {
    seq(n, i => 0)
  }

  function Filled(objs: seq<Obj>, textAddr: nat): (img: seq<Byte>)
    ensures |img| == ImageSize(Place(objs, textAddr))
  {
    SectionOrder(objs, textAddr);
    Fill(objs, textAddr, Zeros(ImageSize(Place(objs, textAddr))), 0)
  }

  lemma FixFits(objs: seq<Obj>, textAddr: nat, t: Tag)
    requires Good(objs) && Tagged(objs, t)
    ensures FixOf(objs, textAddr, t).at + FixOf(objs, textAddr, t).width <= |Filled(objs, textAddr)|
  {
    hide Place, FieldValue, Fill;
    assert GoodObj(objs[t.obj]);
    InImage(objs, textAddr, t.obj, objs[t.obj].rels[t.rel].sec);
  }

  function Image(objs: seq<Obj>, textAddr: nat): (img: seq<Byte>)
    requires Good(objs)
    ensures |img| == |Filled(objs, textAddr)|
  {
    AllFit(objs, textAddr);
    Patch(Filled(objs, textAddr), FixesOf(objs, textAddr, Tags(objs, 0, 0)))
  }

  lemma AllFit(objs: seq<Obj>, textAddr: nat)
    requires Good(objs)
    ensures Fits(FixesOf(objs, textAddr, Tags(objs, 0, 0)), |Filled(objs, textAddr)|)
  {
    hide FixOf, Filled, Good;
    var ts := Tags(objs, 0, 0);
    forall k | 0 <= k < |ts|
      ensures FixOf(objs, textAddr, ts[k]).at + FixOf(objs, textAddr, ts[k]).width <= |Filled(objs, textAddr)|
    {
      FixFits(objs, textAddr, ts[k]);
    }
  }

  /** A 16-bit field takes the value only if it is a small unsigned or a small negative number. */
  predicate Overflow16(v: Word) {
    0xFFFF < v < 0xFFFF_8000
  }

  /** The link succeeds. */
  ghost predicate Linked(objs: seq<Obj>, textAddr: nat)
    requires Good(objs)
  {
    SectionOrder(objs, textAddr);
    Resolved(objs, Place(objs, textAddr))
    && NoneWide(objs, textAddr, Tags(objs, 0, 0))
  }

  /** Every relocated field holds S + A or S + A - (P + 4), whatever the order of relocations. */
  lemma FieldOk(objs: seq<Obj>, textAddr: nat, t: Tag)
    requires Good(objs) && (forall m :: 0 <= m < |objs| ==> RelsApart(objs[m])) && Tagged(objs, t)
    ensures FixOf(objs, textAddr, t).at + FixOf(objs, textAddr, t).width <= |Image(objs, textAddr)|
    ensures var f, r := FixOf(objs, textAddr, t), objs[t.obj].rels[t.rel];
      Machine.Rd(Image(objs, textAddr), f.at, f.width) == if r.kind.Abs16? then f.value % 0x1_0000 else f.value
  {
    hide Filled, RelsApart, Good, Machine.Rd, Pow2, FixOf, Patch, Pairwise, Fits;
    var ts := Tags(objs, 0, 0);
    TagsHas(objs, 0, 0, t);
    var k :| 0 <= k < |ts| && ts[k] == t;
    AllFit(objs, textAddr);
    FixesPairwise(objs, textAddr, ts);
    PatchField(Filled(objs, textAddr), FixesOf(objs, textAddr, ts), k);
    FixFits(objs, textAddr, t);
    FixWidth(objs, textAddr, t);
    ModWidth(FixOf(objs, textAddr, t).value, objs[t.obj].rels[t.rel]);
  }

  lemma ModWidth(v: Word, r: Rel)
    ensures Pow2(8 * Width(r)) > 0 && v % Pow2(8 * Width(r)) == if r.kind.Abs16? then v % 0x1_0000 else v
  {
    Pow2Of32();
  }

  lemma FixWidth(objs: seq<Obj>, textAddr: nat, t: Tag)
    requires Good(objs) && Tagged(objs, t)
    ensures FixOf(objs, textAddr, t).width == Width(objs[t.obj].rels[t.rel])
  {
  }

  /** Every other byte of the image is its section's byte. */
  lemma ByteOk(objs: seq<Obj>, textAddr: nat, j: nat, s: nat, x: nat)
    requires Good(objs) && 1 <= s <= 2 && Placed(objs, Place(objs, textAddr))
      && Owns(objs, Place(objs, textAddr), j, s, textAddr + x)
    requires forall t :: Tagged(objs, t) ==> !Covers(FixOf(objs, textAddr, t), x)
    ensures x < |Image(objs, textAddr)|
    ensures Image(objs, textAddr)[x] == Bytes(objs[j], s)[textAddr + x - Base(Place(objs, textAddr), j, s)]
  {
    hide FixOf, Good, Fill, Patch, Place;
    var ts := Tags(objs, 0, 0);
    SectionOrder(objs, textAddr);
    FillOk(objs, textAddr, Zeros(ImageSize(Place(objs, textAddr))), 0, j, s, x);
    AllFit(objs, textAddr);
    PatchOutside(Filled(objs, textAddr), FixesOf(objs, textAddr, ts), x);
  }

  /** Gaps between sections are zero. */
  lemma GapOk(objs: seq<Obj>, textAddr: nat, x: nat)
    requires Good(objs) && x < |Image(objs, textAddr)| && Placed(objs, Place(objs, textAddr))
    requires forall j :: 0 <= j < |objs| ==> Misses(objs, textAddr, j, x)
    ensures Image(objs, textAddr)[x] == 0
  {
    hide Fill, Patch, Place, FixOf, Good, Owns;
    var ts := Tags(objs, 0, 0);
    SectionOrder(objs, textAddr);
    FillRest(objs, textAddr, Zeros(ImageSize(Place(objs, textAddr))), 0, x);
    AllFit(objs, textAddr);
    forall k | 0 <= k < |ts|
      ensures !Covers(FixOf(objs, textAddr, ts[k]), x)
    {
      FixInside(objs, textAddr, ts[k], x);
    }
    PatchOutside(Filled(objs, textAddr), FixesOf(objs, textAddr, ts), x);
  }

  lemma FixInside(objs: seq<Obj>, textAddr: nat, t: Tag, x: nat)
    requires Good(objs) && Tagged(objs, t) && Placed(objs, Place(objs, textAddr))
    ensures Covers(FixOf(objs, textAddr, t), x) ==> !Misses(objs, textAddr, t.obj, x)
  {
    hide Place, FieldValue;
    assert GoodObj(objs[t.obj]);
  }

  // ---- displacements the assembler writes itself ----

  /** rel32 within one section: the displacement from the end of the field. */
  function Direct(target: Word, loc: nat): Word {
    Repr(target - (loc + 4))
  }

  lemma DirectAnyBase(base: nat, target: Word, loc: nat)
    ensures Repr(Repr(Repr(base) + target) - (base + loc + 4)) == Direct(target, loc)
  {
    ReprAdd(base, target);
    WordRepr(target);
    ReprAdd(base + target, base + loc + 4);
    ReprAdd(Repr(base + target), base + loc + 4);
    WordRepr(Repr(base + target));
    assert base + target - (base + loc + 4) == target - (loc + 4);
  }

  /** The symbol of relocation r is the start of the relocation's own section. */
  predicate OwnSection(o: Obj, r: Rel) {
    r.sym < |o.syms| && o.syms[r.sym].sec == r.sec && o.syms[r.sym].val == 0
  }

  /** Wherever the sections are placed, a REL32 relocation against its own section's symbol puts into the
      image the displacement the assembler would have written itself. */
  lemma DirectIsRelative(objs: seq<Obj>, textAddr: nat, t: Tag)
    requires Good(objs) && (forall m :: 0 <= m < |objs| ==> RelsApart(objs[m])) && Tagged(objs, t)
    requires var r := objs[t.obj].rels[t.rel]; r.kind.Rel32? && OwnSection(objs[t.obj], r)
    ensures var f, r := FixOf(objs, textAddr, t), objs[t.obj].rels[t.rel];
      && f.at + 4 <= |Image(objs, textAddr)|
      && Machine.Rd4(Image(objs, textAddr), f.at) == Direct(r.add, r.off)
  {
    hide Image, RelsApart, Machine.Rd, Place, Repr, Direct;
    FieldOk(objs, textAddr, t);
    var r := objs[t.obj].rels[t.rel];
    assert GoodObj(objs[t.obj]);
    SectionOk(objs, textAddr, t.obj, r.sec, t.obj);
    OwnTarget(objs, Place(objs, textAddr), t.obj, r);
    DirectAnyBase(Base(Place(objs, textAddr), t.obj, r.sec), r.add, r.off);
  }

  lemma OwnTarget(objs: seq<Obj>, lay: Layout, i: nat, r: Rel)
    requires Placed(objs, lay) && i < |objs| && 1 <= r.sec <= 2 && OwnSection(objs[i], r)
    ensures Target(objs, lay, i, r.sym) == Some(Repr(Base(lay, i, r.sec)))
  {
  }

  // ---- the loops as the linker runs them ----

  /** The running position of one section. */
  method PlaceSection(objs: seq<Obj>, sec: nat, start: nat) returns (bases: seq<nat>, pos: nat)
    ensures bases == Bases(objs, sec, start) && pos == End(objs, sec, start)
  {
    hide Align, Size;
    bases, pos := [], start;
    var i := 0;
    assert objs[0..] == objs;
    while i < |objs|
      invariant i <= |objs| && Bases(objs, sec, start) == bases + Bases(objs[i..], sec, pos)
      invariant End(objs, sec, start) == End(objs[i..], sec, pos)
    {
      assert objs[i..][1..] == objs[i + 1..];
      pos := Align(pos, 4);
      bases := bases + [pos];
      pos := pos + Size(objs[i], sec);
      i := i + 1;
    }
  }

  /** Stores the low bytes of v in place. */
  method WriteField(image: array<Byte>, at: nat, v: nat, width: nat)
    requires at + width <= image.Length
    modifies image
    ensures image[..] == Machine.Wr(old(image[..]), at, v, width)
  {
    var k, rest := 0, v;
    while k < width
      invariant k <= width && Machine.Wr(image[..], at + k, rest, width - k) == Machine.Wr(old(image[..]), at, v, width)
    {
      ghost var was := image[..];
      image[at + k] := rest % 256;
      assert image[..] == was[at + k := rest % 256];
      rest, k := rest / 256, k + 1;
    }
  }

  /** Relocation t does not fit its 16-bit field. */
  predicate TooWide(objs: seq<Obj>, textAddr: nat, t: Tag)
    requires Good(objs) && Tagged(objs, t)
  {
    objs[t.obj].rels[t.rel].kind.Abs16? && Overflow16(FixOf(objs, textAddr, t).value)
  }

  predicate NoneWide(objs: seq<Obj>, textAddr: nat, ts: seq<Tag>)
    requires Good(objs) && forall k :: 0 <= k < |ts| ==> Tagged(objs, ts[k])
  {
    forall k :: 0 <= k < |ts| ==> !TooWide(objs, textAddr, ts[k])
  }

  /** The relocation loop: object by object, relocation by relocation, in the image itself; an overflow is
      counted and the low half stored. */
  method Relocate(objs: seq<Obj>, textAddr: nat, image: array<Byte>) returns (errors: nat)
    requires Good(objs) && image[..] == Filled(objs, textAddr)
    modifies image
    ensures image[..] == Image(objs, textAddr)
    ensures errors == 0 <==> NoneWide(objs, textAddr, Tags(objs, 0, 0))
  {
    hide FixOf, Filled, Good, TooWide;
    errors := 0;
    ghost var img := image[..];
    AllFit(objs, textAddr);
    ghost var all := FixesOf(objs, textAddr, Tags(objs, 0, 0));
    var i := 0;
    while i < |objs|
      invariant i <= |objs| && Fits(FixesOf(objs, textAddr, Tags(objs, i, 0)), image.Length)
      invariant Patch(image[..], FixesOf(objs, textAddr, Tags(objs, i, 0))) == Patch(img, all)
      invariant NoneWide(objs, textAddr, Tags(objs, 0, 0)) <==>
        errors == 0 && NoneWide(objs, textAddr, Tags(objs, i, 0))
    {
      var r := 0;
      while r < |objs[i].rels|
        invariant r <= |objs[i].rels| && Fits(FixesOf(objs, textAddr, Tags(objs, i, r)), image.Length)
        invariant Patch(image[..], FixesOf(objs, textAddr, Tags(objs, i, r))) == Patch(img, all)
        invariant NoneWide(objs, textAddr, Tags(objs, 0, 0)) <==>
          errors == 0 && NoneWide(objs, textAddr, Tags(objs, i, r))
      {
        NextFix(objs, textAddr, i, r, image[..]);
        NextWide(objs, textAddr, i, r);
        if TooWide(objs, textAddr, Tag(i, r)) {
          errors := errors + 1;
        }
        var f := FixOf(objs, textAddr, Tag(i, r));
        WriteField(image, f.at, f.value, f.width);
        r := r + 1;
      }
      assert Tags(objs, i, r) == Tags(objs, i + 1, 0);
      i := i + 1;
    }
    assert Tags(objs, i, 0) == [];
  }

  lemma NextWide(objs: seq<Obj>, textAddr: nat, i: nat, r: nat)
    requires Good(objs) && i < |objs| && r < |objs[i].rels|
    ensures NoneWide(objs, textAddr, Tags(objs, i, r))
      <==> !TooWide(objs, textAddr, Tag(i, r)) && NoneWide(objs, textAddr, Tags(objs, i, r + 1))
  {
    hide TooWide, Good;
    var ts, next := Tags(objs, i, r), Tags(objs, i, r + 1);
    assert ts[0] == Tag(i, r) && ts[1..] == next;
    assert forall k :: 0 <= k < |next| ==> next[k] == ts[k + 1];
  }

  lemma NextFix(objs: seq<Obj>, textAddr: nat, i: nat, r: nat, img: seq<Byte>)
    requires Good(objs) && i < |objs| && r < |objs[i].rels| && Fits(FixesOf(objs, textAddr, Tags(objs, i, r)), |img|)
    ensures var f := FixOf(objs, textAddr, Tag(i, r));
      && f.at + f.width <= |img| && Fits(FixesOf(objs, textAddr, Tags(objs, i, r + 1)), |img|)
      && Patch(img, FixesOf(objs, textAddr, Tags(objs, i, r)))
         == Patch(Machine.Wr(img, f.at, f.value, f.width), FixesOf(objs, textAddr, Tags(objs, i, r + 1)))
  {
    hide FixOf, Good, Machine.Wr, Patch, Fits, FixesOf;
    var ts, next := Tags(objs, i, r), Tags(objs, i, r + 1);
    assert ts[0] == Tag(i, r) && ts[1..] == next;
    FixesStep(objs, textAddr, ts);
    PatchStep(img, FixesOf(objs, textAddr, ts));
  }

  lemma FixesStep(objs: seq<Obj>, textAddr: nat, ts: seq<Tag>)
    requires Good(objs) && ts != [] && forall k :: 0 <= k < |ts| ==> Tagged(objs, ts[k])
    ensures forall k :: 0 <= k < |ts[1..]| ==> Tagged(objs, ts[1..][k])
    ensures FixesOf(objs, textAddr, ts) == [FixOf(objs, textAddr, ts[0])] + FixesOf(objs, textAddr, ts[1..])
  {
    hide FixOf, Good;
  }

  lemma PatchStep(img: seq<Byte>, fs: seq<Fix>)
    requires fs != [] && Fits(fs, |img|)
    ensures fs[0].at + fs[0].width <= |img| && Fits(fs[1..], |img|)
    ensures Patch(img, fs) == Patch(Machine.Wr(img, fs[0].at, fs[0].value, fs[0].width), fs[1..])
  {
    hide Machine.Wr;
    assert forall k :: 0 <= k < |fs[1..]| ==> fs[1..][k] == fs[k + 1];
  }
}
