/** Exceptions with paging on. The memory system is RAM seen through the two-level tables that lie in
    it: translating an address marks a table word, so a frame survives when it is apart from them. */
module Paging {
  import opened Words
  import opened Exceptions
  import Tlb

  type Ram = seq<Byte>

  const VEC_PF: nat := 14
  const PAGES: nat := 0x10_0000

  // ---- RAM as table words ----

  predicate HasWord(m: Ram, x: nat) {
    4 * x + 4 <= |m|
  }

  function WordAt(m: Ram, x: nat): Tlb.Pte
    requires HasWord(m, x)
  {
    Tlb.Decode(Machine.Rd4(m, 4 * x))
  }

  function Decoded(m: Ram): Tlb.Ram {
    map x: nat | x < |m| && HasWord(m, x) :: WordAt(m, x)
  }

  function PutWord(m: Ram, x: nat, e: Tlb.Pte): (r: Ram)
    requires HasWord(m, x)
    ensures |r| == |m| && forall i :: 0 <= i < |m| && i / 4 != x ==> r[i] == m[i]
  {
    Machine.Wr(m, 4 * x, Tlb.Encode(e), 4)
  }

  // ---- the memory system ----

  /** The table words a translation of va reads. */
  function PdeOf(base: nat, va: nat): nat {
    Tlb.PdeAt(base, Tlb.PageOf(va))
  }

  /** pg_translate for the supervisor, by walking: the physical address, with the table word marked. */
  function Translate(m: Ram, base: nat, va: nat, acc: Tlb.Access): (r: Access<Ram>)
    ensures |r.mem| == |m|
  {
    var (o, t) := Tlb.Walk(Decoded(m), base, va, acc, false);
    match o
    case PageFault(at, code) => Trap(VEC_PF, code, at, m)
    case Bus(x) => Trap(VEC_BUS, 0, 4 * x, m)
    case Address(pa) =>
      var y := Tlb.PteAt(Decoded(m)[PdeOf(base, va)], Tlb.PageOf(va));
      Done(pa, PutWord(m, y, t[y]))
  }

  /** Where the four bytes of a word are, or the trap on the way. */
  datatype Located = Located(ps: seq<nat>, mem: Ram) | Missed(trap: Access<Ram>)

  function Four(p: nat): seq<nat> {
    [p, p + 1, p + 2, p + 3]
  }

  function Byte4(a: nat, i: nat): nat {
    (a + i) % WORD
  }

  function Each(m: Ram, base: nat, a: nat, i: nat, acc: Tlb.Access): (r: Located)
    requires i <= 4
    ensures r.Located? ==> |r.ps| == 4 - i && |r.mem| == |m|
    ensures r.Missed? ==> r.trap.Trap?
    decreases 4 - i
  {
    if i == 4 then Located([], m)
    else
      var p := Translate(m, base, Byte4(a, i), acc);
      if p.Trap? then Missed(p)
      else
        match Each(p.mem, base, a, i + 1, acc)
        case Missed(t) => Missed(t)
        case Located(ps, n) => Located([p.value] + ps, n)
  }

  predicate Crosses(a: nat) {
    a % 4096 > 4092
  }

  /** A word that crosses a page is translated byte by byte, any other at once. */
  function Locate(m: Ram, base: nat, a: nat, acc: Tlb.Access): (r: Located)
    ensures r.Located? ==> |r.ps| == 4 && |r.mem| == |m|
    ensures r.Missed? ==> r.trap.Trap?
  {
    if Crosses(a) then Each(m, base, a, 0, acc)
    else
      var p := Translate(m, base, a, acc);
      if p.Trap? then Missed(p) else Located(Four(p.value), p.mem)
  }

  function ReadBytes(m: Ram, ps: seq<nat>): Access<Ram> {
    if ps == [] then Done(0, m)
    else if ps[0] >= |m| then Trap(VEC_BUS, 0, ps[0], m)
    else
      var r := ReadBytes(m, ps[1..]);
      if r.Trap? then r else Done(m[ps[0]] + 256 * r.value, m)
  }

  function WriteBytes(m: Ram, ps: seq<nat>, v: nat): (r: Access<Ram>)
    ensures |r.mem| == |m|
    ensures forall i :: 0 <= i < |m| && i !in ps ==> r.mem[i] == m[i]
    decreases |ps|
  {
    if ps == [] then Done(0, m)
    else if ps[0] >= |m| then Trap(VEC_BUS, 0, ps[0], m)
    else WriteBytes(m[ps[0] := v % 256], ps[1..], v / 256)
  }

  /** vm_read of a word. */
  function LoadWord(m: Ram, base: nat, a: nat): Access<Ram> {
    match Locate(m, base, a, Tlb.Load)
    case Missed(t) => t
    case Located(ps, n) =>
      if ps[3] != ps[0] + 3 then ReadBytes(n, ps)
      else if InRam(n, ps[0]) then Done(Machine.Rd4(n, ps[0]), n)
      else Trap(VEC_BUS, 0, ps[0], n)
  }

  /** vm_write of a word. */
  function StoreWord(m: Ram, base: nat, a: nat, v: nat): Access<Ram> {
    match Locate(m, base, a, Tlb.Save)
    case Missed(t) => t
    case Located(ps, n) =>
      if ps[3] != ps[0] + 3 then WriteBytes(n, ps, v)
      else if InRam(n, ps[0]) then Done(0, Machine.Wr(n, ps[0], v, 4))
      else Trap(VEC_BUS, 0, ps[0], n)
  }

  function PagedRam(base: nat): Memory<Ram> {
    Memory((m: Ram, a: nat) => LoadWord(m, base, a), (m: Ram, a: nat, v: nat) => StoreWord(m, base, a, v))
  }

  // ---- marking ----

  lemma EncodeSmall(e: Tlb.Pte)
    requires e.frame < PAGES && e.other < 64
    ensures Tlb.Encode(e) < WORD
  {
  }

  lemma DecodeSmall(n: nat)
    requires n < WORD
    ensures Tlb.Decode(n).frame < PAGES && Tlb.Decode(n).other < 64
  {
  }

  /** Writing a table word changes that word and no other. */
  lemma WordPut(m: Ram, x: nat, e: Tlb.Pte, z: nat)
    requires HasWord(m, x) && HasWord(m, z) && e.frame < PAGES && e.other < 64
    ensures WordAt(PutWord(m, x, e), z) == if z == x then e else WordAt(m, z)
  {
    hide Tlb.Encode, Tlb.Decode, Machine.Rd, Machine.Wr;
    EncodeSmall(e);
    Tlb.DecodeEncode(e);
    if z == x {
      Machine.ReadBack4(m, 4 * x, Tlb.Encode(e));
    } else {
      Machine.SameRead(m, PutWord(m, x, e), 4 * z, 4);
    }
  }

  /** The byte-level translation is the walk: same outcome, and RAM decodes to the words it leaves. */
  lemma TranslateIsWalk(m: Ram, base: nat, va: nat, acc: Tlb.Access)
    ensures var r := Translate(m, base, va, acc); var (o, t) := Tlb.Walk(Decoded(m), base, va, acc, false);
      && (r.Done? <==> o.Address?) && (r.Done? ==> r.value == o.pa)
      && Decoded(r.mem) == t
  {
    hide Tlb.Encode, Tlb.Decode, Machine.Rd4, PutWord;
    var r := Translate(m, base, va, acc);
    var (o, t) := Tlb.Walk(Decoded(m), base, va, acc, false);
    if o.Address? {
      var y := Tlb.PteAt(Decoded(m)[PdeOf(base, va)], Tlb.PageOf(va));
      DecodeSmall(Machine.Rd4(m, 4 * y));
      forall z: nat | HasWord(m, z)
        ensures WordAt(r.mem, z) == t[z]
      {
        WordPut(m, y, t[y], z);
      }
    }
  }

  // ---- where a page is ----

  /** The word of va's page-table entry, given its directory entry. */
  function PteIx(m: Ram, base: nat, va: nat): nat
    requires HasWord(m, PdeOf(base, va))
  {
    Tlb.PteAt(WordAt(m, PdeOf(base, va)), Tlb.PageOf(va))
  }

  predicate Mapped(m: Ram, base: nat, va: nat) {
    && HasWord(m, PdeOf(base, va)) && WordAt(m, PdeOf(base, va)).p
    && HasWord(m, PteIx(m, base, va)) && WordAt(m, PteIx(m, base, va)).p
  }

  function PteOf(m: Ram, base: nat, va: nat): Tlb.Pte
    requires Mapped(m, base, va)
  {
    WordAt(m, PteIx(m, base, va))
  }

  function Phys(m: Ram, base: nat, va: nat): nat
    requires Mapped(m, base, va)
  {
    PteOf(m, base, va).frame * 4096 + va % 4096
  }

  predicate Allows(e: Tlb.Pte, acc: Tlb.Access) {
    (acc == Tlb.Save ==> e.w) && (acc == Tlb.Fetch ==> e.x)
  }

  lemma TranslateIs(m: Ram, base: nat, va: nat, acc: Tlb.Access)
    ensures var r := Translate(m, base, va, acc);
      && (r.Done? <==> Mapped(m, base, va) && Allows(PteOf(m, base, va), acc))
      && (r.Done? ==> r.value == Phys(m, base, va)
                      && r.mem == PutWord(m, PteIx(m, base, va), Tlb.Marked(PteOf(m, base, va), acc)))
  {
    hide Tlb.Encode, Tlb.Decode, Machine.Rd4, PutWord;
    var t := Decoded(m);
    assert forall x: nat :: x in t <==> HasWord(m, x);
  }

  // ---- a frame apart from the tables ----

  /** Physical addresses of virtual byte addresses. */
  type Home = map<nat, nat>

  ghost predicate HomeWord(home: Home, z: nat) {
    exists va :: va in home && home[va] / 4 == z
  }

  /** No table word, of any page, holds a byte of the home. */
  ghost predicate Apart(m: Ram, base: nat, home: Home) {
    forall va: nat :: va < WORD && HasWord(m, PdeOf(base, va)) ==>
      && !HomeWord(home, PdeOf(base, va))
      && (WordAt(m, PdeOf(base, va)).p ==> !HomeWord(home, PteIx(m, base, va)))
  }

  ghost predicate Settled(m: Ram, base: nat, home: Home) {
    && Apart(m, base, home)
    && forall va :: va in home ==>
         va < WORD && Mapped(m, base, va) && Phys(m, base, va) == home[va] && home[va] < |m|
  }

  ghost predicate Writable(m: Ram, base: nat, home: Home) {
    forall va :: va in home ==> Mapped(m, base, va) && PteOf(m, base, va).w
  }

  ghost predicate OneToOne(home: Home) {
    forall a, b :: a in home && b in home && a != b ==> home[a] != home[b]
  }

  /** The same table word but for the accessed and dirty bits. */
  predicate Alike(e: Tlb.Pte, f: Tlb.Pte) {
    f == e.(a := f.a, d := f.d)
  }

  /** Outside the home only accessed and dirty bits differ. */
  ghost predicate Shaped(m: Ram, n: Ram, home: Home) {
    && |n| == |m|
    && forall z: nat :: HasWord(m, z) && !HomeWord(home, z) ==> Alike(WordAt(m, z), WordAt(n, z))
  }

  ghost predicate SameHome(m: Ram, n: Ram, home: Home) {
    |n| == |m| && forall va :: va in home && home[va] < |m| ==> n[home[va]] == m[home[va]]
  }

  lemma ShapedTrans(m: Ram, n: Ram, k: Ram, home: Home)
    requires Shaped(m, n, home) && Shaped(n, k, home)
    ensures Shaped(m, k, home)
  {
    hide HomeWord, WordAt;
    forall z: nat | HasWord(m, z) && !HomeWord(home, z)
      ensures Alike(WordAt(m, z), WordAt(k, z))
    {
      assert HasWord(n, z) && Alike(WordAt(m, z), WordAt(n, z));
    }
  }

  lemma ShapedAt(m: Ram, n: Ram, base: nat, home: Home, va: nat)
    requires Apart(m, base, home) && Shaped(m, n, home) && va < WORD
    ensures Mapped(n, base, va) <==> Mapped(m, base, va)
    ensures HasWord(m, PdeOf(base, va)) ==>
      && Alike(WordAt(m, PdeOf(base, va)), WordAt(n, PdeOf(base, va)))
      && PteIx(n, base, va) == PteIx(m, base, va)
    ensures Mapped(m, base, va) ==>
      Phys(n, base, va) == Phys(m, base, va) && Alike(PteOf(m, base, va), PteOf(n, base, va))
  {
    hide HomeWord, WordAt;
    var x := PdeOf(base, va);
    if HasWord(m, x) {
      assert Alike(WordAt(m, x), WordAt(n, x));
      if WordAt(m, x).p {
        var y := PteIx(m, base, va);
        assert !HomeWord(home, y);
        assert HasWord(m, y) ==> Alike(WordAt(m, y), WordAt(n, y));
      }
    }
  }

  lemma ShapedKeeps(m: Ram, n: Ram, base: nat, home: Home)
    requires Shaped(m, n, home)
    ensures Apart(m, base, home) ==> Apart(n, base, home)
    ensures Settled(m, base, home) ==> Settled(n, base, home)
    ensures Settled(m, base, home) && Writable(m, base, home) ==> Writable(n, base, home)
  {
    hide HomeWord, WordAt, Shaped, PteIx, Mapped, Phys, PteOf;
    if Apart(m, base, home) {
      forall va: nat | va < WORD
        ensures HasWord(m, PdeOf(base, va)) && HasWord(n, PdeOf(base, va)) ==>
            Alike(WordAt(m, PdeOf(base, va)), WordAt(n, PdeOf(base, va))) && PteIx(n, base, va) == PteIx(m, base, va)
        ensures Mapped(n, base, va) <==> Mapped(m, base, va)
        ensures Mapped(m, base, va) ==>
          Phys(n, base, va) == Phys(m, base, va) && Alike(PteOf(m, base, va), PteOf(n, base, va))
      {
        ShapedAt(m, n, base, home, va);
        ShapedLen(m, n, home);
      }
      ShapedLen(m, n, home);
    }
  }

  lemma ShapedLen(m: Ram, n: Ram, home: Home)
    requires Shaped(m, n, home)
    ensures |n| == |m|
  {
  }

  /** Translating any address marks a table word, which is not in the home. */
  lemma TranslateKeeps(m: Ram, base: nat, home: Home, va: nat, acc: Tlb.Access)
    requires Apart(m, base, home) && va < WORD && Translate(m, base, va, acc).Done?
    ensures var n := Translate(m, base, va, acc).mem; Shaped(m, n, home) && SameHome(m, n, home)
  {
    hide Tlb.Encode, Tlb.Decode, Machine.Rd4, PutWord, Translate;
    TranslateIs(m, base, va, acc);
    var n, y := Translate(m, base, va, acc).mem, PteIx(m, base, va);
    DecodeSmall(Machine.Rd4(m, 4 * y));
    forall z: nat | HasWord(m, z)
      ensures Alike(WordAt(m, z), WordAt(n, z))
    {
      WordPut(m, y, Tlb.Marked(PteOf(m, base, va), acc), z);
    }
    assert !HomeWord(home, y);
  }

  // ---- locating a word ----

  predicate Covers(home: Home, a: nat) {
    Byte4(a, 0) in home && Byte4(a, 1) in home && Byte4(a, 2) in home && Byte4(a, 3) in home
  }

  function Places(home: Home, a: nat): (ps: seq<nat>)
    requires Covers(home, a)
  {
    [home[Byte4(a, 0)], home[Byte4(a, 1)], home[Byte4(a, 2)], home[Byte4(a, 3)]]
  }

  lemma {:induction false} EachKeeps(m: Ram, base: nat, home: Home, a: nat, i: nat, acc: Tlb.Access)
    requires Apart(m, base, home) && i <= 4 && Each(m, base, a, i, acc).Located?
    ensures var r := Each(m, base, a, i, acc); Shaped(m, r.mem, home) && SameHome(m, r.mem, home)
    decreases 4 - i
  {
    hide Apart, Shaped, SameHome, Translate;
    if i == 4 {
      ShapedSelf(m, home);
    } else {
      var p := Translate(m, base, Byte4(a, i), acc);
      TranslateKeeps(m, base, home, Byte4(a, i), acc);
      ShapedKeeps(m, p.mem, base, home);
      EachKeeps(p.mem, base, home, a, i + 1, acc);
      Chain(m, p.mem, Each(p.mem, base, a, i + 1, acc).mem, home);
    }
  }

  lemma ShapedSelf(m: Ram, home: Home)
    ensures Shaped(m, m, home) && SameHome(m, m, home)
  {
  }

  lemma Chain(m: Ram, n: Ram, k: Ram, home: Home)
    requires Shaped(m, n, home) && SameHome(m, n, home) && Shaped(n, k, home) && SameHome(n, k, home)
    ensures Shaped(m, k, home) && SameHome(m, k, home)
  {
    hide HomeWord, WordAt;
    ShapedTrans(m, n, k, home);
  }

  predicate CoversFrom(home: Home, a: nat, i: nat)
    requires i <= 4
    decreases 4 - i
  {
    i < 4 ==> Byte4(a, i) in home && CoversFrom(home, a, i + 1)
  }

  function PlacesFrom(home: Home, a: nat, i: nat): seq<nat>
    requires i <= 4 && CoversFrom(home, a, i)
    decreases 4 - i
  {
    if i == 4 then [] else [home[Byte4(a, i)]] + PlacesFrom(home, a, i + 1)
  }

  lemma PlacesAll(home: Home, a: nat)
    requires Covers(home, a)
    ensures CoversFrom(home, a, 0) && PlacesFrom(home, a, 0) == Places(home, a)
  {
    hide Byte4;
    assert CoversFrom(home, a, 4) && PlacesFrom(home, a, 4) == [];
    assert CoversFrom(home, a, 3) && PlacesFrom(home, a, 3) == [home[Byte4(a, 3)]];
    assert CoversFrom(home, a, 2) && PlacesFrom(home, a, 2) == [home[Byte4(a, 2)], home[Byte4(a, 3)]];
    assert CoversFrom(home, a, 1);
    assert PlacesFrom(home, a, 1) == [home[Byte4(a, 1)], home[Byte4(a, 2)], home[Byte4(a, 3)]];
  }

  lemma SettledAt(m: Ram, base: nat, home: Home, va: nat)
    requires Settled(m, base, home)
    ensures Apart(m, base, home)
    ensures va in home ==> va < WORD && Mapped(m, base, va) && Phys(m, base, va) == home[va] && home[va] < |m|
    ensures va in home && Writable(m, base, home) ==> PteOf(m, base, va).w
  {
  }

  /** The bytes from the i-th on: found if mapped with the rights, and then where the home says. */
  lemma {:induction false} EachFinds(m: Ram, base: nat, home: Home, a: nat, i: nat, acc: Tlb.Access)
    requires Settled(m, base, home) && i <= 4 && CoversFrom(home, a, i)
    ensures var r := Each(m, base, a, i, acc);
      && (r.Located? ==> r.ps == PlacesFrom(home, a, i))
      && (acc == Tlb.Load || (acc == Tlb.Save && Writable(m, base, home)) ==> r.Located?)
    decreases 4 - i
  {
    hide Settled, Writable, Shaped, SameHome, Translate, Mapped, Phys, PteOf, Byte4;
    if i >= 4 {
    } else {
      var va := Byte4(a, i);
      SettledAt(m, base, home, va);
      TranslateIs(m, base, va, acc);
      var p := Translate(m, base, va, acc);
      if p.Done? {
        TranslateKeeps(m, base, home, va, acc);
        ShapedKeeps(m, p.mem, base, home);
        EachFinds(p.mem, base, home, a, i + 1, acc);
      }
    }
  }

  lemma LocateKeeps(m: Ram, base: nat, home: Home, a: nat, acc: Tlb.Access)
    requires Apart(m, base, home) && a < WORD && Locate(m, base, a, acc).Located?
    ensures var r := Locate(m, base, a, acc); Shaped(m, r.mem, home) && SameHome(m, r.mem, home)
  {
    hide Apart, Shaped, SameHome, Translate, Each;
    if Crosses(a) {
      EachKeeps(m, base, home, a, 0, acc);
    } else {
      TranslateKeeps(m, base, home, a, acc);
    }
  }

  /** Consecutive bytes of one page are consecutive in RAM. */
  lemma NextByte(m: Ram, base: nat, va: nat)
    requires Mapped(m, base, va) && va % 4096 != 4095
    ensures Mapped(m, base, va + 1) && Phys(m, base, va + 1) == Phys(m, base, va) + 1
  {
    hide WordAt;
    assert Tlb.PageOf(va + 1) == Tlb.PageOf(va) && (va + 1) % 4096 == va % 4096 + 1;
  }

  lemma Whole(m: Ram, base: nat, home: Home, a: nat)
    requires Settled(m, base, home) && a < WORD && !Crosses(a) && Covers(home, a)
    ensures Mapped(m, base, a) && Places(home, a) == Four(Phys(m, base, a))
  {
    hide Apart, Mapped, Phys, PteOf;
    InPage(a);
    NextByte(m, base, a);
    NextByte(m, base, a + 1);
    NextByte(m, base, a + 2);
  }

  lemma InPage(a: nat)
    requires a < WORD && !Crosses(a)
    ensures Byte4(a, 0) == a && Byte4(a, 1) == a + 1 && Byte4(a, 2) == a + 2 && Byte4(a, 3) == a + 3
    ensures (a + 1) % 4096 == a % 4096 + 1 && (a + 2) % 4096 == a % 4096 + 2
  {
  }

  lemma LocateFinds(m: Ram, base: nat, home: Home, a: nat, acc: Tlb.Access)
    requires Settled(m, base, home) && a < WORD && Covers(home, a)
    ensures var r := Locate(m, base, a, acc);
      && (r.Located? ==> r.ps == Places(home, a))
      && (acc == Tlb.Load || (acc == Tlb.Save && Writable(m, base, home)) ==> r.Located?)
  {
    hide Apart, Translate, Each, Mapped, Phys, PteOf, Byte4;
    if Crosses(a) {
      PlacesAll(home, a);
      EachFinds(m, base, home, a, 0, acc);
    } else {
      Whole(m, base, home, a);
      TranslateIs(m, base, a, acc);
      assert Byte4(a, 0) == a by { InPage(a); }
    }
  }

  // ---- reading and writing the located bytes ----

  predicate AllIn(m: Ram, ps: seq<nat>) {
    |ps| == 4 && ps[0] < |m| && ps[1] < |m| && ps[2] < |m| && ps[3] < |m|
  }

  function Value(m: Ram, ps: seq<nat>): nat
    requires AllIn(m, ps)
  {
    Joined(m[ps[0]], Joined(m[ps[1]], Joined(m[ps[2]], Joined(m[ps[3]], 0))))
  }

  function Joined(b: nat, rest: nat): nat {
    b + 256 * rest
  }

  function Stored(m: Ram, ps: seq<nat>, v: nat): (n: Ram)
    requires AllIn(m, ps)
    ensures |n| == |m| && forall i :: 0 <= i < |m| && i !in ps ==> n[i] == m[i]
  {
    m[ps[0] := v % 256][ps[1] := v / 256 % 256][ps[2] := v / 256 / 256 % 256][ps[3] := v / 256 / 256 / 256 % 256]
  }

  lemma ReadIs(m: Ram, ps: seq<nat>)
    requires AllIn(m, ps)
    ensures ReadBytes(m, ps) == Done(Value(m, ps), m)
  {
    assert ReadBytes(m, ps[1..][1..][1..][1..]) == Done(0, m);
    assert ReadBytes(m, ps[1..][1..][1..]) == Done(Joined(m[ps[3]], 0), m);
    assert ReadBytes(m, ps[1..][1..]) == Done(Joined(m[ps[2]], Joined(m[ps[3]], 0)), m);
    assert ReadBytes(m, ps[1..]) == Done(Joined(m[ps[1]], Joined(m[ps[2]], Joined(m[ps[3]], 0))), m);
  }

  lemma WriteIs(m: Ram, ps: seq<nat>, v: nat)
    requires AllIn(m, ps)
    ensures WriteBytes(m, ps, v) == Done(0, Stored(m, ps, v))
  {
    var m1 := m[ps[0] := v % 256];
    var m2 := m1[ps[1] := v / 256 % 256];
    var m3 := m2[ps[2] := v / 256 / 256 % 256];
    var m4 := m3[ps[3] := v / 256 / 256 / 256 % 256];
    assert WriteBytes(m4, ps[1..][1..][1..][1..], v / 256 / 256 / 256 / 256) == Done(0, m4);
    assert WriteBytes(m3, ps[1..][1..][1..], v / 256 / 256 / 256) == Done(0, m4);
    assert WriteBytes(m2, ps[1..][1..], v / 256 / 256) == Done(0, m4);
    assert WriteBytes(m1, ps[1..], v / 256) == Done(0, m4);
  }

  /** Four bytes in a row are a word. */
  lemma RowRead(m: Ram, p: nat)
    requires p + 4 <= |m|
    ensures Machine.Rd4(m, p) == Value(m, Four(p))
  {
    assert Machine.Rd(m, p + 4, 0) == 0;
    assert Machine.Rd(m, p + 3, 1) == Joined(m[p + 3], 0);
    assert Machine.Rd(m, p + 2, 2) == Joined(m[p + 2], Joined(m[p + 3], 0));
    assert Machine.Rd(m, p + 1, 3) == Joined(m[p + 1], Joined(m[p + 2], Joined(m[p + 3], 0)));
  }

  lemma RowWrite(m: Ram, p: nat, v: nat)
    requires p + 4 <= |m|
    ensures Machine.Wr(m, p, v, 4) == Stored(m, Four(p), v)
  {
    var m1 := m[p := v % 256];
    var m2 := m1[p + 1 := v / 256 % 256];
    var m3 := m2[p + 2 := v / 256 / 256 % 256];
    var m4 := m3[p + 3 := v / 256 / 256 / 256 % 256];
    assert Machine.Wr(m4, p + 4, v / 256 / 256 / 256 / 256, 0) == m4;
    assert Machine.Wr(m3, p + 3, v / 256 / 256 / 256, 1) == m4;
    assert Machine.Wr(m2, p + 2, v / 256 / 256, 2) == m4;
    assert Machine.Wr(m1, p + 1, v / 256, 3) == m4;
  }

  lemma ValueBack(m: Ram, ps: seq<nat>, v: nat)
    requires AllIn(m, ps) && v < WORD
    requires ps[0] != ps[1] && ps[0] != ps[2] && ps[0] != ps[3] && ps[1] != ps[2] && ps[1] != ps[3] && ps[2] != ps[3]
    ensures Value(Stored(m, ps, v), ps) == v
  {
    Digits(v);
  }

  lemma Digits(v: nat)
    requires v < WORD
    ensures Joined(v % 256, Joined(v / 256 % 256, Joined(v / 256 / 256 % 256,
      Joined(v / 256 / 256 / 256 % 256, 0)))) == v
  {
    var a := v / 256;
    var b := a / 256;
    var c := b / 256;
    assert c < 256;
    assert b == 256 * c + b % 256 && a == 256 * b + a % 256 && v == 256 * a + v % 256;
  }

  /** Places whose first and last are three apart are a row: a page boundary is crossed at most once. */
  lemma Row(m: Ram, base: nat, home: Home, a: nat)
    requires Settled(m, base, home) && a < WORD && Covers(home, a)
    requires Places(home, a)[3] == Places(home, a)[0] + 3
    ensures Places(home, a) == Four(Places(home, a)[0])
  {
    hide Apart, Mapped, Phys, PteOf, Byte4;
    OneBoundary(a);
    NextPlace(m, base, home, a, 0);
    NextPlace(m, base, home, a, 1);
    NextPlace(m, base, home, a, 2);
  }

  /** Before at most one of the last three bytes does a page end. */
  lemma OneBoundary(a: nat)
    ensures Byte4(a, 0) % 4096 == 4095 ==> Byte4(a, 1) % 4096 != 4095 && Byte4(a, 2) % 4096 != 4095
    ensures Byte4(a, 1) % 4096 == 4095 ==> Byte4(a, 2) % 4096 != 4095
  {
    ModPage(a);
    ModPage(a + 1);
    ModPage(a + 2);
  }

  lemma ModPage(a: nat)
    ensures a % WORD % 4096 == a % 4096
  {
  }

  lemma NextPlace(m: Ram, base: nat, home: Home, a: nat, i: nat)
    requires Settled(m, base, home) && Byte4(a, i) in home && Byte4(a, i + 1) in home
    ensures Byte4(a, i) % 4096 != 4095 ==> home[Byte4(a, i + 1)] == home[Byte4(a, i)] + 1
  {
    hide Apart, Mapped, Phys, PteOf;
    if Byte4(a, i) % 4096 != 4095 {
      NextVa(a, i);
      NextByte(m, base, Byte4(a, i));
    }
  }

  lemma NextVa(a: nat, i: nat)
    requires Byte4(a, i) % 4096 != 4095
    ensures Byte4(a, i + 1) == Byte4(a, i) + 1
  {
  }

  // ---- words of the home are plain RAM ----

  function Peek(home: Home, m: Ram, a: nat): nat {
    if Covers(home, a) && AllIn(m, Places(home, a)) then Value(m, Places(home, a)) else 0
  }

  lemma PeekSame(m: Ram, n: Ram, home: Home, a: nat)
    requires SameHome(m, n, home)
    ensures Peek(home, n, a) == Peek(home, m, a)
  {
    hide Byte4, Joined;
  }

  lemma ReadMem(m: Ram, ps: seq<nat>)
    ensures ReadBytes(m, ps).mem == m
  {
  }

  /** No load changes a byte of the home. */
  lemma LoadKeeps(m: Ram, base: nat, home: Home, a: nat)
    requires Apart(m, base, home) && a < WORD && LoadWord(m, base, a).Done?
    ensures var n := LoadWord(m, base, a).mem; Shaped(m, n, home) && SameHome(m, n, home)
  {
    hide Apart, Shaped, SameHome, Locate, ReadBytes, Machine.Rd4;
    LocateKeeps(m, base, home, a, Tlb.Load);
    ReadMem(Locate(m, base, a, Tlb.Load).mem, Locate(m, base, a, Tlb.Load).ps);
  }

  lemma PlacesIn(m: Ram, base: nat, home: Home, a: nat)
    requires Settled(m, base, home) && Covers(home, a)
    ensures AllIn(m, Places(home, a))
  {
    hide Apart, Mapped, Phys, Byte4;
  }

  /** A load of a word of the home succeeds and returns what is there. */
  lemma LoadIs(m: Ram, base: nat, home: Home, a: nat)
    requires Settled(m, base, home) && a < WORD && Covers(home, a)
    ensures LoadWord(m, base, a).Done? && LoadWord(m, base, a).value == Peek(home, m, a)
  {
    hide Settled, Shaped, SameHome, Locate, ReadBytes, Machine.Rd4, Covers, Places, Value, AllIn;
    SettledAt(m, base, home, 0);
    LocateFinds(m, base, home, a, Tlb.Load);
    LocateKeeps(m, base, home, a, Tlb.Load);
    var r := Locate(m, base, a, Tlb.Load);
    PeekSame(m, r.mem, home, a);
    ShapedKeeps(m, r.mem, base, home);
    PlacesIn(r.mem, base, home, a);
    ReadIs(r.mem, r.ps);
    if r.ps[3] == r.ps[0] + 3 {
      Row(r.mem, base, home, a);
      RowIn(r.mem, r.ps);
      RowRead(r.mem, r.ps[0]);
    }
  }

  lemma RowIn(m: Ram, ps: seq<nat>)
    requires AllIn(m, ps) && ps == Four(ps[0])
    ensures ps[0] + 4 <= |m|
  {
  }

  /** A store to a word of the home succeeds if its pages are writable, and stores its bytes. */
  lemma StoreIs(m: Ram, base: nat, home: Home, a: nat, v: nat)
    requires Settled(m, base, home) && a < WORD && Covers(home, a)
    ensures Writable(m, base, home) ==> StoreWord(m, base, a, v).Done?
    ensures StoreWord(m, base, a, v).Done? ==>
      var r := Locate(m, base, a, Tlb.Save);
      && r.Located? && Shaped(m, r.mem, home) && SameHome(m, r.mem, home) && AllIn(r.mem, Places(home, a))
      && StoreWord(m, base, a, v).mem == Stored(r.mem, Places(home, a), v)
  {
    hide Settled, Shaped, SameHome, Locate, WriteBytes, Machine.Wr, Covers, Places, AllIn, Writable, Stored;
    SettledAt(m, base, home, 0);
    LocateFinds(m, base, home, a, Tlb.Save);
    var r := Locate(m, base, a, Tlb.Save);
    if r.Located? {
      LocateKeeps(m, base, home, a, Tlb.Save);
      ShapedKeeps(m, r.mem, base, home);
      PlacesIn(r.mem, base, home, a);
      WriteIs(r.mem, r.ps, v);
      if r.ps[3] == r.ps[0] + 3 {
        Row(r.mem, base, home, a);
        RowIn(r.mem, r.ps);
        RowWrite(r.mem, r.ps[0], v);
      }
    }
  }

  lemma StoredShaped(m: Ram, home: Home, a: nat, v: nat)
    requires Covers(home, a) && AllIn(m, Places(home, a))
    ensures Shaped(m, Stored(m, Places(home, a), v), home)
  {
    hide Byte4, Machine.Rd, Machine.Rd4, Tlb.Decode, Stored;
    var n, ps := Stored(m, Places(home, a), v), Places(home, a);
    forall z: nat | HasWord(m, z) && !HomeWord(home, z)
      ensures Alike(WordAt(m, z), WordAt(n, z))
    {
      forall i | 4 * z <= i < 4 * z + 4
        ensures n[i] == m[i]
      {
        Away(home, a, z, i);
      }
      Machine.SameRead(m, n, 4 * z, 4);
      assert Machine.Rd4(n, 4 * z) == Machine.Rd4(m, 4 * z) by { Rd4Is(m, 4 * z); Rd4Is(n, 4 * z); }
    }
  }

  lemma Rd4Is(m: Ram, p: nat)
    requires p + 4 <= |m|
    ensures Machine.Rd4(m, p) == Machine.Rd(m, p, 4)
  {
  }

  lemma Away(home: Home, a: nat, z: nat, i: nat)
    requires Covers(home, a) && !HomeWord(home, z) && 4 * z <= i < 4 * z + 4
    ensures i !in Places(home, a)
  {
    hide Byte4;
    assert i / 4 == z;
  }

  ghost predicate Distinct4(a: nat, b: nat) {
    forall i, j :: 0 <= i < 4 && 0 <= j < 4 ==> Byte4(a, i) != Byte4(b, j)
  }

  lemma StoredPeek(m: Ram, home: Home, a: nat, v: nat, b: nat)
    requires OneToOne(home) && Covers(home, a) && Covers(home, b) && AllIn(m, Places(home, a))
      && AllIn(m, Places(home, b))
    requires v < WORD && (a == b || Distinct4(a, b))
    ensures Peek(home, Stored(m, Places(home, a), v), b) == if b == a then v else Peek(home, m, b)
  {
    hide Joined, Byte4;
    if a == b {
      FourApart(a);
      ValueBack(m, Places(home, a), v);
    } else {
      var n := Stored(m, Places(home, a), v);
      forall j | 0 <= j < 4
        ensures Places(home, b)[j] !in Places(home, a)
      {
        assert Byte4(b, j) != Byte4(a, 0) && Byte4(b, j) != Byte4(a, 1) && Byte4(b, j) != Byte4(a, 2)
            && Byte4(b, j) != Byte4(a, 3);
      }
    }
  }

  lemma FourApart(a: nat)
    ensures Byte4(a, 0) != Byte4(a, 1) && Byte4(a, 0) != Byte4(a, 2) && Byte4(a, 0) != Byte4(a, 3)
    ensures Byte4(a, 1) != Byte4(a, 2) && Byte4(a, 1) != Byte4(a, 3) && Byte4(a, 2) != Byte4(a, 3)
  {
  }

  /** Words the home covers, none overlapping another. */
  ghost predicate Frame(home: Home, words: set<nat>) {
    && OneToOne(home)
    && (forall a :: a in words ==> a < WORD && Covers(home, a))
    && (forall a, b :: a in words && b in words && a != b ==> Distinct4(a, b))
  }

  lemma FrameAt(home: Home, words: set<nat>, a: nat, b: nat)
    requires Frame(home, words) && a in words && b in words
    ensures OneToOne(home) && a < WORD && Covers(home, a) && Covers(home, b) && (a == b || Distinct4(a, b))
  {
  }

  lemma StoreKeeps(m: Ram, base: nat, home: Home, words: set<nat>, a: nat, v: nat)
    requires Settled(m, base, home) && Frame(home, words) && a in words && v < WORD && StoreWord(m, base, a, v).Done?
    ensures Shaped(m, StoreWord(m, base, a, v).mem, home)
    ensures forall b :: b in words ==>
      Peek(home, StoreWord(m, base, a, v).mem, b) == if b == a then v else Peek(home, m, b)
  {
    hide Settled, Shaped, SameHome, Locate, StoreWord, Covers, Places, AllIn, Stored, Frame, OneToOne, Distinct4, Peek;
    FrameAt(home, words, a, a);
    StoreIs(m, base, home, a, v);
    var r := Locate(m, base, a, Tlb.Save);
    StoredShaped(r.mem, home, a, v);
    ShapedTrans(m, r.mem, StoreWord(m, base, a, v).mem, home);
    ShapedKeeps(m, r.mem, base, home);
    forall b | b in words
      ensures Peek(home, StoreWord(m, base, a, v).mem, b) == if b == a then v else Peek(home, m, b)
    {
      FrameAt(home, words, a, b);
      PlacesIn(r.mem, base, home, b);
      PeekSame(m, r.mem, home, b);
      StoredPeek(r.mem, home, a, v, b);
    }
  }

  function Seen(home: Home): (Ram, nat) -> nat {
    (m: Ram, a: nat) => Peek(home, m, a)
  }

  ghost function Settling(base: nat, home: Home): Ram -> bool {
    (m: Ram) => Settled(m, base, home)
  }

  /** With paging on, words apart from the tables are plain RAM in every memory in which the tables
      map them there. */
  lemma PagedPlain(base: nat, home: Home, words: set<nat>)
    requires Frame(home, words)
    ensures PlainOn(PagedRam(base), words, Seen(home), Settling(base, home))
  {
    hide Settled, Shaped, SameHome, LoadWord, StoreWord, Frame, Peek, Covers;
    forall m: Ram, a, v: nat | Settled(m, base, home) && a in words && v < WORD && StoreWord(m, base, a, v).Done?
      ensures Settled(StoreWord(m, base, a, v).mem, base, home)
      ensures forall b :: b in words ==>
        Peek(home, StoreWord(m, base, a, v).mem, b) == if b == a then v else Peek(home, m, b)
    {
      StoreKeeps(m, base, home, words, a, v);
      ShapedKeeps(m, StoreWord(m, base, a, v).mem, base, home);
    }
    forall m: Ram, a: nat | Settled(m, base, home) && a < WORD && LoadWord(m, base, a).Done?
      ensures Settled(LoadWord(m, base, a).mem, base, home)
      ensures forall b :: b in words ==> Peek(home, LoadWord(m, base, a).mem, b) == Peek(home, m, b)
      ensures a in words ==> LoadWord(m, base, a).value == Peek(home, m, a)
    {
      LoadSettles(m, base, home, a);
      if a in words {
        FrameAt(home, words, a, a);
        LoadIs(m, base, home, a);
      }
    }
  }

  lemma LoadSettles(m: Ram, base: nat, home: Home, a: nat)
    requires Settled(m, base, home) && a < WORD && LoadWord(m, base, a).Done?
    ensures Settled(LoadWord(m, base, a).mem, base, home)
    ensures forall b :: Peek(home, LoadWord(m, base, a).mem, b) == Peek(home, m, b)
  {
    hide Settled, Shaped, SameHome, LoadWord, Peek;
    SettledAt(m, base, home, 0);
    LoadKeeps(m, base, home, a);
    ShapedKeeps(m, LoadWord(m, base, a).mem, base, home);
    forall b
      ensures Peek(home, LoadWord(m, base, a).mem, b) == Peek(home, m, b)
    {
      PeekSame(m, LoadWord(m, base, a).mem, home, b);
    }
  }

  // ---- entering and returning ----

  /** The frame's words are below 2^32 and do not overlap, so a home covering them is a frame. */
  lemma FrameOf(c: Cpu<Ram>, home: Home)
    requires c.sp < WORD && c.ksp < WORD && OneToOne(home) && forall a :: a in FrameWords(c) ==> Covers(home, a)
    ensures Frame(home, FrameWords(c))
  {
    hide Covers, OneToOne;
    var top := FrameTop(c);
    if c.user {
      DownIs(c.ksp, 4);
    }
    DownIs(top, 4);
    DownIs(top, 8);
    WordsApart(top);
  }

  lemma WordsApart(top: nat)
    requires top < WORD
    ensures Distinct4(top, Down(top, 4)) && Distinct4(Down(top, 4), top)
    ensures Distinct4(top, Down(top, 8)) && Distinct4(Down(top, 8), top)
    ensures Distinct4(Down(top, 4), Down(top, 8)) && Distinct4(Down(top, 8), Down(top, 4))
  {
    DownIs(top, 4);
    DownIs(top, 8);
    hide Down;
    forall i, j | 0 <= i < 4 && 0 <= j < 4
      ensures Byte4(top, i) != Byte4(Down(top, 4), j) && Byte4(top, i) != Byte4(Down(top, 8), j)
      ensures Byte4(Down(top, 4), i) != Byte4(Down(top, 8), j)
    {
      Reduce(top + i);
      Reduce(Down(top, 4) + i);
      Reduce(Down(top, 4) + j);
      Reduce(Down(top, 8) + j);
    }
  }

  /** A handler that runs with paging on, leaves the tables mapping the frame where it was, and leaves
      the frame's bytes and its own stack pointer alone, returns exactly to the interrupted program. */
  lemma PagedReturn(c: Cpu<Ram>, base: nat, home: Home, vec: nat, savepc: nat, code: nat, h: Cpu<Ram>)
    requires c.sp < WORD && c.ksp < WORD && savepc < WORD && c.flags < 16
    requires OneToOne(home) && (forall a :: a in FrameWords(c) ==> Covers(home, a))
    requires Settled(c.mem, base, home) && Settled(h.mem, base, home)
    requires Enter(PagedRam(base), c, vec, savepc, code).Entered?
    requires var e := Enter(PagedRam(base), c, vec, savepc, code).c; h.sp == e.sp && SameHome(e.mem, h.mem, home)
    ensures var r := Iret(PagedRam(base), h);
      r == Entered(h.(pc := savepc, flags := c.flags, ints := c.ints, user := c.user, sp := c.sp, mem := r.c.mem))
  {
    hide Settled, SameHome, OneToOne, Covers, Enter, Iret, PlainOn, PagedRam, Frame, Peek;
    var mm, e := PagedRam(base), Enter(PagedRam(base), c, vec, savepc, code).c;
    var peek, ok := Seen(home), Settling(base, home);
    FrameOf(c, home);
    PagedPlain(base, home, FrameWords(c));
    forall a: nat
      ensures peek(h.mem, a) == peek(e.mem, a)
    {
      PeekSame(e.mem, h.mem, home, a);
    }
    EnterFrame(mm, peek, ok, c, vec, savepc, code);
    IretUndoes(mm, peek, ok, c, vec, savepc, code, h);
    EnterSp(mm, c, vec, savepc, code);
    IretDone(c, base, home, h);
  }

  lemma EnterSp<M>(mm: Memory<M>, c: Cpu<M>, vec: nat, savepc: nat, code: nat)
    requires Enter(mm, c, vec, savepc, code).Entered?
    ensures Enter(mm, c, vec, savepc, code).c.sp == Down(FrameTop(c), 8)
  {
  }

  /** IRET finds its frame. */
  lemma IretDone(c: Cpu<Ram>, base: nat, home: Home, h: Cpu<Ram>)
    requires c.sp < WORD && c.ksp < WORD && (forall a :: a in FrameWords(c) ==> Covers(home, a))
    requires Settled(h.mem, base, home) && h.sp == Down(FrameTop(c), 8) && c.flags < 16
    requires Peek(home, h.mem, Down(FrameTop(c), 4)) == PackFlags(c)
    ensures Iret(PagedRam(base), h).Entered?
  {
    hide Settled, Covers, Peek, LoadWord, PackFlags, Down;
    var top := FrameTop(c);
    if c.user {
      assert top < WORD by { DownIs(c.ksp, 4); }
    }
    DownUp(top);
    Unpack(c);
    assert Down(top, 8) < WORD by { DownIs(top, 8); }
    LoadIs(h.mem, base, home, h.sp);
    LoadSettles(h.mem, base, home, h.sp);
    var a := LoadWord(h.mem, base, h.sp);
    LoadIs(a.mem, base, home, Down(top, 4));
    LoadSettles(a.mem, base, home, Down(top, 4));
    var b := LoadWord(a.mem, base, Down(top, 4));
    if c.user {
      LoadIs(b.mem, base, home, top);
    }
  }

  // ---- the whole round trip ----

  lemma {:induction false} EachAgain(m: Ram, n: Ram, base: nat, home: Home, a: nat, i: nat, acc: Tlb.Access)
    requires Apart(m, base, home) && Shaped(m, n, home) && i <= 4 && Each(m, base, a, i, acc).Located?
    ensures Each(n, base, a, i, acc).Located? && Each(n, base, a, i, acc).ps == Each(m, base, a, i, acc).ps
    decreases 4 - i
  {
    hide Apart, Shaped, SameHome, Translate;
    if i >= 4 {
    } else {
      var va := Byte4(a, i);
      var p, q := Translate(m, base, va, acc), Translate(n, base, va, acc);
      TranslateAgain(m, n, base, home, va, acc);
      ShapedKeeps(m, p.mem, base, home);
      EachAgain(p.mem, q.mem, base, home, a, i + 1, acc);
    }
  }

  /** Memories that differ in marks and in the home translate alike, and still differ so after it. */
  lemma TranslateAgain(m: Ram, n: Ram, base: nat, home: Home, va: nat, acc: Tlb.Access)
    requires Apart(m, base, home) && Shaped(m, n, home) && va < WORD && Translate(m, base, va, acc).Done?
    ensures var p, q := Translate(m, base, va, acc), Translate(n, base, va, acc);
      q.Done? && q.value == p.value && Shaped(m, p.mem, home) && Shaped(p.mem, q.mem, home)
  {
    hide Apart, Shaped, SameHome, Translate, Mapped, Phys, PteOf;
    TranslateIs(m, base, va, acc);
    TranslateIs(n, base, va, acc);
    ShapedAt(m, n, base, home, va);
    ShapedKeeps(m, n, base, home);
    TranslateKeeps(m, base, home, va, acc);
    TranslateKeeps(n, base, home, va, acc);
    var p, q := Translate(m, base, va, acc), Translate(n, base, va, acc);
    ShapedBack(m, p.mem, home);
    ShapedTrans(p.mem, m, n, home);
    ShapedTrans(p.mem, n, q.mem, home);
  }

  lemma ShapedBack(m: Ram, n: Ram, home: Home)
    requires Shaped(m, n, home)
    ensures Shaped(n, m, home)
  {
    hide HomeWord, WordAt;
    forall z: nat | HasWord(n, z) && !HomeWord(home, z)
      ensures Alike(WordAt(n, z), WordAt(m, z))
    {
      assert HasWord(m, z) && Alike(WordAt(m, z), WordAt(n, z));
    }
  }

  /** A word that could be loaded before the frame was stored can be loaded after it. */
  lemma LoadAgain(m: Ram, n: Ram, base: nat, home: Home, a: nat)
    requires Apart(m, base, home) && Shaped(m, n, home) && a < WORD && LoadWord(m, base, a).Done?
    ensures LoadWord(n, base, a).Done?
  {
    hide Apart, Shaped, Translate, Each, ReadBytes, Machine.Rd4;
    ShapedLen(m, n, home);
    if Crosses(a) {
      EachAgain(m, n, base, home, a, 0, Tlb.Load);
    } else {
      TranslateAgain(m, n, base, home, a, Tlb.Load);
    }
    var p, q := Locate(m, base, a, Tlb.Load), Locate(n, base, a, Tlb.Load);
    ReadAgain(p.mem, q.mem, p.ps);
  }

  lemma {:induction false} ReadAgain(m: Ram, n: Ram, ps: seq<nat>)
    requires |n| == |m|
    ensures ReadBytes(n, ps).Done? <==> ReadBytes(m, ps).Done?
  {
    if ps == [] {
    } else {
      ReadAgain(m, n, ps[1..]);
    }
  }

  /** A writable frame is stored. */
  lemma SaveDone(c: Cpu<Ram>, base: nat, home: Home, savepc: nat)
    requires c.sp < WORD && c.ksp < WORD && savepc < WORD && Settled(c.mem, base, home) && Writable(c.mem, base, home)
    requires Frame(home, FrameWords(c))
    ensures var s := SaveFrame(PagedRam(base), c, savepc); s.Done? && Shaped(c.mem, s.mem, home)
  {
    hide Settled, Shaped, Writable, Frame, StoreWord, PackFlags, Down;
    PackSmall(c);
    var top, words := FrameTop(c), FrameWords(c);
    var n := c.mem;
    ShapedSelf(n, home);
    if c.user {
      SaveOne(c.mem, n, base, home, words, top, c.sp);
      n := StoreWord(n, base, top, c.sp).mem;
    }
    SaveOne(c.mem, n, base, home, words, Down(top, 4), PackFlags(c));
    n := StoreWord(n, base, Down(top, 4), PackFlags(c)).mem;
    SaveOne(c.mem, n, base, home, words, Down(top, 8), savepc);
  }

  lemma SaveOne(m: Ram, n: Ram, base: nat, home: Home, words: set<nat>, a: nat, v: nat)
    requires Settled(m, base, home) && Writable(m, base, home) && Shaped(m, n, home) && Frame(home, words)
    requires a in words && v < WORD
    ensures StoreWord(n, base, a, v).Done? && Shaped(m, StoreWord(n, base, a, v).mem, home)
  {
    hide Settled, Shaped, Writable, Frame, StoreWord, Locate, Covers, Peek;
    ShapedKeeps(m, n, base, home);
    FrameAt(home, words, a, a);
    StoreIs(n, base, home, a, v);
    StoreKeeps(n, base, home, words, a, v);
    ShapedTrans(m, n, StoreWord(n, base, a, v).mem, home);
  }

  /** With paging on, a frame mapped writable and apart from the tables, and a vector that can be read:
      entering succeeds, returning at once succeeds, and every register but the cause is back. */
  lemma PagedRoundTrip(c: Cpu<Ram>, base: nat, home: Home, vec: nat, savepc: nat, code: nat)
    requires c.sp < WORD && c.ksp < WORD && savepc < WORD && c.flags < 16
    requires OneToOne(home) && (forall a :: a in FrameWords(c) ==> Covers(home, a))
    requires Settled(c.mem, base, home) && Writable(c.mem, base, home)
    requires LoadWord(c.mem, base, (c.evt + 4 * vec) % WORD).Done?
    ensures var e := Enter(PagedRam(base), c, vec, savepc, code);
      && e.Entered?
      && var r := Iret(PagedRam(base), e.c);
         r == Entered(c.(pc := savepc, cause := vec % 256 + 256 * (code % 256), mem := r.c.mem))
  {
    hide Settled, SameHome, OneToOne, Covers, Iret, Shaped, Writable, Frame, LoadWord, SaveFrame;
    FrameOf(c, home);
    SaveDone(c, base, home, savepc);
    SettledAt(c.mem, base, home, 0);
    var s, at := SaveFrame(PagedRam(base), c, savepc), (c.evt + 4 * vec) % WORD;
    LoadAgain(c.mem, s.mem, base, home, at);
    ShapedKeeps(c.mem, s.mem, base, home);
    SettledAt(s.mem, base, home, 0);
    LoadSettles(s.mem, base, home, at);
    var e := Enter(PagedRam(base), c, vec, savepc, code);
    ShapedSelf(e.c.mem, home);
    PagedReturn(c, base, home, vec, savepc, code, e.c);
    EnterKeeps(PagedRam(base), c, vec, savepc, code);
  }

  // ---- such memories exist ----

  /** Three pages: a directory, a table, and a page mapped at its own address, for the supervisor to write. */
  function Small(): (m: Ram)
    ensures |m| == 0x3000
  {
    seq(0x3000, i requires 0 <= i < 0x3000 =>
      if i == 0 then 1 else if i == 1 then 0x10 else if i == 0x1008 then 3 else if i == 0x1009 then 0x20 else 0)
  }

  lemma SmallWord(x: nat)
    requires x < 0xC00
    ensures HasWord(Small(), x)
    ensures x == 0 ==> WordAt(Small(), x) == Tlb.Decode(0x1001)
    ensures x == 0x402 ==> WordAt(Small(), x) == Tlb.Decode(0x2003)
    ensures x != 0 && x != 0x402 ==> WordAt(Small(), x) == Tlb.Decode(0)
  {
    hide Tlb.Decode;
    RowRead(Small(), 4 * x);
    if x == 0 {
      assert Value(Small(), Four(4 * x)) == Joined(1, Joined(0x10, Joined(0, Joined(0, 0))));
    } else if x == 0x402 {
      assert Value(Small(), Four(4 * x)) == Joined(3, Joined(0x20, Joined(0, Joined(0, 0))));
    } else {
      assert Value(Small(), Four(4 * x)) == Joined(0, Joined(0, Joined(0, Joined(0, 0))));
    }
  }

  lemma SmallTables()
    ensures Tlb.Decode(0x1001) == Tlb.Pte(1, 0, false, false, false, false, false, true)
    ensures Tlb.Decode(0x2003) == Tlb.Pte(2, 0, false, false, false, false, true, true)
    ensures !Tlb.Decode(0).p
  {
  }

  predicate InThird(va: nat) {
    0x2000 <= va < 0x3000
  }

  function Third(): Home {
    map va: nat | va < 0x3000 && InThird(va) :: va
  }

  /** The third page is a home apart from the tables, mapped writable. */
  lemma SmallSettled()
    ensures OneToOne(Third()) && Settled(Small(), 0, Third()) && Writable(Small(), 0, Third())
  {
    hide Small, WordAt, Tlb.Decode;
    SmallTables();
    var m, home := Small(), Third();
    SmallWord(0);
    SmallWord(0x402);
    forall va: nat | va < WORD
      ensures !HomeWord(home, PdeOf(0, va)) && HasWord(m, PdeOf(0, va))
      ensures WordAt(m, PdeOf(0, va)).p ==> !HomeWord(home, PteIx(m, 0, va))
    {
      SmallWord(PdeOf(0, va));
    }
    forall va | va in home
      ensures Mapped(m, 0, va) && Phys(m, 0, va) == va && PteOf(m, 0, va).w
    {
      assert Tlb.PageOf(va) == 2;
    }
  }
}
