/** What every operation on user memory keeps: each frame's count is the number of page-table
    entries naming it, and a private page is writable only through its one entry. */
module MemoryInvariant {
  import opened Bitmaps
  import opened UserMemory

  /** The page-table entries naming frame i. */
  ghost function Refs(ptes: map<Slot, Pte>, i: nat): set<Slot> {
    set k | k in ptes && ptes[k].frame == i
  }

  ghost function HeldOnce(s: State, i: nat): nat {
    if i in s.held then 1 else 0
  }

  ghost predicate Counted(s: State)
    requires Sized(s)
  {
    && (forall i :: 0 <= i < |s.refs| ==> s.refs[i] == |Refs(s.ptes, i)| + HeldOnce(s, i))
    && (forall i :: 0 <= i < |s.bits| ==> (s.bits[i] <==> s.refs[i] > 0))
    && s.nfree == Clear(s.bits)
  }

  ghost predicate Covered(s: State) {
    forall k :: k in s.ptes ==> k.pid in s.regions && FindRegion(s.regions[k.pid], k.page).Some?
  }

  predicate SharedPage(s: State, k: Slot) {
    k.pid in s.regions && var g := FindRegion(s.regions[k.pid], k.page); g.Some? && g.value.shared
  }

  /** An entry is writable only in a writable region, and a page of a writable region is either
      writable or waiting to be copied. */
  predicate Rights(e: Pte, g: Region) {
    && (e.w ==> g.w)
    && (g.w ==> e.w || (e.cow && !g.shared))
  }

  ghost predicate EntryOk(s: State, k: Slot)
    requires k in s.ptes
  {
    var e := s.ptes[k];
    && e.frame < |s.refs| && e.frame !in s.held && e.u && TableOf(k) in s.tables
    && USER_FIRST <= k.page < USER_END
    && (k.pid in s.regions ==>
          var g := FindRegion(s.regions[k.pid], k.page);
          g.Some? ==> Rights(e, g.value))
  }

  /** A private page is writable only while nothing else names its frame. */
  ghost predicate PrivateOk(s: State, k: Slot)
    requires k in s.ptes && s.ptes[k].frame < |s.refs|
  {
    s.ptes[k].w && !SharedPage(s, k) ==> s.refs[s.ptes[k].frame] == 1
  }

  /** A frame appears at one page number only, and either privately or shared. */
  ghost predicate Alike(s: State, k: Slot, l: Slot)
    requires k in s.ptes && l in s.ptes
  {
    s.ptes[k].frame == s.ptes[l].frame ==> k.page == l.page && SharedPage(s, k) == SharedPage(s, l)
  }

  ghost predicate Entries(s: State)
    requires Sized(s)
  {
    && (forall k :: k in s.ptes ==> EntryOk(s, k))
    && (forall k :: k in s.ptes ==> PrivateOk(s, k))
    && (forall k, l :: k in s.ptes && l in s.ptes ==> Alike(s, k, l))
  }

  ghost predicate RegionsOk(rs: seq<Region>) {
    && (forall r :: r in rs ==> USER_FIRST <= r.lo <= r.hi <= USER_END)
    && Disjoint(rs)
  }

  ghost predicate Disjoint(rs: seq<Region>) {
    rs != [] ==> Disjoint(rs[1..]) && forall v: nat :: In(rs[0], v) ==> FindRegion(rs[1..], v).None?
  }

  ghost predicate Inv(s: State) {
    && Sized(s)
    && (forall i :: i in s.held ==> i < |s.refs|)
    && (forall t :: t in s.tables ==> t.pid in s.regions)
    && (forall p :: p in s.regions ==> RegionsOk(s.regions[p]))
    && Counted(s) && Covered(s) && Entries(s)
  }

  // ---- counting ----

  lemma RefsSet(ptes: map<Slot, Pte>, k: Slot, e: Pte, i: nat)
    ensures Refs(ptes[k := e], i) == (if e.frame == i then Refs(ptes, i) + {k} else Refs(ptes, i) - {k})
  {
  }

  lemma RefsDel(ptes: map<Slot, Pte>, k: Slot, i: nat)
    ensures Refs(ptes - {k}, i) == Refs(ptes, i) - {k}
  {
  }

  /** frame_alloc finds a frame exactly when one is free. */
  lemma {:induction false} PickFinds(bits: seq<bool>, hint: nat, n: nat, i: nat)
    requires hint <= |bits| && n <= |bits|
    requires i < |bits| && !bits[i] && (n <= i - hint || (i < hint && n <= i + |bits| - hint))
    ensures Pick(bits, hint, n).Some?
    decreases |bits| - n
  {
    var j := (hint + n) % |bits|;
    Wrap(hint + n, |bits|);
    if bits[j] {
      PickFinds(bits, hint, n + 1, i);
    }
  }

  lemma Wrap(a: nat, m: nat)
    requires m > 0 && a < 2 * m
    ensures a % m == if a < m then a else a - m
  {
    if a >= m {
      assert a % m == (a - m) % m;
    }
  }

  lemma PickExact(bits: seq<bool>, hint: nat)
    requires hint <= |bits|
    ensures Pick(bits, hint, 0).None? <==> forall i :: 0 <= i < |bits| ==> bits[i]
  {
    forall i | 0 <= i < |bits| && !bits[i]
      ensures Pick(bits, hint, 0).Some?
    {
      PickFinds(bits, hint, 0, i);
    }
  }

  // ---- the count stays below its 16 bits ----

  lemma {:induction false} SmallSet(a: set<nat>, n: nat)
    requires forall i :: i in a ==> i < n
    ensures |a| <= n
    decreases n
  {
    if n == 0 {
    } else {
      SmallSet(a - {n - 1}, n - 1);
    }
  }

  /** Slots with one page number are as many as their processes. */
  lemma {:induction false} SlotsByPid(a: set<Slot>)
    requires forall k, l :: k in a && l in a ==> k.page == l.page
    ensures |a| <= NPROC
  {
    var pids := set k | k in a :: k.pid as nat;
    SlotsPids(a, pids);
    SmallSet(pids, NPROC);
  }

  lemma {:induction false} SlotsPids(a: set<Slot>, pids: set<nat>)
    requires forall k, l :: k in a && l in a ==> k.page == l.page
    requires pids == set k | k in a :: k.pid as nat
    ensures |a| == |pids|
    decreases |a|
  {
    if a == {} {
    } else {
      var k :| k in a;
      SlotsPids(a - {k}, pids - {k.pid as nat});
    }
  }

  lemma RefsSmall(s: State, i: nat)
    requires Inv(s) && i < |s.refs|
    ensures s.refs[i] <= NPROC
  {
    SlotsByPid(Refs(s.ptes, i));
    if i in s.held {
      assert Refs(s.ptes, i) == {} by {
        assert forall k :: k in s.ptes ==> EntryOk(s, k);
      }
    }
  }

  lemma TwoRefs(ptes: map<Slot, Pte>, k: Slot, l: Slot)
    requires k in ptes && l in ptes && k != l && ptes[k].frame == ptes[l].frame
    ensures |Refs(ptes, ptes[k].frame)| >= 2
  {
    assert {k, l} <= Refs(ptes, ptes[k].frame);
    SubsetSize({k, l}, Refs(ptes, ptes[k].frame));
  }

  lemma {:induction false} SubsetSize<T>(a: set<T>, b: set<T>)
    requires a <= b
    ensures |a| <= |b|
    decreases |b|
  {
    if a == {} {
    } else {
      var x :| x in a;
      SubsetSize(a - {x}, b - {x});
    }
  }

  // ---- what the invariant says of one entry, one frame ----

  lemma EntryAt(s: State, k: Slot)
    requires Inv(s) && k in s.ptes
    ensures Sized(s) && EntryOk(s, k) && PrivateOk(s, k)
    ensures k.pid in s.regions && FindRegion(s.regions[k.pid], k.page).Some?
    ensures s.refs[s.ptes[k].frame] > 0 && s.bits[s.ptes[k].frame]
  {
    hide Clear, RegionsOk;
    assert k in Refs(s.ptes, s.ptes[k].frame);
  }

  lemma AlikeAt(s: State, k: Slot, l: Slot)
    requires Inv(s) && k in s.ptes && l in s.ptes
    ensures Alike(s, k, l)
  {
  }

  lemma FreeFrame(s: State, i: nat)
    requires Inv(s) && i < |s.bits| && !s.bits[i]
    ensures s.refs[i] == 0 && Refs(s.ptes, i) == {} && i !in s.held
    ensures forall k :: k in s.ptes ==> s.ptes[k].frame != i
  {
    hide Clear, RegionsOk, Covered, Entries;
    forall k | k in s.ptes
      ensures s.ptes[k].frame != i
    {
      assert s.ptes[k].frame == i ==> k in Refs(s.ptes, i);
    }
  }

  lemma UserPage(s: State, k: Slot)
    requires Inv(s) && k.pid in s.regions && FindRegion(s.regions[k.pid], k.page).Some?
    ensures USER_FIRST <= k.page < USER_END
  {
    hide Counted, Covered, Entries;
    assert RegionsOk(s.regions[k.pid]);
  }

  // ---- what changes one entry ----

  /** t is s with a fresh frame, holding c, mapped at the empty page k. */
  ghost predicate Added(s: State, k: Slot, e: Pte, c: Page, t: State) {
    && Sized(s) && k !in s.ptes && e.frame < |s.bits| && !s.bits[e.frame] && e.u
    && k.pid in s.regions && FindRegion(s.regions[k.pid], k.page).Some?
    && e.w == FindRegion(s.regions[k.pid], k.page).value.w
    && t == Take(s, e.frame, c).(ptes := s.ptes[k := e], tables := s.tables + {TableOf(k)}, low := t.low)
  }

  lemma AddOk(s: State, k: Slot, e: Pte, c: Page, t: State)
    requires Inv(s) && Added(s, k, e, c, t)
    ensures Inv(t)
  {
    hide Counted, Entries, RegionsOk, FindRegion;
    AddCounted(s, k, e, c, t);
    AddEntries(s, k, e, c, t);
  }

  lemma AddCounted(s: State, k: Slot, e: Pte, c: Page, t: State)
    requires Inv(s) && Added(s, k, e, c, t)
    ensures Counted(t)
  {
    hide Entries, Covered, RegionsOk;
    var i := e.frame;
    ClearSet(s.bits, i, true);
    forall j | 0 <= j < |t.refs|
      ensures t.refs[j] == |Refs(t.ptes, j)| + HeldOnce(t, j)
    {
      RefsSet(s.ptes, k, e, j);
      assert k !in Refs(s.ptes, j);
      assert i != j ==> Refs(t.ptes, j) == Refs(s.ptes, j);
    }
  }

  lemma AddEntries(s: State, k: Slot, e: Pte, c: Page, t: State)
    requires Inv(s) && Added(s, k, e, c, t)
    ensures Entries(t)
  {
    FreeFrame(s, e.frame);
    UserPage(s, k);
    hide Inv, FindRegion;
    forall l | l in t.ptes
      ensures EntryOk(t, l) && PrivateOk(t, l)
    {
      if l != k {
        EntryAt(s, l);
      }
    }
    forall l, m | l in t.ptes && m in t.ptes
      ensures Alike(t, l, m)
    {
      if l != k && m != k {
        AlikeAt(s, l, m);
      }
    }
  }

  /** t is s without the entry k: its frame loses one reference. */
  ghost predicate Removed(s: State, k: Slot, t: State) {
    && Sized(s) && k in s.ptes && s.ptes[k].frame < |s.bits|
    && t == DelPte(Drop(s, s.ptes[k].frame), k)
  }

  lemma RemoveOk(s: State, k: Slot, t: State)
    requires Inv(s) && Removed(s, k, t)
    ensures Inv(t)
  {
    hide Counted, Entries, RegionsOk, FindRegion;
    RemoveCounted(s, k, t);
    RemoveEntries(s, k, t);
  }

  lemma DropExact(s: State, i: nat)
    requires Sized(s) && i < |s.bits| && 1 <= s.refs[i] <= NPROC
    ensures var n := s.refs[i] - 1;
      && Drop(s, i).refs == s.refs[i := n]
      && Drop(s, i) == (if n == 0 then s.(refs := s.refs[i := 0], bits := s.bits[i := false], nfree := s.nfree + 1)
                        else s.(refs := s.refs[i := n]))
  {
    var n := s.refs[i] - 1;
    assert (s.refs[i] + REF_MOD - 1) % REF_MOD == (n + REF_MOD) % REF_MOD == n;
  }

  lemma RemoveCounted(s: State, k: Slot, t: State)
    requires Inv(s) && Removed(s, k, t)
    ensures Counted(t) && t.refs == s.refs[s.ptes[k].frame := s.refs[s.ptes[k].frame] - 1]
  {
    hide Entries, Covered, RegionsOk, FindRegion, Drop, Clear;
    var i := s.ptes[k].frame;
    EntryAt(s, k);
    RefsSmall(s, i);
    DropExact(s, i);
    ClearSet(s.bits, i, false);
    forall j | 0 <= j < |t.refs|
      ensures t.refs[j] == |Refs(t.ptes, j)| + HeldOnce(t, j)
    {
      RefsDel(s.ptes, k, j);
      assert k in Refs(s.ptes, j) <==> i == j;
      assert i != j ==> Refs(t.ptes, j) == Refs(s.ptes, j);
    }
  }

  lemma RemoveEntries(s: State, k: Slot, t: State)
    requires Inv(s) && Removed(s, k, t)
    ensures Entries(t)
  {
    RemoveCounted(s, k, t);
    assert Sized(t);
    hide Inv, FindRegion;
    forall l | l in t.ptes
      ensures EntryOk(t, l) && PrivateOk(t, l)
    {
      EntryAt(s, l);
      if s.ptes[l].frame == s.ptes[k].frame {
        OtherRef(s, k, l);
        AlikeAt(s, k, l);
      }
    }
    forall l, m | l in t.ptes && m in t.ptes
      ensures Alike(t, l, m)
    {
      AlikeAt(s, l, m);
    }
  }

  /** Two entries of one frame: the count is at least two, and neither is a writable private page. */
  lemma OtherRef(s: State, k: Slot, l: Slot)
    requires Inv(s) && k in s.ptes && l in s.ptes && k != l && s.ptes[k].frame == s.ptes[l].frame
    ensures Sized(s) && s.ptes[k].frame < |s.refs| && s.refs[s.ptes[k].frame] >= 2
    ensures s.ptes[l].w ==> SharedPage(s, l)
  {
    hide Clear, RegionsOk, FindRegion, Covered;
    assert EntryOk(s, k) && PrivateOk(s, l);
    TwoRefs(s.ptes, k, l);
  }

  /** New flags on the same frame; a private page may become writable only if it is the frame's one entry. */
  lemma ReflagOk(s: State, k: Slot, e: Pte)
    requires Inv(s) && k in s.ptes && e.frame == s.ptes[k].frame && e.u
    requires e.frame < |s.refs| && (e.w && !SharedPage(s, k) ==> s.refs[e.frame] == 1)
    requires k.pid in s.regions ==> var g := FindRegion(s.regions[k.pid], k.page); g.Some? ==> Rights(e, g.value)
    ensures Inv(s.(ptes := s.ptes[k := e]))
  {
    hide Counted, Entries, RegionsOk, FindRegion;
    var t := s.(ptes := s.ptes[k := e]);
    ReflagCounted(s, k, e);
    ReflagEntries(s, k, e);
  }

  lemma ReflagCounted(s: State, k: Slot, e: Pte)
    requires Inv(s) && k in s.ptes && e.frame == s.ptes[k].frame
    ensures Counted(s.(ptes := s.ptes[k := e]))
  {
    hide Entries, RegionsOk, FindRegion, Clear;
    var t := s.(ptes := s.ptes[k := e]);
    forall j | 0 <= j < |t.refs|
      ensures t.refs[j] == |Refs(t.ptes, j)| + HeldOnce(t, j)
    {
      assert Refs(t.ptes, j) == Refs(s.ptes, j);
    }
  }

  lemma ReflagEntries(s: State, k: Slot, e: Pte)
    requires Inv(s) && k in s.ptes && e.frame == s.ptes[k].frame && e.u
    requires e.frame < |s.refs| && (e.w && !SharedPage(s, k) ==> s.refs[e.frame] == 1)
    requires k.pid in s.regions ==> var g := FindRegion(s.regions[k.pid], k.page); g.Some? ==> Rights(e, g.value)
    ensures Entries(s.(ptes := s.ptes[k := e]))
  {
    var t := s.(ptes := s.ptes[k := e]);
    assert Sized(t);
    hide Inv, FindRegion;
    forall l | l in t.ptes
      ensures EntryOk(t, l) && PrivateOk(t, l)
    {
      EntryAt(s, l);
    }
    forall l, m | l in t.ptes && m in t.ptes
      ensures Alike(t, l, m)
    {
      AlikeAt(s, l, m);
    }
  }

  /** t is s with entry k copied to the same page of an address space with the same regions. */
  ghost predicate Linked(s: State, k: Slot, l: Slot, t: State) {
    && Sized(s) && k in s.ptes && l !in s.ptes && l.page == k.page && s.ptes[k].frame < |s.refs|
    && k.pid in s.regions && l.pid in s.regions && s.regions[l.pid] == s.regions[k.pid]
    && (s.ptes[k].w ==> SharedPage(s, k))
    && t == Ref(s, s.ptes[k].frame).(ptes := s.ptes[l := s.ptes[k]], tables := s.tables + {TableOf(l)}, low := t.low)
  }

  lemma LinkOk(s: State, k: Slot, l: Slot, t: State)
    requires Inv(s) && Linked(s, k, l, t)
    ensures Inv(t)
  {
    hide Counted, Entries, RegionsOk, FindRegion;
    EntryAt(s, k);
    LinkCounted(s, k, l, t);
    LinkEntries(s, k, l, t);
  }

  lemma RefExact(s: State, i: nat)
    requires i < |s.refs| && s.refs[i] <= NPROC
    ensures Ref(s, i) == s.(refs := s.refs[i := s.refs[i] + 1])
  {
  }

  lemma LinkCounted(s: State, k: Slot, l: Slot, t: State)
    requires Inv(s) && Linked(s, k, l, t)
    ensures Counted(t) && t.refs == s.refs[s.ptes[k].frame := s.refs[s.ptes[k].frame] + 1]
  {
    hide Entries, Covered, RegionsOk, FindRegion, Ref, Clear;
    var i := s.ptes[k].frame;
    EntryAt(s, k);
    RefsSmall(s, i);
    RefExact(s, i);
    forall j | 0 <= j < |t.refs|
      ensures t.refs[j] == |Refs(t.ptes, j)| + HeldOnce(t, j)
    {
      RefsSet(s.ptes, l, s.ptes[k], j);
      assert l !in Refs(s.ptes, j);
      assert i != j ==> Refs(t.ptes, j) == Refs(s.ptes, j);
    }
  }

  lemma LinkEntries(s: State, k: Slot, l: Slot, t: State)
    requires Inv(s) && Linked(s, k, l, t)
    ensures Entries(t)
  {
    LinkCounted(s, k, l, t);
    EntryAt(s, k);
    assert Sized(t);
    hide Inv, FindRegion;
    forall m | m in t.ptes
      ensures EntryOk(t, m) && PrivateOk(t, m)
    {
      if m != l {
        EntryAt(s, m);
        if s.ptes[m].frame == s.ptes[k].frame && m != k {
          OtherRef(s, k, m);
        }
      }
    }
    forall m, n | m in t.ptes && n in t.ptes
      ensures Alike(t, m, n)
    {
      AlikeAt(s, if m == l then k else m, if n == l then k else n);
    }
  }
}
