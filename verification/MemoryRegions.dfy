/** Region lists: what unmap_range and add_region do to them, and when a failed split loses pages. */
module MemoryRegions {
  import opened Wrappers
  import opened Bitmaps
  import opened UserMemory
  import opened MemoryInvariant
  import opened MemorySteps

  // ---- region lists ----

  lemma {:induction false} FindConcat(a: seq<Region>, b: seq<Region>, v: nat)
    ensures FindRegion(a + b, v) == if FindRegion(a, v).Some? then FindRegion(a, v) else FindRegion(b, v)
  {
    if a == [] {
      assert a + b == b;
    } else {
      assert (a + b)[1..] == a[1..] + b;
      FindConcat(a[1..], b, v);
    }
  }

  lemma {:induction false} DisjointConcat(a: seq<Region>, b: seq<Region>)
    requires Disjoint(a) && Disjoint(b)
    requires forall v: nat :: FindRegion(a, v).None? || FindRegion(b, v).None?
    ensures Disjoint(a + b)
  {
    if a == [] {
      assert a + b == b;
    } else {
      assert (a + b)[1..] == a[1..] + b;
      forall v: nat
        ensures FindRegion(a[1..], v).None? || FindRegion(b, v).None?
        ensures In(a[0], v) ==> FindRegion((a + b)[1..], v).None?
      {
        FindConcat(a[1..], b, v);
        assert FindRegion(a, v).None? || FindRegion(b, v).None?;
      }
      DisjointConcat(a[1..], b);
    }
  }

  /** Same rights on both sides, or no region on both. */
  predicate SameRights(g: Option<Region>, h: Option<Region>) {
    && (g.Some? <==> h.Some?)
    && (g.Some? ==> g.value.w == h.value.w && g.value.x == h.value.x && g.value.shared == h.value.shared)
  }

  predicate NoNewRights(g: Option<Region>, h: Option<Region>) {
    h.Some? ==> SameRights(g, h)
  }

  /** The split of v's region failed and v was in the upper half. */
  predicate Lost(g: Option<Region>, lo: nat, hi: nat, km: bool, v: nat) {
    !km && v >= hi && g.Some? && Spans(g.value, lo, hi)
  }

  lemma CutOneFind(r: Region, lo: nat, hi: nat, km: bool, v: nat)
    requires lo <= hi
    ensures var g := FindRegion(CutOne(r, lo, hi, km), v);
      && (In(r, v) && !(lo <= v < hi) && !Lost(Some(r), lo, hi, km, v) ==> SameRights(g, Some(r)))
      && (!In(r, v) || lo <= v < hi || Lost(Some(r), lo, hi, km, v) ==> g.None?)
  {
  }

  /** unmap_range removes the range from the regions, and nothing else unless a split failed. */
  lemma {:induction false} CutFind(rs: seq<Region>, lo: nat, hi: nat, km: bool, v: nat)
    requires Disjoint(rs) && lo <= hi
    ensures var g, h := FindRegion(rs, v), FindRegion(Cut(rs, lo, hi, km), v);
      if lo <= v < hi || Lost(g, lo, hi, km, v) then h.None? else SameRights(g, h)
  {
    if rs == [] {
    } else {
      CutOneFind(rs[0], lo, hi, km, v);
      CutFind(rs[1..], lo, hi, km, v);
      FindConcat(CutOne(rs[0], lo, hi, km), Cut(rs[1..], lo, hi, km), v);
    }
  }

  lemma {:induction false} CutOk(rs: seq<Region>, lo: nat, hi: nat, km: bool)
    requires RegionsOk(rs) && USER_FIRST <= lo <= hi <= USER_END
    ensures RegionsOk(Cut(rs, lo, hi, km))
  {
    if rs == [] {
    } else {
      var a, b := CutOne(rs[0], lo, hi, km), Cut(rs[1..], lo, hi, km);
      assert forall r :: r in rs[1..] ==> r in rs;
      CutOk(rs[1..], lo, hi, km);
      forall v: nat
        ensures FindRegion(a, v).None? || FindRegion(b, v).None?
      {
        CutOneFind(rs[0], lo, hi, km, v);
        CutFind(rs[1..], lo, hi, km, v);
      }
      CutOneOk(rs[0], lo, hi, km);
      DisjointConcat(a, b);
      assert forall r :: r in a + b <==> r in a || r in b;
    }
  }

  lemma CutOneOk(r: Region, lo: nat, hi: nat, km: bool)
    requires USER_FIRST <= lo <= hi <= USER_END && USER_FIRST <= r.lo <= r.hi <= USER_END
    ensures RegionsOk(CutOne(r, lo, hi, km))
  {
  }

  lemma {:induction false} InsertFind(rs: seq<Region>, g: Region, v: nat)
    requires forall u: nat :: In(g, u) ==> FindRegion(rs, u).None?
    ensures FindRegion(Insert(rs, g), v) == if In(g, v) then Some(g) else FindRegion(rs, v)
  {
    if rs != [] && rs[0].lo < g.lo {
      forall u: nat | In(g, u)
        ensures FindRegion(rs[1..], u).None?
      {
        assert FindRegion(rs, u).None?;
      }
      assert FindRegion(rs, v).None? || !In(g, v);
      InsertFind(rs[1..], g, v);
    }
  }

  lemma {:induction false} InsertOk(rs: seq<Region>, g: Region)
    requires RegionsOk(rs) && USER_FIRST <= g.lo <= g.hi <= USER_END
    requires forall u: nat :: In(g, u) ==> FindRegion(rs, u).None?
    ensures RegionsOk(Insert(rs, g))
  {
    if rs != [] && rs[0].lo < g.lo {
      forall u: nat | In(g, u)
        ensures FindRegion(rs[1..], u).None?
      {
        assert FindRegion(rs, u).None?;
      }
      assert forall r :: r in rs[1..] ==> r in rs;
      InsertOk(rs[1..], g);
      forall v: nat | In(rs[0], v)
        ensures FindRegion(Insert(rs[1..], g), v).None?
      {
        InsertFind(rs[1..], g, v);
        assert In(g, v) ==> FindRegion(rs, v).None?;
      }
    } else {
      assert ([g] + rs)[1..] == rs;
    }
  }

  // ---- changing a process's regions ----

  /** Where pages are present the new regions give the same rights. */
  ghost predicate KeepsRights(s: State, pid: Pid, rs: seq<Region>)
    requires pid in s.regions
  {
    forall v :: Slot(pid, v) in s.ptes ==> SameRights(FindRegion(s.regions[pid], v), FindRegion(rs, v))
  }

  lemma RegionsChange(s: State, pid: Pid, rs: seq<Region>)
    requires Inv(s) && pid in s.regions && RegionsOk(rs) && KeepsRights(s, pid, rs)
    ensures var t := s.(regions := s.regions[pid := rs]); Inv(t) && LowPages(t) == LowPages(s) && SameViews(s, t)
  {
    var t := s.(regions := s.regions[pid := rs]);
    RegionsEntries(s, pid, rs);
    hide Entries, Clear, RegionsOk, FindRegion;
    assert forall j :: 0 <= j < |s.refs| ==> HeldOnce(s, j) == HeldOnce(t, j);
    assert t.regions.Keys == s.regions.Keys;
    forall k | k in t.ptes
      ensures FindRegion(t.regions[k.pid], k.page).Some?
    {
      assert k.pid == pid ==> Slot(pid, k.page) in s.ptes;
    }
  }

  lemma RegionsEntries(s: State, pid: Pid, rs: seq<Region>)
    requires Inv(s) && pid in s.regions && KeepsRights(s, pid, rs)
    ensures Entries(s.(regions := s.regions[pid := rs]))
  {
    var t := s.(regions := s.regions[pid := rs]);
    assert Sized(t);
    hide Inv, FindRegion;
    forall l | l in t.ptes
      ensures EntryOk(t, l) && PrivateOk(t, l) && SharedPage(t, l) == SharedPage(s, l)
    {
      EntryAt(s, l);
      assert l.pid == pid ==> Slot(pid, l.page) in s.ptes;
    }
    forall l, m | l in t.ptes && m in t.ptes
      ensures Alike(t, l, m)
    {
      AlikeAt(s, l, m);
    }
  }

  // ---- unmap_range ----

  /** A present page would lose its region: the split of that region gets no memory. */
  ghost predicate Orphans(s: State, pid: Pid, lo: nat, hi: nat, km: bool)
    requires pid in s.regions
  {
    exists v :: Slot(pid, v) in s.ptes && Lost(FindRegion(s.regions[pid], v), lo, hi, km, v)
  }

  /** unmap_range keeps the invariant exactly when no present page is left without a region. */
  lemma UnmapExact(s: State, pid: Pid, lo: nat, hi: nat, km: bool)
    requires Inv(s) && pid in s.regions && USER_FIRST <= lo <= hi <= USER_END
    ensures Inv(Unmap(s, pid, lo, hi, km)) <==> !Orphans(s, pid, lo, hi, km)
  {
    hide Inv, FreePages, FindRegion, Cut;
    InvSized(s);
    FreePagesOk(s, pid, lo, hi);
    var u := FreePages(s, pid, lo, hi);
    var rs := s.regions[pid];
    var t := Unmap(s, pid, lo, hi, km);
    GoodRegions(s, pid);
    CutOk(rs, lo, hi, km);
    forall v: nat
      ensures CutFound(rs, lo, hi, km, v)
    {
      CutFind(rs, lo, hi, km, v);
    }
    if Orphans(s, pid, lo, hi, km) {
      var v :| Slot(pid, v) in s.ptes && Lost(FindRegion(rs, v), lo, hi, km, v);
      assert CutFound(rs, lo, hi, km, v);
      if Inv(t) {
        EntryAt(t, Slot(pid, v));
      }
    } else {
      forall v | Slot(pid, v) in u.ptes
        ensures SameRights(FindRegion(rs, v), FindRegion(Cut(rs, lo, hi, km), v))
      {
        assert CutFound(rs, lo, hi, km, v);
      }
      RegionsChange(u, pid, Cut(rs, lo, hi, km));
    }
  }

  /** What CutFind says of page v. */
  ghost predicate CutFound(rs: seq<Region>, lo: nat, hi: nat, km: bool, v: nat) {
    var g, h := FindRegion(rs, v), FindRegion(Cut(rs, lo, hi, km), v);
    if lo <= v < hi || Lost(g, lo, hi, km, v) then h.None? else SameRights(g, h)
  }

  lemma GoodRegions(s: State, pid: Pid)
    requires Inv(s) && pid in s.regions
    ensures RegionsOk(s.regions[pid]) && Disjoint(s.regions[pid])
  {
  }

  /** Outside pages lo up to hi of pid everything is as before. */
  ghost predicate Outside(s: State, t: State, pid: Pid, lo: nat, hi: nat) {
    && t.regions.Keys == s.regions.Keys && t.held == s.held
    && (forall q :: q in s.regions && q != pid ==> t.regions[q] == s.regions[q])
    && (pid in s.regions ==> forall v: nat :: !(lo <= v < hi) ==>
          NoNewRights(FindRegion(s.regions[pid], v), FindRegion(t.regions[pid], v)))
    && (forall k: Slot :: !(k.pid == pid && lo <= k.page < hi) ==>
      View(t, k) == View(s, k) && (k in t.ptes <==> k in s.ptes))
  }

  /** The regions after unmap_range: the range is gone, every other page keeps its rights. */
  ghost predicate CutAway(rs: seq<Region>, ts: seq<Region>, lo: nat, hi: nat, km: bool) {
    && (forall v: nat :: lo <= v < hi ==> FindRegion(ts, v).None?)
    && (forall v: nat :: NoNewRights(FindRegion(rs, v), FindRegion(ts, v)))
    && (forall v: nat :: !(lo <= v < hi) && !Lost(FindRegion(rs, v), lo, hi, km, v) ==>
          SameRights(FindRegion(rs, v), FindRegion(ts, v)))
  }

  lemma CutsAway(rs: seq<Region>, lo: nat, hi: nat, km: bool)
    requires Disjoint(rs) && lo <= hi
    ensures CutAway(rs, Cut(rs, lo, hi, km), lo, hi, km)
    ensures forall v: nat :: NoNewRights(FindRegion(rs, v), FindRegion(Cut(rs, lo, hi, km), v))
  {
    hide Cut, FindRegion;
    forall v: nat
      ensures CutFound(rs, lo, hi, km, v)
    {
      CutFind(rs, lo, hi, km, v);
    }
    forall v: nat
      ensures lo <= v < hi ==> FindRegion(Cut(rs, lo, hi, km), v).None?
      ensures NoNewRights(FindRegion(rs, v), FindRegion(Cut(rs, lo, hi, km), v))
    {
      assert CutFound(rs, lo, hi, km, v);
    }
    forall v: nat | !(lo <= v < hi) && !Lost(FindRegion(rs, v), lo, hi, km, v)
      ensures SameRights(FindRegion(rs, v), FindRegion(Cut(rs, lo, hi, km), v))
    {
      assert CutFound(rs, lo, hi, km, v);
    }
  }

  lemma UnmapOk(s: State, pid: Pid, lo: nat, hi: nat, km: bool)
    requires Inv(s) && pid in s.regions && USER_FIRST <= lo <= hi <= USER_END
    requires !Orphans(s, pid, lo, hi, km)
    ensures var t := Unmap(s, pid, lo, hi, km);
      && Inv(t) && LowPages(t) == LowPages(s) && Outside(s, t, pid, lo, hi)
      && (forall v: nat :: lo <= v < hi ==> Slot(pid, v) !in t.ptes)
      && CutAway(s.regions[pid], t.regions[pid], lo, hi, km)
  {
    hide Inv, FreePages, FindRegion, Cut, CutAway, Orphans, NoNewRights;
    UnmapExact(s, pid, lo, hi, km);
    InvSized(s);
    FreePagesOk(s, pid, lo, hi);
    GoodRegions(s, pid);
    CutsAway(s.regions[pid], lo, hi, km);
    assert Unmap(s, pid, lo, hi, km).regions.Keys == s.regions.Keys;
  }

  // ---- alloc_user and mmap ----

  lemma {:induction false} AllocPagesOk(s: State, pid: Pid, lo: nat, hi: nat, w: bool, x: bool)
    requires Inv(s) && pid in s.regions
    requires forall v: nat :: lo <= v < hi ==> var g := FindRegion(s.regions[pid], v); g.Some? && g.value.w == w
    ensures var (ok, t) := AllocPages(s, pid, lo, hi, w, x);
      && Inv(t) && SameViews(s, t) && LowPages(t) == LowPages(s) && t.held == s.held
      && (forall k: Slot :: !(k.pid == pid && lo <= k.page < hi) ==> (k in t.ptes <==> k in s.ptes))
      && (forall k :: k in s.ptes ==> k in t.ptes)
      && (ok ==> forall v: nat :: lo <= v < hi ==> Slot(pid, v) in t.ptes)
    decreases hi - lo
  {
    hide Inv, FindRegion, NewPage;
    InvSized(s);
    if lo >= hi {
    } else {
      if Slot(pid, lo) in s.ptes {
        AllocPagesOk(s, pid, lo + 1, hi, w, x);
      } else {
        assert FindRegion(s.regions[pid], lo).Some?;
        NewPageOk(s, Slot(pid, lo), w, x);
        NewPageLow(s, Slot(pid, lo), w, x);
        var (ok, t) := NewPage(s, Slot(pid, lo), w, x);
        if ok {
          AllocPagesOk(t, pid, lo + 1, hi, w, x);
        }
      }
    }
  }

  lemma NewPageLow(s: State, k: Slot, w: bool, x: bool)
    requires Sized(s)
    ensures LowPages(NewPage(s, k, w, x).1) == LowPages(s) && NewPage(s, k, w, x).1.held == s.held
  {
  }

  /** The range of g after do_mmap: on success it is the new region and reads as zeros, else it is
      empty; elsewhere everything is as before. */
  ghost predicate Mapped(s: State, t: State, pid: Pid, g: Region, ok: bool) {
    && Inv(t) && LowPages(t) == LowPages(s) && Outside(s, t, pid, g.lo, g.hi) && pid in t.regions
    && (ok ==> forall v: nat :: In(g, v) ==>
      FindRegion(t.regions[pid], v) == Some(g) && View(t, Slot(pid, v)) == Zeros())
    && (!ok ==> forall v: nat :: In(g, v) ==> FindRegion(t.regions[pid], v).None? && Slot(pid, v) !in t.ptes)
    && (ok && g.shared ==> forall v: nat :: In(g, v) ==> Slot(pid, v) in t.ptes)
  }

  /** do_mmap at a chosen place, with its three out-of-memory exits. */
  lemma MmapOk(s: State, pid: Pid, g: Region, split: bool, km: bool)
    requires Inv(s) && pid in s.regions && USER_FIRST <= g.lo < g.hi <= USER_END
    requires !Orphans(s, pid, g.lo, g.hi, split)
    ensures var (ok, t) := Mmap(s, pid, g, split, km); Mapped(s, t, pid, g, ok)
  {
    hide Inv, FindRegion, Unmap, AllocPages, Orphans, Insert, LowPages, SameRights, Outside;
    InvSized(s);
    UnmapOk(s, pid, g.lo, g.hi, split);
    OutsideKeys(s, Unmap(s, pid, g.lo, g.hi, split), pid, g.lo, g.hi);
    var t := Unmap(s, pid, g.lo, g.hi, split);
    if km {
      var u := t.(regions := t.regions[pid := Insert(t.regions[pid], g)]);
      AddRegionOk(t, pid, g, u);
      Widened(s, t, u, pid, g);
      if g.shared {
        AllocPagesOk(u, pid, g.lo, g.hi, g.w, g.x);
        var (ok, x) := AllocPages(u, pid, g.lo, g.hi, g.w, g.x);
        Refilled(s, u, x, pid, g);
        if !ok {
          MmapUndone(s, x, pid, g, split);
        }
      }
    }
  }

  lemma OutsideKeys(s: State, t: State, pid: Pid, lo: nat, hi: nat)
    requires Outside(s, t, pid, lo, hi)
    ensures t.regions.Keys == s.regions.Keys
  {
  }

  /** Adding the region changes nothing outside it. */
  lemma Widened(s: State, t: State, u: State, pid: Pid, g: Region)
    requires pid in s.regions && Outside(s, t, pid, g.lo, g.hi) && SameViews(t, u) && u == t.(regions := u.regions)
    requires u.regions.Keys == t.regions.Keys && forall q :: q in t.regions && q != pid ==> u.regions[q] == t.regions[q]
    requires forall v: nat ::
      FindRegion(u.regions[pid], v) == if In(g, v) then Some(g) else FindRegion(t.regions[pid], v)
    ensures Outside(s, u, pid, g.lo, g.hi)
  {
    hide FindRegion, View, SameRights;
  }

  /** Nor does filling it. */
  lemma Refilled(s: State, u: State, x: State, pid: Pid, g: Region)
    requires Outside(s, u, pid, g.lo, g.hi) && SameViews(u, x) && x.regions == u.regions && x.held == u.held
    requires forall k: Slot :: !(k.pid == pid && g.lo <= k.page < g.hi) ==> (k in x.ptes <==> k in u.ptes)
    ensures Outside(s, x, pid, g.lo, g.hi)
  {
    hide FindRegion, View, SameRights;
  }

  /** The frames ran out while filling a shared mapping. */
  lemma MmapUndone(s: State, x: State, pid: Pid, g: Region, split: bool)
    requires Inv(x) && pid in x.regions && USER_FIRST <= g.lo < g.hi <= USER_END
    requires forall v: nat :: In(g, v) ==> FindRegion(x.regions[pid], v) == Some(g)
    requires LowPages(x) == LowPages(s) && Outside(s, x, pid, g.lo, g.hi)
    ensures Sized(x) && Mapped(s, Unmap(x, pid, g.lo, g.hi, split), pid, g, false)
  {
    hide Inv, FindRegion, Unmap, Orphans, LowPages;
    InvSized(x);
    ExactRegion(x, pid, g, split);
    UnmapOk(x, pid, g.lo, g.hi, split);
  }

  lemma AddRegionOk(t: State, pid: Pid, g: Region, u: State)
    requires Inv(t) && pid in t.regions && USER_FIRST <= g.lo <= g.hi <= USER_END
    requires forall v: nat :: In(g, v) ==> Slot(pid, v) !in t.ptes && FindRegion(t.regions[pid], v).None?
    requires u == t.(regions := t.regions[pid := Insert(t.regions[pid], g)])
    ensures Inv(u) && LowPages(u) == LowPages(t) && SameViews(t, u) && u.regions.Keys == t.regions.Keys
    ensures forall v: nat ::
      FindRegion(u.regions[pid], v) == if In(g, v) then Some(g) else FindRegion(t.regions[pid], v)
  {
    hide Inv, FindRegion, Insert;
    GoodRegions(t, pid);
    InsertOk(t.regions[pid], g);
    forall v: nat
      ensures FindRegion(u.regions[pid], v) == if In(g, v) then Some(g) else FindRegion(t.regions[pid], v)
    {
      InsertFind(t.regions[pid], g, v);
    }
    RegionsChange(t, pid, Insert(t.regions[pid], g));
  }

  /** Unmapping exactly one region splits none. */
  lemma ExactRegion(x: State, pid: Pid, g: Region, km: bool)
    requires Inv(x) && pid in x.regions
    requires forall v: nat :: In(g, v) ==> FindRegion(x.regions[pid], v) == Some(g)
    requires g.lo < g.hi
    ensures !Orphans(x, pid, g.lo, g.hi, km)
  {
    hide Inv, FindRegion;
    GoodRegions(x, pid);
    forall v | Slot(pid, v) in x.ptes
      ensures !Lost(FindRegion(x.regions[pid], v), g.lo, g.hi, km, v)
    {
      var h := FindRegion(x.regions[pid], v);
      if h.Some? && Spans(h.value, g.lo, g.hi) {
        OneRegion(x.regions[pid], h.value, g.lo);
      }
    }
  }

  lemma {:induction false} OneRegion(rs: seq<Region>, r: Region, v: nat)
    requires Disjoint(rs) && r in rs && In(r, v)
    ensures FindRegion(rs, v) == Some(r)
  {
    if r != rs[0] {
      OneRegion(rs[1..], r, v);
    }
  }
}
