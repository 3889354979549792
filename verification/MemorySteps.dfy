/** The invariant and the views of every process across demand faults, copy-on-write faults,
    fork, unmapping and exit, on the failing paths too. */
module MemorySteps {
  import opened Wrappers
  import opened Bitmaps
  import opened UserMemory
  import opened MemoryInvariant

  /** No process sees a difference. */
  ghost predicate SameViews(s: State, t: State) {
    forall k: Slot :: View(t, k) == View(s, k)
  }

  /** The allocator's books and the page tables are as before; only the hint and the contents of
      a free frame may differ. */
  ghost predicate Undone(s: State, t: State) {
    t == s.(hint := t.hint, pages := t.pages)
  }

  /** Every frame is in use. */
  predicate Full(s: State) {
    forall i :: 0 <= i < |s.bits| ==> s.bits[i]
  }

  // ---- a fresh page ----

  lemma NewPageOk(s: State, k: Slot, w: bool, x: bool)
    requires Inv(s) && k !in s.ptes
    requires k.pid in s.regions && FindRegion(s.regions[k.pid], k.page).Some?
    requires w == FindRegion(s.regions[k.pid], k.page).value.w
    ensures var (ok, t) := NewPage(s, k, w, x);
      && Inv(t) && SameViews(s, t)
      && (ok ==> k in t.ptes && t.ptes == s.ptes[k := t.ptes[k]]
                 && t.ptes[k] == Pte(t.ptes[k].frame, w, true, x, false))
      && (!ok ==> Undone(s, t))
      && (ok <==> !Full(s) && (TableOf(k) in s.tables || s.low > 0))
  {
    hide Inv, FindRegion, Drop, Added;
    InvSized(s);
    PickExact(s.bits, s.hint);
    var p := Pick(s.bits, s.hint, 0);
    if p.Some? {
      var i := p.value;
      var e := Pte(i, w, true, x, false);
      var t := Take(s, i, Zeros());
      var (ok, u) := MapPage(t, k, e);
      FreeFrame(s, i);
      if ok {
        AddedByMap(s, k, e, Zeros());
        AddOk(s, k, e, Zeros(), u);
      } else {
        TakeDrop(s, i, Zeros());
        SparePage(s, i, Zeros(), i + 1);
      }
    }
  }

  lemma AddedByMap(s: State, k: Slot, e: Pte, c: Page)
    requires Sized(s) && k !in s.ptes && e.frame < |s.bits| && !s.bits[e.frame] && e.u
    requires k.pid in s.regions && FindRegion(s.regions[k.pid], k.page).Some?
    requires e.w == FindRegion(s.regions[k.pid], k.page).value.w
    requires MapPage(Take(s, e.frame, c), k, e).0
    ensures Added(s, k, e, c, MapPage(Take(s, e.frame, c), k, e).1)
  {
    assert TableOf(k) in s.tables ==> s.tables + {TableOf(k)} == s.tables;
  }

  lemma TakeDrop(s: State, i: nat, c: Page)
    requires Sized(s) && i < |s.bits| && !s.bits[i] && s.refs[i] == 0
    ensures Drop(Take(s, i, c), i) == s.(hint := i + 1, pages := s.pages[i := c])
  {
    assert s.bits[i := true][i := false] == s.bits;
    assert s.refs[i := 1][i := 0] == s.refs;
    assert (1 + REF_MOD - 1) % REF_MOD == 0;
  }

  lemma SparePage(s: State, i: nat, c: Page, hint: nat)
    requires Inv(s) && i < |s.bits| && !s.bits[i] && hint <= |s.bits|
    ensures var t := s.(hint := hint, pages := s.pages[i := c]); Inv(t) && SameViews(s, t)
  {
    FreeFrame(s, i);
    PagesChange(s, s.pages[i := c], hint);
    hide Inv;
  }

  /** The invariant does not speak of page contents. */
  lemma PagesChange(s: State, pages: seq<Page>, hint: nat)
    requires Inv(s) && |pages| == |s.pages| && hint <= |s.bits|
    ensures Inv(s.(hint := hint, pages := pages))
  {
    hide Clear, FindRegion, RegionsOk;
    var t := s.(hint := hint, pages := pages);
    assert forall k :: k in s.ptes ==> EntryOk(s, k) && EntryOk(t, k) && PrivateOk(s, k) && PrivateOk(t, k);
    assert forall k, l :: k in s.ptes && l in s.ptes ==> Alike(s, k, l) && Alike(t, k, l);
    assert forall j :: 0 <= j < |s.refs| ==> HeldOnce(s, j) == HeldOnce(t, j);
  }

  // ---- faults ----

  lemma BreakShareOk(s: State, k: Slot)
    requires Inv(s) && k in s.ptes && !s.ptes[k].w && k.pid in s.regions
    requires var g := FindRegion(s.regions[k.pid], k.page); g.Some? && g.value.w
    ensures var g := FindRegion(s.regions[k.pid], k.page).value; var (ok, t) := BreakShare(s, k, g);
      && Inv(t) && SameViews(s, t)
      && (ok ==> Writable(t, k) && t.ptes == s.ptes[k := t.ptes[k]])
      && (!ok ==> t == s)
      && (ok <==> !Full(s) || s.refs[s.ptes[k].frame] == 1)
  {
    hide Inv, FindRegion, Drop, Take;
    var g := FindRegion(s.regions[k.pid], k.page).value;
    var i := s.ptes[k].frame;
    EntryAt(s, k);
    PickExact(s.bits, s.hint);
    if s.refs[i] > 1 {
      var p := Pick(s.bits, s.hint, 0);
      if p.Some? {
        MoveOk(s, k, g, p.value);
      }
    } else {
      ReflagOk(s, k, RegionPte(g, i));
    }
  }

  /** The shared frame loses one entry and a copy of it gains one. */
  lemma MoveOk(s: State, k: Slot, g: Region, j: nat)
    requires Inv(s) && k in s.ptes && s.ptes[k].frame < |s.refs| && s.refs[s.ptes[k].frame] > 1
    requires j < |s.bits| && !s.bits[j] && k.pid in s.regions && g.w
    requires FindRegion(s.regions[k.pid], k.page) == Some(g)
    ensures var i := s.ptes[k].frame;
      var t := MapPage(Drop(Take(s, j, s.pages[i]), i), k, RegionPte(g, j)).1;
      Inv(t) && SameViews(s, t) && Writable(t, k) && t.ptes == s.ptes[k := t.ptes[k]]
  {
    hide Inv, FindRegion, Drop;
    var i := s.ptes[k].frame;
    var e := RegionPte(g, j);
    EntryAt(s, k);
    var c := s.pages[i];
    FreeFrame(s, j);
    RefsSmall(s, i);
    var d := DelPte(Drop(s, i), k);
    var t := MapPage(Drop(Take(s, j, c), i), k, e).1;
    RemoveOk(s, k, d);
    DropExact(s, i);
    DropExact(Take(s, j, c), i);
    assert s.refs[i := s.refs[i] - 1][j := 1] == s.refs[j := 1][i := s.refs[i] - 1];
    assert d.ptes[k := e] == s.ptes[k := e];
    assert d.tables + {TableOf(k)} == d.tables;
    assert Added(d, k, e, c, t);
    AddOk(d, k, e, c, t);
  }

  /** fault_in, read or write: the invariant stays, no process sees a difference, a permitted
      access succeeds on retry, and it fails only for a missing region, a read-only region or
      exhausted memory, leaving the page tables and the counts as they were. */
  lemma FaultOk(s: State, k: Slot, write: bool)
    requires Inv(s) && k.pid in s.regions
    ensures var (ok, t) := FaultIn(s, k, write);
      && Inv(t) && SameViews(s, t)
      && (ok ==> k in t.ptes && (write ==> Writable(t, k)) && t.ptes == s.ptes[k := t.ptes[k]])
      && (!ok ==> Undone(s, t))
      && (ok <==> Permitted(s, k, write) && Room(s, k, write))
  {
    var g := FindRegion(s.regions[k.pid], k.page);
    if g.Some? && (write ==> g.value.w) {
      if k !in s.ptes {
        NewPageOk(s, k, g.value.w, g.value.x);
      } else {
        EntryAt(s, k);
        if write && !s.ptes[k].w {
          BreakShareOk(s, k);
        } else {
          assert s.ptes == s.ptes[k := s.ptes[k]];
        }
      }
    }
  }

  predicate Permitted(s: State, k: Slot, write: bool)
    requires k.pid in s.regions
  {
    var g := FindRegion(s.regions[k.pid], k.page);
    g.Some? && (write ==> g.value.w)
  }

  /** The memory a fault needs is there: a frame and a page table for a new page, a frame for a
      copy unless the page is the frame's only user. */
  predicate Room(s: State, k: Slot, write: bool)
    requires Sized(s)
  {
    if k !in s.ptes then !Full(s) && (TableOf(k) in s.tables || s.low > 0)
    else write && !s.ptes[k].w && s.ptes[k].frame < |s.refs| && s.refs[s.ptes[k].frame] != 1 ==> !Full(s)
  }

  // ---- giving pages back ----

  /** From s to t only the allocator's books and entries of pages lo up to hi of pid changed, and those are gone. */
  ghost predicate Gone(s: State, t: State, pid: Pid, lo: nat, hi: nat) {
    && t == s.(bits := t.bits, refs := t.refs, nfree := t.nfree, ptes := t.ptes)
    && (forall k :: k in t.ptes <==> k in s.ptes && !(k.pid == pid && lo <= k.page < hi))
    && (forall k :: k in t.ptes ==> t.ptes[k] == s.ptes[k])
  }

  lemma InvSized(s: State)
    requires Inv(s)
    ensures Sized(s)
  {
  }

  lemma FreePageOk(s: State, k: Slot)
    requires Inv(s)
    ensures var t := FreePage(s, k); Inv(t) && Gone(s, t, k.pid, k.page, k.page + 1)
  {
    hide Inv, Drop;
    InvSized(s);
    if k in s.ptes {
      EntryAt(s, k);
      RefsSmall(s, s.ptes[k].frame);
      DropExact(s, s.ptes[k].frame);
      RemoveOk(s, k, FreePage(s, k));
    }
  }

  lemma {:induction false} FreePagesOk(s: State, pid: Pid, lo: nat, hi: nat)
    requires Inv(s)
    ensures var t := FreePages(s, pid, lo, hi); Inv(t) && Gone(s, t, pid, lo, hi)
    decreases hi - lo
  {
    hide Inv, FreePage;
    InvSized(s);
    if lo >= hi {
    } else {
      FreePageOk(s, Slot(pid, lo));
      FreePagesOk(FreePage(s, Slot(pid, lo)), pid, lo + 1, hi);
    }
  }

  lemma {:induction false} FreeAllOk(s: State, pid: Pid, v: nat)
    requires Inv(s) && v <= PAGES
    ensures var t := FreeAll(s, pid, v); Inv(t) && Gone(s, t, pid, v, PAGES)
    decreases PAGES - v
  {
    hide Inv, FreePage;
    InvSized(s);
    if v >= PAGES {
    } else {
      if SharedPde(v / 1024) {
        NotShared(s, Slot(pid, v));
        FreeAllOk(s, pid, v + 1);
      } else {
        FreePageOk(s, Slot(pid, v));
        FreeAllOk(FreePage(s, Slot(pid, v)), pid, v + 1);
      }
    }
  }

  /** User pages lie under no shared directory entry. */
  lemma NotShared(s: State, k: Slot)
    requires Inv(s)
    ensures k in s.ptes ==> !SharedPde(k.page / 1024) && k.page < PAGES
  {
    if k in s.ptes {
      EntryAt(s, k);
    }
  }

  /** Pages of low memory: free, page tables, page directories. */
  ghost function LowPages(s: State): nat {
    s.low + |s.tables| + |s.regions|
  }

  /** Everything the address space held goes back, and no other process sees a difference. */
  lemma ExitOk(s: State, pid: Pid)
    requires Inv(s) && pid in s.regions
    ensures var t := Exit(s, pid);
      && Inv(t) && LowPages(t) == LowPages(s) && t.regions == s.regions - {pid}
      && (forall k :: k in t.ptes <==> k in s.ptes && k.pid != pid)
      && (forall k :: k in t.ptes ==> t.ptes[k] == s.ptes[k])
      && t.pages == s.pages && t.held == s.held
      && t.tables == s.tables - TablesOf(s, pid)
  {
    var u := FreeAll(s, pid, 0);
    var t := Exit(s, pid);
    FreeAllOk(s, pid, 0);
    forall k | k in u.ptes
      ensures k.pid != pid
    {
      NotShared(s, k);
    }
    CloseOk(u, pid, t);
  }

  lemma CloseOk(u: State, pid: Pid, t: State)
    requires Inv(u) && pid in u.regions && forall k :: k in u.ptes ==> k.pid != pid
    requires t == u.(tables := u.tables - TablesOf(u, pid), low := u.low + |TablesOf(u, pid)| + 1,
                       regions := u.regions - {pid})
    ensures Inv(t) && LowPages(t) == LowPages(u)
  {
    CloseEntries(u, pid, t);
    hide Entries, Clear, RegionsOk, FindRegion;
    assert TablesOf(u, pid) <= u.tables;
    assert t.regions.Keys == u.regions.Keys - {pid};
    assert forall j :: 0 <= j < |u.refs| ==> HeldOnce(u, j) == HeldOnce(t, j);
  }

  lemma CloseEntries(u: State, pid: Pid, t: State)
    requires Inv(u) && forall k :: k in u.ptes ==> k.pid != pid
    requires t == u.(tables := u.tables - TablesOf(u, pid), low := t.low, regions := u.regions - {pid})
    ensures Entries(t)
  {
    assert Sized(t);
    hide Inv, FindRegion;
    forall l | l in t.ptes
      ensures EntryOk(t, l) && PrivateOk(t, l)
    {
      EntryAt(u, l);
    }
    forall l, m | l in t.ptes && m in t.ptes
      ensures Alike(t, l, m)
    {
      AlikeAt(u, l, m);
    }
  }

  // ---- fork ----

  /** From s to t entries changed flags only, except that dst may have gained entries and tables. */
  ghost predicate Forking(s: State, t: State, dst: Pid) {
    && t.pages == s.pages && t.regions == s.regions && t.held == s.held && LowPages(t) == LowPages(s)
    && (forall k :: k in s.ptes ==> k in t.ptes && t.ptes[k].frame == s.ptes[k].frame)
    && (forall k :: k in t.ptes && k.pid != dst ==> k in s.ptes)
    && (forall x :: x in s.tables ==> x in t.tables)
    && (forall x :: x in t.tables && x.pid != dst ==> x in s.tables)
  }

  /** What one page of a fork does to the entries, whatever the counts. */
  lemma PageForking(s: State, src: Pid, dst: Pid, v: nat)
    requires Sized(s) && src != dst && src in s.regions && Slot(src, v) in s.ptes && Slot(dst, v) !in s.ptes
    requires s.ptes[Slot(src, v)].frame < |s.refs|
    ensures var (ok, t) := ForkPage(s, src, dst, v);
      && Forking(s, t, dst)
      && (ok <==> Slot(dst, v) in t.ptes)
      && (ok ==> t.ptes[Slot(dst, v)].frame == s.ptes[Slot(src, v)].frame)
      && (forall p :: p != v && Slot(dst, p) in t.ptes ==> Slot(dst, p) in s.ptes)
  {
    hide FindRegion, LowPages, ForkPte, Ref, MapPage;
    var k, l := Slot(src, v), Slot(dst, v);
    var e := ForkPte(s.ptes[k], FindRegion(s.regions[src], v));
    SameFrameForked(s.ptes[k], FindRegion(s.regions[src], v));
    var t := s.(ptes := s.ptes[k := e]);
    var (ok, u) := MapPage(t, l, e);
    MapLow(t, l, e);
    LowSame(s, t);
    if ok && e.frame < |u.refs| {
      RefOnly(u, e.frame);
      LowSame(u, Ref(u, e.frame));
    }
  }

  lemma SameFrameForked(e: Pte, g: Option<Region>)
    ensures ForkPte(e, g).frame == e.frame
  {
  }

  /** map_page adds the entry, and a table of its own process when there is none. */
  lemma MapLow(s: State, k: Slot, e: Pte)
    ensures var (ok, t) := MapPage(s, k, e);
      && LowPages(t) == LowPages(s) && t == s.(ptes := t.ptes, tables := t.tables, low := t.low)
      && (ok ==> t.ptes == s.ptes[k := e]) && (!ok ==> t == s)
      && (forall x :: x in s.tables ==> x in t.tables)
      && (forall x :: x in t.tables && x.pid != k.pid ==> x in s.tables)
  {
  }

  lemma LowSame(s: State, t: State)
    requires t.low == s.low && t.tables == s.tables && t.regions == s.regions
    ensures LowPages(t) == LowPages(s)
  {
  }

  lemma RefOnly(s: State, i: nat)
    requires i < |s.refs|
    ensures Ref(s, i) == s.(refs := Ref(s, i).refs)
  {
  }

  lemma ForkPageOk(s: State, src: Pid, dst: Pid, v: nat)
    requires Inv(s) && src != dst && src in s.regions && dst in s.regions && s.regions[dst] == s.regions[src]
    requires Slot(src, v) in s.ptes && Slot(dst, v) !in s.ptes
    ensures var (ok, t) := ForkPage(s, src, dst, v);
      && Inv(t) && Forking(s, t, dst)
      && (ok <==> Slot(dst, v) in t.ptes)
      && (ok ==> t.ptes[Slot(dst, v)].frame == s.ptes[Slot(src, v)].frame)
      && (forall p :: p != v && Slot(dst, p) in t.ptes ==> Slot(dst, p) in s.ptes)
  {
    hide Inv, FindRegion, Ref, Forking, LowPages;
    var k, l := Slot(src, v), Slot(dst, v);
    InvSized(s);
    EntryAt(s, k);
    PageForking(s, src, dst, v);
    var e := ForkPte(s.ptes[k], FindRegion(s.regions[src], v));
    var t := s.(ptes := s.ptes[k := e]);
    DowngradeOk(s, k);
    var (ok, u) := MapPage(t, l, e);
    if ok {
      RefsSmall(t, e.frame);
      RefExact(u, e.frame);
      RefExact(t, e.frame);
      assert TableOf(l) in t.tables ==> t.tables + {TableOf(l)} == t.tables;
      LinkOk(t, k, l, Ref(u, e.frame));
    }
  }

  lemma DowngradeOk(s: State, k: Slot)
    requires Inv(s) && k in s.ptes && k.pid in s.regions
    ensures var e := ForkPte(s.ptes[k], FindRegion(s.regions[k.pid], k.page));
      Inv(s.(ptes := s.ptes[k := e])) && (e.w ==> SharedPage(s, k))
  {
    hide Inv, FindRegion;
    EntryAt(s, k);
    ReflagOk(s, k, ForkPte(s.ptes[k], FindRegion(s.regions[k.pid], k.page)));
  }

  lemma {:induction false} ForkPagesOk(s: State, src: Pid, dst: Pid, v: nat)
    requires Inv(s) && src != dst && src in s.regions && dst in s.regions && s.regions[dst] == s.regions[src]
    requires v <= PAGES && forall p :: p >= v ==> Slot(dst, p) !in s.ptes
    ensures var (ok, t) := ForkPages(s, src, dst, v);
      && Inv(t) && Forking(s, t, dst)
      && (forall p: nat :: p < v && Slot(dst, p) in t.ptes ==> Slot(dst, p) in s.ptes)
      && (ok ==> forall p :: p >= v ==> (Slot(dst, p) in t.ptes <==> Slot(src, p) in s.ptes))
      && (ok ==> forall p :: p >= v && Slot(dst, p) in t.ptes ==>
        t.ptes[Slot(dst, p)].frame == s.ptes[Slot(src, p)].frame)
    decreases PAGES - v
  {
    hide Inv, ForkPage;
    InvSized(s);
    forall p | p >= v
      ensures Slot(src, p) in s.ptes ==> !SharedPde(p / 1024) && p < PAGES
    {
      NotShared(s, Slot(src, p));
    }
    if v >= PAGES {
    } else {
      if SharedPde(v / 1024) || Slot(src, v) !in s.ptes {
        ForkPagesOk(s, src, dst, v + 1);
      } else {
        ForkPageOk(s, src, dst, v);
        var (ok, t) := ForkPage(s, src, dst, v);
        if ok {
          ForkPagesOk(t, src, dst, v + 1);
        }
      }
    }
  }

  /** One page of the fork's loop. */
  lemma ForkStep(s: State, src: Pid, dst: Pid, v: nat)
    requires Sized(s) && src in s.regions && v < PAGES && !SharedPde(v / 1024)
    ensures Slot(src, v) !in s.ptes ==> ForkPages(s, src, dst, v) == ForkPages(s, src, dst, v + 1)
    ensures Slot(src, v) in s.ptes ==>
      var (ok, t) := ForkPage(s, src, dst, v);
      ForkPages(s, src, dst, v) == if ok then ForkPages(t, src, dst, v + 1) else (false, t)
  {
    hide ForkPage;
  }

  /** Absent pages are passed over. */
  lemma {:induction false} SkipFork(s: State, src: Pid, dst: Pid, v: nat, w: nat)
    requires Sized(s) && src in s.regions && v <= w <= PAGES
    requires forall p: nat :: v <= p < w ==> Slot(src, p) !in s.ptes
    ensures ForkPages(s, src, dst, v) == ForkPages(s, src, dst, w)
    decreases w - v
  {
    if v >= w {
    } else {
      SkipFork(s, src, dst, v + 1, w);
    }
  }

  /** Everyone but pid sees what they saw, through the same frames. */
  ghost predicate OthersKeep(s: State, t: State, pid: Pid) {
    forall k: Slot :: k.pid != pid ==> View(t, k) == View(s, k) && (k in t.ptes <==> k in s.ptes)
  }

  /** After fork the child has the parent's regions and bytes; a fork that fails gives everything
      back. No other process, the parent included, sees a difference. */
  lemma ForkOk(s: State, src: Pid, dst: Pid, km: bool)
    requires Inv(s) && src in s.regions && dst !in s.regions
    ensures var (ok, t) := Fork(s, src, dst, km);
      && Inv(t) && LowPages(t) == LowPages(s) && t.held == s.held && OthersKeep(s, t, dst)
      && (ok ==> t.regions == s.regions[dst := s.regions[src]])
      && (ok ==> forall p :: View(t, Slot(dst, p)) == View(s, Slot(src, p)))
      && (!ok ==> t.regions == s.regions && t.tables == s.tables && t.low == s.low)
  {
    hide Inv, ForkPages, Exit, LowPages;
    InvSized(s);
    if s.low > 0 && km {
      var t := s.(low := s.low - 1, regions := s.regions[dst := s.regions[src]]);
      OpenOk(s, src, dst, t);
      ForkPagesOk(t, src, dst, 0);
      var (ok, u) := ForkPages(t, src, dst, 0);
      forall k: Slot | k.pid != dst
        ensures View(u, k) == View(s, k) && (k in u.ptes <==> k in s.ptes)
      {
      }
      if !ok {
        FailedFork(s, src, dst, t, u);
      }
    }
  }

  lemma FailedFork(s: State, src: Pid, dst: Pid, t: State, u: State)
    requires Inv(u) && src in s.regions && dst !in s.regions && s.low > 0
    requires t == s.(low := s.low - 1, regions := s.regions[dst := s.regions[src]])
    requires Forking(t, u, dst) && OthersKeep(s, u, dst)
    requires (forall k :: k in s.ptes ==> k.pid != dst) && (forall x :: x in s.tables ==> x.pid != dst)
    ensures Sized(u)
    ensures var z := Exit(u, dst);
      && Inv(z) && LowPages(z) == LowPages(s) && z.held == s.held && OthersKeep(s, z, dst)
      && z.regions == s.regions && z.tables == s.tables && z.low == s.low
  {
    hide Inv, Exit;
    InvSized(u);
    ExitOk(u, dst);
    var z := Exit(u, dst);
    assert z.regions == s.regions;
    assert z.tables == s.tables;
    assert |t.regions| == |s.regions| + 1 by { assert t.regions.Keys == s.regions.Keys + {dst}; }
  }

  lemma OpenOk(s: State, src: Pid, dst: Pid, t: State)
    requires Inv(s) && src in s.regions && dst !in s.regions && s.low > 0
    requires t == s.(low := s.low - 1, regions := s.regions[dst := s.regions[src]])
    ensures Inv(t) && (forall k :: k in s.ptes ==> k.pid != dst) && (forall x :: x in s.tables ==> x.pid != dst)
    ensures LowPages(t) == LowPages(s)
  {
    OpenEntries(s, src, dst, t);
    hide Entries, Clear, RegionsOk, FindRegion;
    assert forall j :: 0 <= j < |s.refs| ==> HeldOnce(s, j) == HeldOnce(t, j);
    assert t.regions.Keys == s.regions.Keys + {dst};
  }

  lemma OpenEntries(s: State, src: Pid, dst: Pid, t: State)
    requires Inv(s) && src in s.regions && dst !in s.regions
    requires t == s.(low := t.low, regions := s.regions[dst := s.regions[src]])
    ensures Entries(t)
  {
    assert Sized(t);
    hide Inv, FindRegion;
    forall l | l in t.ptes
      ensures EntryOk(t, l) && PrivateOk(t, l)
    {
      EntryAt(s, l);
    }
    forall l, m | l in t.ptes && m in t.ptes
      ensures Alike(t, l, m)
    {
      EntryAt(s, l);
      EntryAt(s, m);
      AlikeAt(s, l, m);
    }
  }
}
