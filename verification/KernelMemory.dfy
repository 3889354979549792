/** The memory manager as the kernel runs it: loops over the frame bitmap, the page tables and the
    region list, updating them in place, each proved against its specification function. */
module KernelMemory {
  import opened Wrappers
  import opened Words
  import opened Bitmaps
  import opened UserMemory
  import opened MemoryInvariant
  import opened MemorySteps
  import opened MemoryRegions
  import opened MemoryRuns
  import opened MemoryPlaces

  class Memory {
    var bits: seq<bool>
    var refs: seq<nat>
    var nfree: int
    var hint: nat
    var pages: seq<Page>
    var ptes: map<Slot, Pte>
    var tables: set<Table>
    var regions: map<Pid, seq<Region>>
    var low: nat
    var held: set<nat>

    ghost function Abs(): State
      reads this
    {
      State(bits, refs, nfree, hint, pages, ptes, tables, regions, low, held)
    }

    /** mm_init: n frames, all free, and no processes. */
    constructor (n: nat, lowPages: nat)
      ensures Inv(Abs()) && nfree == n && ptes == map[] && regions == map[]
    {
      bits, refs, pages := seq(n, i => false), seq(n, i => 0), seq(n, i => Zeros());
      nfree, hint, low := n, 0, lowPages;
      ptes, tables, regions, held := map[], {}, map[], {};
      new;
      AllClear(bits);
      assert forall i :: 0 <= i < n ==> Refs(ptes, i) == {};
    }

    /** frame_alloc. */
    method FrameAlloc() returns (r: Option<nat>)
      requires Sized(Abs())
      modifies this
      ensures r == Pick(old(bits), old(hint), 0)
      ensures r.None? ==> Abs() == old(Abs())
      ensures r.Some? ==> Abs() == Take(old(Abs()), r.value, old(pages)[r.value])
    {
      var n := 0;
      while n < |bits|
        invariant n <= |bits|
        invariant Abs() == old(Abs()) && Pick(bits, hint, 0) == Pick(bits, hint, n)
      {
        var i := (hint + n) % |bits|;
        if !bits[i] {
          bits, refs, hint, nfree := bits[i := true], refs[i := 1], i + 1, nfree - 1;
          assert pages[i := pages[i]] == pages;
          return Some(i);
        }
        n := n + 1;
      }
      return None;
    }

    /** frame_free. */
    method FrameFree(i: nat)
      requires Sized(Abs()) && i < |bits|
      modifies this
      ensures Abs() == Drop(old(Abs()), i)
    {
      refs := refs[i := (refs[i] + REF_MOD - 1) % REF_MOD];
      if refs[i] == 0 {
        bits, nfree := bits[i := false], nfree + 1;
      }
    }

    /** map_page. */
    method MapAt(k: Slot, e: Pte) returns (ok: bool)
      modifies this
      ensures (ok, Abs()) == MapPage(old(Abs()), k, e)
    {
      if TableOf(k) !in tables {
        if low == 0 {
          return false;
        }
        low, tables := low - 1, tables + {TableOf(k)};
      }
      ptes := ptes[k := e];
      return true;
    }

    method AddPage(k: Slot, w: bool, x: bool) returns (ok: bool)
      requires Sized(Abs())
      modifies this
      ensures (ok, Abs()) == NewPage(old(Abs()), k, w, x)
    {
      var r := FrameAlloc();
      if r.None? {
        return false;
      }
      var i := r.value;
      pages := pages[i := Zeros()];
      assert Abs() == Take(old(Abs()), i, Zeros());
      ok := MapAt(k, Pte(i, w, true, x, false));
      if !ok {
        FrameFree(i);
      }
    }

    /** alloc_user. */
    method AllocUser(pid: Pid, lo: nat, hi: nat, w: bool, x: bool) returns (ok: bool)
      requires Sized(Abs())
      modifies this
      ensures (ok, Abs()) == AllocPages(old(Abs()), pid, lo, hi, w, x)
    {
      var v := lo;
      while v < hi
        invariant lo <= v && Sized(Abs())
        invariant AllocPages(Abs(), pid, v, hi, w, x) == AllocPages(old(Abs()), pid, lo, hi, w, x)
      {
        if Slot(pid, v) !in ptes {
          ok := AddPage(Slot(pid, v), w, x);
          if !ok {
            return;
          }
        }
        v := v + 1;
      }
      return true;
    }

    method FreeAt(k: Slot)
      requires Sized(Abs())
      modifies this
      ensures Abs() == FreePage(old(Abs()), k)
    {
      if k in ptes && ptes[k].frame < |bits| {
        FrameFree(ptes[k].frame);
        ptes := ptes - {k};
      }
    }

    /** free_user. */
    method FreeUser(pid: Pid, lo: nat, hi: nat)
      requires Sized(Abs())
      modifies this
      ensures Abs() == FreePages(old(Abs()), pid, lo, hi)
    {
      var v := lo;
      while v < hi
        invariant lo <= v && Sized(Abs())
        invariant FreePages(Abs(), pid, v, hi) == FreePages(old(Abs()), pid, lo, hi)
      {
        FreeAt(Slot(pid, v));
        v := v + 1;
      }
    }

    /** find_region. */
    method LookUp(pid: Pid, v: nat) returns (r: Option<Region>)
      requires pid in regions
      ensures r == FindRegion(regions[pid], v)
    {
      var rs := regions[pid];
      var i := 0;
      while i < |rs|
        invariant i <= |rs| && FindRegion(rs, v) == FindRegion(rs[i..], v)
      {
        if In(rs[i], v) {
          return Some(rs[i]);
        }
        i := i + 1;
      }
      return None;
    }

    /** fault_in, with what it means for every process. */
    method Fault(k: Slot, write: bool) returns (ok: bool)
      requires Inv(Abs()) && k.pid in regions
      modifies this
      ensures (ok, Abs()) == FaultIn(old(Abs()), k, write)
      ensures Inv(Abs()) && SameViews(old(Abs()), Abs()) && (ok && write ==> Writable(Abs(), k))
    {
      hide Inv;
      ghost var s := Abs();
      FaultOk(s, k, write);
      InvSized(s);
      var g := LookUp(k.pid, k.page);
      if g.None? || (write && !g.value.w) {
        return false;
      }
      if k !in ptes {
        ok := AddPage(k, g.value.w, g.value.x);
        return;
      }
      if write && !ptes[k].w {
        ok := Unshare(k, g.value);
        return;
      }
      return true;
    }

    method Unshare(k: Slot, g: Region) returns (ok: bool)
      requires Sized(Abs()) && k in ptes
      modifies this
      ensures (ok, Abs()) == BreakShare(old(Abs()), k, g)
    {
      var i := ptes[k].frame;
      if !ptes[k].cow || i >= |refs| {
        return false;
      }
      if refs[i] > 1 {
        var r := FrameAlloc();
        if r.None? {
          return false;
        }
        pages := pages[r.value := pages[i]];
        assert Abs() == Take(old(Abs()), r.value, old(pages)[i]);
        FrameFree(i);
        var _ := MapAt(k, RegionPte(g, r.value));
      } else {
        var _ := MapAt(k, RegionPte(g, i));
      }
      return true;
    }

    /** fork_space: every present entry of every page table that is not shared. */
    method ForkSpace(src: Pid, dst: Pid) returns (ok: bool)
      requires Inv(Abs()) && src != dst && src in regions && dst in regions && regions[dst] == regions[src]
      requires forall p: nat :: Slot(dst, p) !in ptes
      modifies this
      ensures (ok, Abs()) == ForkPages(old(Abs()), src, dst, 0)
    {
      hide Inv;
      ghost var s := Abs();
      InvSized(s);
      var i := 0;
      while i < 1024
        invariant i <= 1024 && Inv(Abs()) && Sized(Abs()) && regions == s.regions
        invariant forall p: nat :: p >= 1024 * i ==> Slot(dst, p) !in ptes
        invariant ForkPages(Abs(), src, dst, 1024 * i) == ForkPages(s, src, dst, 0)
      {
        if SharedPde(i) || Table(src, i) !in tables {
          NoTable(Abs(), src, i);
          SkipFork(Abs(), src, dst, 1024 * i, 1024 * (i + 1));
        } else {
          ok := ForkTable(src, dst, i);
          if !ok {
            return;
          }
        }
        i := i + 1;
      }
      return true;
    }

    /** The inner loop of fork_space, over one page table. */
    method ForkTable(src: Pid, dst: Pid, i: nat) returns (ok: bool)
      requires Inv(Abs()) && src != dst && src in regions && dst in regions && regions[dst] == regions[src]
      requires i < 1024 && !SharedPde(i) && forall p: nat :: p >= 1024 * i ==> Slot(dst, p) !in ptes
      modifies this
      ensures Inv(Abs()) && Sized(Abs()) && Sized(old(Abs())) && regions == old(regions)
      ensures !ok ==> (false, Abs()) == ForkPages(old(Abs()), src, dst, 1024 * i)
      ensures ok ==> ForkPages(Abs(), src, dst, 1024 * (i + 1)) == ForkPages(old(Abs()), src, dst, 1024 * i)
      ensures ok ==> forall p: nat :: p >= 1024 * (i + 1) ==> Slot(dst, p) !in ptes
    {
      hide Inv, ForkPage, ForkPages, LowPages, Forking;
      ghost var s := Abs();
      InvSized(s);
      var j := 0;
      while j < 1024
        invariant j <= 1024 && Inv(Abs()) && Sized(Abs()) && regions == s.regions
        invariant forall p: nat :: p >= 1024 * i + j ==> Slot(dst, p) !in ptes
        invariant ForkPages(Abs(), src, dst, 1024 * i + j) == ForkPages(s, src, dst, 1024 * i)
      {
        var v := 1024 * i + j;
        assert v / 1024 == i;
        ForkStep(Abs(), src, dst, v);
        if Slot(src, v) in ptes {
          ForkPageOk(Abs(), src, dst, v);
          ok := ForkAt(src, dst, v);
          if !ok {
            return;
          }
        }
        j := j + 1;
      }
      return true;
    }

    /** One present entry: both sides lose write permission on a private page. */
    method ForkAt(src: Pid, dst: Pid, v: nat) returns (ok: bool)
      requires Sized(Abs()) && src in regions && Slot(src, v) in ptes
      modifies this
      ensures (ok, Abs()) == ForkPage(old(Abs()), src, dst, v)
    {
      var g := LookUp(src, v);
      var e := ptes[Slot(src, v)];
      if g.Some? && !g.value.shared && (e.w || e.cow) {
        e := e.(w := false, cow := true);
        ptes := ptes[Slot(src, v) := e];
      }
      assert Abs() == old(Abs()).(ptes := old(ptes)[Slot(src, v) := e]);
      ok := MapAt(Slot(dst, v), e);
      if ok {
        if e.frame >= |refs| {
          return false;
        }
        refs := refs[e.frame := (refs[e.frame] + 1) % REF_MOD];
      }
    }

    /** free_pgdir and free_regions. */
    method FreeSpace(pid: Pid)
      requires Inv(Abs()) && pid in regions
      modifies this
      ensures Abs() == Exit(old(Abs()), pid)
    {
      hide Inv;
      ghost var s := Abs();
      InvSized(s);
      var i := 0;
      while i < 1024
        invariant i <= 1024 && Inv(Abs()) && Sized(Abs())
        invariant FreeAll(Abs(), pid, 1024 * i) == FreeAll(s, pid, 0)
      {
        if SharedPde(i) || Table(pid, i) !in tables {
          NoTable(Abs(), pid, i);
          SkipFree(Abs(), pid, 1024 * i, 1024 * (i + 1));
        } else {
          FreeTable(pid, i);
        }
        i := i + 1;
      }
      ghost var t := Abs();
      var mine := set x | x in tables && x.pid == pid;
      assert mine == TablesOf(t, pid);
      tables, low, regions := tables - mine, low + |mine| + 1, regions - {pid};
    }

    /** The inner loop of free_pgdir. */
    method FreeTable(pid: Pid, i: nat)
      requires Inv(Abs()) && i < 1024 && !SharedPde(i)
      modifies this
      ensures Inv(Abs()) && Sized(Abs()) && Sized(old(Abs()))
      ensures FreeAll(Abs(), pid, 1024 * (i + 1)) == FreeAll(old(Abs()), pid, 1024 * i)
    {
      hide Inv, FreePage;
      ghost var s := Abs();
      InvSized(s);
      var j := 0;
      while j < 1024
        invariant j <= 1024 && Inv(Abs()) && Sized(Abs())
        invariant FreeAll(Abs(), pid, 1024 * i + j) == FreeAll(s, pid, 1024 * i)
      {
        assert (1024 * i + j) / 1024 == i;
        FreePageOk(Abs(), Slot(pid, 1024 * i + j));
        FreeAt(Slot(pid, 1024 * i + j));
        InvSized(Abs());
        j := j + 1;
      }
    }

    /** The address space of a new process, as do_rfork sets it up. */
    method ForkProcess(src: Pid, dst: Pid, km: bool) returns (ok: bool)
      requires Inv(Abs()) && src in regions && dst !in regions
      modifies this
      ensures (ok, Abs()) == Fork(old(Abs()), src, dst, km)
      ensures Inv(Abs()) && OthersKeep(old(Abs()), Abs(), dst)
      ensures ok ==> forall p: nat :: View(Abs(), Slot(dst, p)) == View(old(Abs()), Slot(src, p))
    {
      hide Inv, View, ForkPages, Exit;
      ghost var s := Abs();
      InvSized(s);
      ForkOk(s, src, dst, km);
      if low == 0 || !km {
        return false;
      }
      low, regions := low - 1, regions[dst := regions[src]];
      OpenOk(s, src, dst, Abs());
      ForkPagesOk(Abs(), src, dst, 0);
      ok := ForkSpace(src, dst);
      if !ok {
        FreeSpace(dst);
      }
    }

    /** unmap_range: the pages, then the region list. */
    method UnmapRange(pid: Pid, lo: nat, hi: nat, km: bool)
      requires Sized(Abs()) && pid in regions && lo <= hi
      modifies this
      ensures Abs() == Unmap(old(Abs()), pid, lo, hi, km)
    {
      FreeUser(pid, lo, hi);
      var rs := CutList(regions[pid], lo, hi, km);
      regions := regions[pid := rs];
    }

    method AddRegion(pid: Pid, g: Region)
      requires pid in regions
      modifies this
      ensures Abs() == old(Abs()).(regions := old(regions)[pid := Insert(old(regions)[pid], g)])
    {
      var rs := InsertList(regions[pid], g);
      regions := regions[pid := rs];
    }

    /** do_mmap at a chosen place. */
    method MapRegion(pid: Pid, g: Region, split: bool, km: bool) returns (ok: bool)
      requires Inv(Abs()) && pid in regions && USER_FIRST <= g.lo < g.hi <= USER_END
      requires !Orphans(Abs(), pid, g.lo, g.hi, split)
      modifies this
      ensures (ok, Abs()) == Mmap(old(Abs()), pid, g, split, km)
      ensures Mapped(old(Abs()), Abs(), pid, g, ok)
    {
      hide Inv, Mapped, Unmap, AllocPages, Insert;
      ghost var s := Abs();
      InvSized(s);
      MmapOk(s, pid, g, split, km);
      UnmapRange(pid, g.lo, g.hi, split);
      assert pid in regions by { UnmapKeepsPid(s, pid, g.lo, g.hi, split); }
      ok := FillRegion(pid, g, split, km);
    }

    /** The part of do_mmap after the place is settled. */
    method FillRegion(pid: Pid, g: Region, split: bool, km: bool) returns (ok: bool)
      requires Sized(Abs()) && pid in regions && g.lo <= g.hi
      modifies this
      ensures (ok, Abs()) == Fill(old(Abs()), pid, g, split, km)
    {
      hide Unmap, AllocPages, Insert;
      if !km {
        return false;
      }
      AddRegion(pid, g);
      if g.shared {
        ok := AllocUser(pid, g.lo, g.hi, g.w, g.x);
        if !ok {
          UnmapRange(pid, g.lo, g.hi, split);
        }
      } else {
        ok := true;
      }
    }

    /** do_mmap with the place left open. */
    method MapAnywhere(pid: Pid, len: nat, brk: nat, w: bool, x: bool, shared: bool, split: bool, km: bool)
    returns (place: Option<nat>)
      requires Inv(Abs()) && pid in regions && 0 < len <= MAX_LEN
      requires !Wraps(regions[pid], len, Floor(brk), MMAP_TOP)
      modifies this
      ensures place.Some? ==> Floor(brk) <= place.value && place.value + len <= MMAP_TOP
                              && Free(old(regions)[pid], place.value, len)
                              && Mapped(old(Abs()), Abs(), pid,
                                        Region(place.value, place.value + len, w, x, shared), true)
      ensures place.None? ==> Inv(Abs()) && SameViews(old(Abs()), Abs())
      ensures km && !shared && place.None? ==>
        forall p: nat :: Floor(brk) <= p && p + len <= MMAP_TOP ==> !Free(old(regions)[pid], p, len)
    {
      hide Inv, Mapped, Fill, Free, Floor, Wraps, Search, Mmap, View;
      ghost var s := Abs();
      InvSized(s);
      place := FindPlace(regions[pid], len, brk);
      if place.Some? {
        var g := Region(place.value, place.value + len, w, x, shared);
        AnywhereOk(s, pid, len, brk, w, x, shared, split, km);
        var ok := FillRegion(pid, g, split, km);
        if !ok {
          FailQuiet(s, Abs(), pid, g);
          place := None;
        }
        if km && !shared {
          FillPrivate(s, pid, g, split);
        }
      }
    }

    /** A user store, with the page fault it may take. */
    method StoreByte(k: Slot, off: nat, b: Byte) returns (ok: bool)
      requires Inv(Abs()) && k.pid in regions && off < PAGE
      modifies this
      ensures (ok, Abs()) == Store(old(Abs()), k, off, b)
      ensures Inv(Abs()) && (ok ==> View(Abs(), k) == View(old(Abs()), k)[off := b])
      ensures forall l: Slot :: l != k && !(SharedPage(old(Abs()), k) && SharedPage(old(Abs()), l)) ==>
        View(Abs(), l) == View(old(Abs()), l)
    {
      hide Inv, View, SharedPage, FaultIn;
      ghost var s := Abs();
      InvSized(s);
      StoreOk(s, k, off, b);
      ok := k in ptes && ptes[k].w && ptes[k].u;
      if !ok {
        ok := Fault(k, true);
      }
      if ok && k in ptes && ptes[k].w && ptes[k].u && ptes[k].frame < |pages| {
        var i := ptes[k].frame;
        pages := pages[i := pages[i][off := b]];
      } else {
        ok := false;
      }
    }
  }

  lemma UnmapKeepsPid(s: State, pid: Pid, lo: nat, hi: nat, km: bool)
    requires Sized(s) && pid in s.regions
    ensures pid in Unmap(s, pid, lo, hi, km).regions
  {
  }

  /** unmap_range's walk along the region list. */
  method CutList(rs: seq<Region>, lo: nat, hi: nat, km: bool) returns (out: seq<Region>)
    ensures out == Cut(rs, lo, hi, km)
  {
    hide Cut;
    out := [];
    var i := 0;
    CutEnds(rs, lo, hi, km);
    while i < |rs|
      invariant i <= |rs| && Cut(rs, lo, hi, km) == out + Cut(rs[i..], lo, hi, km)
    {
      var r := rs[i];
      ghost var was := out;
      if r.hi <= lo || r.lo >= hi {
        out := out + [r];
      } else if r.lo >= lo && r.hi <= hi {
      } else if r.lo < lo && r.hi > hi {
        out := out + [r.(hi := lo)];
        if km {
          out := out + [r.(lo := hi)];
        }
      } else if r.lo < lo {
        out := out + [r.(hi := lo)];
      } else {
        out := out + [r.(lo := hi)];
      }
      assert out == was + CutOne(r, lo, hi, km);
      CutStep(rs, lo, hi, km, i);
      i := i + 1;
    }
  }

  lemma CutEnds(rs: seq<Region>, lo: nat, hi: nat, km: bool)
    ensures rs[0..] == rs && Cut(rs[|rs|..], lo, hi, km) == []
  {
  }

  lemma CutStep(rs: seq<Region>, lo: nat, hi: nat, km: bool, i: nat)
    requires i < |rs|
    ensures Cut(rs[i..], lo, hi, km) == CutOne(rs[i], lo, hi, km) + Cut(rs[i + 1..], lo, hi, km)
  {
    assert rs[i..][1..] == rs[i + 1..];
  }

  /** add_region's walk to the place of the new region. */
  method InsertList(rs: seq<Region>, g: Region) returns (out: seq<Region>)
    ensures out == Insert(rs, g)
  {
    hide Insert;
    var i := 0;
    assert rs[0..] == rs && rs[..0] == [];
    while i < |rs| && rs[i].lo < g.lo
      invariant i <= |rs| && Insert(rs, g) == rs[..i] + Insert(rs[i..], g)
    {
      InsertHere(rs, g, i);
      assert rs[..i + 1] == rs[..i] + [rs[i]];
      i := i + 1;
    }
    InsertHere(rs, g, i);
    return rs[..i] + ([g] + rs[i..]);
  }

  lemma InsertHere(rs: seq<Region>, g: Region, i: nat)
    requires i <= |rs|
    ensures Insert(rs[i..], g) ==
      if i < |rs| && rs[i].lo < g.lo then [rs[i]] + Insert(rs[i + 1..], g) else [g] + rs[i..]
  {
    assert i < |rs| ==> rs[i..][1..] == rs[i + 1..];
  }

  /** Without a page table there is no entry. */
  lemma NoTable(s: State, pid: Pid, i: nat)
    requires Inv(s) && i < 1024 && (SharedPde(i) || Table(pid, i) !in s.tables)
    ensures forall p: nat :: 1024 * i <= p < 1024 * (i + 1) ==> Slot(pid, p) !in s.ptes
  {
    hide Inv;
    forall p: nat | 1024 * i <= p < 1024 * (i + 1) && Slot(pid, p) in s.ptes
      ensures false
    {
      assert p / 1024 == i;
      EntryAt(s, Slot(pid, p));
      NotShared(s, Slot(pid, p));
    }
  }

  lemma {:induction false} SkipFree(s: State, pid: Pid, v: nat, w: nat)
    requires Sized(s) && v <= w <= PAGES
    requires forall p: nat :: v <= p < w ==> Slot(pid, p) !in s.ptes
    ensures FreeAll(s, pid, v) == FreeAll(s, pid, w)
    decreases w - v
  {
    if v >= w {
    } else {
      SkipFree(s, pid, v + 1, w);
    }
  }
}
