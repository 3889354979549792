/** Copy-on-write with shared mappings: over every run the processes read what they would read if fork
    copied each private page at once and gave the child the parent's shared pages themselves. */
module MemoryShared {
  import opened Wrappers
  import opened Words
  import opened UserMemory
  import opened MemoryInvariant
  import opened MemorySteps
  import opened MemoryRegions
  import opened MemoryRuns

  // ---- the simple machine ----

  /** No frames: the bytes of every page of every process, and which pages are one. kin is 0 for a private
      page, and otherwise the number of the shared page it is; next is a number not yet given. */
  datatype Copying = Copying(view: Slot -> seq<Byte>, kin: Slot -> nat, next: nat)

  predicate Kin(a: Copying, k: Slot, l: Slot) {
    l == k || (a.kin(k) != 0 && a.kin(l) == a.kin(k))
  }

  /** A store reaches every page that is the same shared page. */
  function Stored(a: Copying, k: Slot, off: nat, b: Byte): Copying {
    a.(view := (l: Slot) => if Kin(a, k, l) && off < |a.view(l)| then a.view(l)[off := b] else a.view(l))
  }

  function Forked(a: Copying, src: Pid, dst: Pid): Copying {
    a.(view := (l: Slot) => a.view(if l.pid == dst then Slot(src, l.page) else l),
       kin := (l: Slot) => a.kin(if l.pid == dst then Slot(src, l.page) else l))
  }

  predicate Inside(k: Slot, pid: Pid, lo: nat, hi: nat) {
    k.pid == pid && lo <= k.page < hi
  }

  function KinOutside(a: Copying, k: Slot, pid: Pid, lo: nat, hi: nat): nat {
    if Inside(k, pid, lo, hi) then 0 else a.kin(k)
  }

  /** The range reads as zeros and is private. */
  function Cleared(a: Copying, pid: Pid, lo: nat, hi: nat): Copying {
    a.(view := (l: Slot) => if Inside(l, pid, lo, hi) then Zeros() else a.view(l),
       kin := (l: Slot) => KinOutside(a, l, pid, lo, hi))
  }

  /** The range reads as zeros, and each page of it is a new shared page. */
  function Opened(a: Copying, pid: Pid, lo: nat, hi: nat): Copying
    requires lo <= hi
  {
    a.(view := (l: Slot) => if Inside(l, pid, lo, hi) then Zeros() else a.view(l),
       kin := (l: Slot) => if Inside(l, pid, lo, hi) then a.next + (l.page - lo) else a.kin(l),
       next := a.next + (hi - lo))
  }

  ghost function CopyStep(a: Copying, op: Op, ok: bool): Copying {
    match op
    case StoreOp(k, off, b) => if ok then Stored(a, k, off, b) else a
    case ForkOp(src, dst, _) => if ok then Forked(a, src, dst) else a
    case ExitOp(pid) => Cleared(a, pid, 0, PAGES)
    case UnmapOp(pid, lo, hi, _) => Cleared(a, pid, lo, hi)
    case MmapOp(pid, g, _, _) =>
      if ok && g.shared && g.lo <= g.hi then Opened(a, pid, g.lo, g.hi) else Cleared(a, pid, g.lo, g.hi)
    case _ => a
  }

  ghost function CopyRun(a: Copying, ops: seq<Op>, oks: seq<bool>): Copying
    requires |oks| == |ops|
    decreases |ops|
  {
    if ops == [] then a else CopyRun(CopyStep(a, ops[0], oks[0]), ops[1..], oks[1..])
  }

  // ---- what the two machines have in common ----

  predicate OneFrame(s: State, k: Slot, l: Slot) {
    k in s.ptes && l in s.ptes && s.ptes[k].frame == s.ptes[l].frame
  }

  ghost predicate Numbered(a: Copying, s: State, k: Slot) {
    a.kin(k) < a.next && (a.kin(k) != 0 <==> SharedPage(s, k)) && (SharedPage(s, k) ==> k in s.ptes)
  }

  ghost predicate Paired(a: Copying, s: State, k: Slot, l: Slot) {
    SharedPage(s, k) && SharedPage(s, l) ==> (a.kin(k) == a.kin(l) <==> OneFrame(s, k, l))
  }

  /** The same bytes; shared pages are present, and two are one page exactly when they have one frame. */
  ghost predicate Mirrors(a: Copying, s: State) {
    && a.next > 0
    && (forall k: Slot :: View(s, k) == a.view(k))
    && (forall k: Slot :: Numbered(a, s, k))
    && (forall k: Slot, l: Slot :: Paired(a, s, k, l))
  }

  lemma At(a: Copying, s: State, k: Slot)
    requires Mirrors(a, s)
    ensures View(s, k) == a.view(k) && Numbered(a, s, k)
  {
  }

  lemma AtTwo(a: Copying, s: State, k: Slot, l: Slot)
    requires Mirrors(a, s)
    ensures Paired(a, s, k, l)
  {
  }

  /** Outside the range sharing is as before, and so are the frames of shared pages. */
  ghost predicate Kept(s: State, t: State, pid: Pid, lo: nat, hi: nat) {
    forall k: Slot :: !Inside(k, pid, lo, hi) ==> Still(s, t, k)
  }

  predicate Still(s: State, t: State, k: Slot) {
    && SharedPage(t, k) == SharedPage(s, k)
    && (k in s.ptes && SharedPage(s, k) ==> k in t.ptes && t.ptes[k].frame == s.ptes[k].frame)
  }

  // ---- steps that move nothing ----

  lemma Unmoved(a: Copying, s: State, t: State)
    requires Mirrors(a, s) && SameViews(s, t) && forall k: Slot :: Still(s, t, k)
    ensures Mirrors(a, t)
  {
    hide View, SharedPage;
    forall k: Slot
      ensures View(t, k) == a.view(k) && Numbered(a, t, k)
    {
      At(a, s, k);
      assert Still(s, t, k);
    }
    forall k: Slot, l: Slot
      ensures Paired(a, t, k, l)
    {
      At(a, s, k);
      At(a, s, l);
      AtTwo(a, s, k, l);
      assert Still(s, t, k) && Still(s, t, l);
    }
  }

  lemma FaultStill(a: Copying, s: State, k: Slot, write: bool)
    requires Inv(s) && k.pid in s.regions && Mirrors(a, s)
    ensures var t := FaultIn(s, k, write).1; forall l: Slot :: Still(s, t, l)
  {
    hide Inv, FindRegion, View, NewPage, BreakShare;
    InvSized(s);
    FaultOk(s, k, write);
    At(a, s, k);
    if SharedPage(s, k) {
      SharedRights(s, k);
    }
  }

  /** A shared page's entry is writable when its region is. */
  lemma SharedRights(s: State, k: Slot)
    requires Inv(s) && SharedPage(s, k) && k in s.ptes
    ensures s.ptes[k].w == FindRegion(s.regions[k.pid], k.page).value.w && s.ptes[k].u
    ensures s.ptes[k].frame < |s.refs| == |s.pages|
  {
    hide Counted, FindRegion, RegionsOk, Covered;
    assert EntryOk(s, k);
  }

  lemma ViewSize(s: State, k: Slot)
    ensures |View(s, k)| == PAGE
  {
  }

  // ---- stores ----

  lemma StoreMirrors(a: Copying, s: State, k: Slot, off: nat, b: Byte)
    requires Inv(s) && k.pid in s.regions && off < PAGE && Mirrors(a, s)
    ensures var (ok, t) := Store(s, k, off, b); Mirrors(if ok then Stored(a, k, off, b) else a, t)
  {
    hide Inv, FindRegion, View, FaultIn, Mirrors, Still, Stored;
    InvSized(s);
    StoreOk(s, k, off, b);
    FaultStill(a, s, k, true);
    At(a, s, k);
    var (ok, t) := Store(s, k, off, b);
    if !ok {
      StoreFailed(s, k, off, b);
      Unmoved(a, s, t);
    } else if SharedPage(s, k) {
      SharedStore(a, s, k, off, b);
    } else {
      PrivateStill(a, s, k, off, b);
      PrivateStore(a, s, t, k, off, b);
    }
  }

  lemma StoreFailed(s: State, k: Slot, off: nat, b: Byte)
    requires Inv(s) && k.pid in s.regions && off < PAGE && !Store(s, k, off, b).0
    ensures forall l: Slot :: Still(s, Store(s, k, off, b).1, l)
  {
    hide Inv, FindRegion, FaultIn;
    InvSized(s);
    FaultOk(s, k, true);
    var (ok, t) := FaultIn(s, k, true);
    if Writable(s, k) {
      EntryAt(s, k);
    } else if ok {
      EntryAt(t, k);
    }
  }

  lemma PrivateStill(a: Copying, s: State, k: Slot, off: nat, b: Byte)
    requires Inv(s) && k.pid in s.regions && off < PAGE && Mirrors(a, s)
    ensures forall l: Slot :: Still(s, Store(s, k, off, b).1, l)
  {
    hide Inv, FindRegion, FaultIn, Mirrors;
    InvSized(s);
    FaultStill(a, s, k, true);
    forall l: Slot
      ensures Still(s, Store(s, k, off, b).1, l)
    {
      assert Still(s, FaultIn(s, k, true).1, l);
    }
  }

  lemma PrivateStore(a: Copying, s: State, t: State, k: Slot, off: nat, b: Byte)
    requires Inv(s) && Mirrors(a, s) && !SharedPage(s, k) && off < PAGE && View(t, k) == View(s, k)[off := b]
    requires forall l: Slot :: l != k ==> View(t, l) == View(s, l)
    requires forall l: Slot :: Still(s, t, l)
    ensures Mirrors(Stored(a, k, off, b), t)
  {
    hide Inv, View, SharedPage;
    var c := Stored(a, k, off, b);
    At(a, s, k);
    ViewSize(s, k);
    forall l: Slot
      ensures View(t, l) == c.view(l) && Numbered(c, t, l)
    {
      At(a, s, l);
      assert Still(s, t, l);
    }
    forall l: Slot, m: Slot
      ensures Paired(c, t, l, m)
    {
      At(a, s, l);
      At(a, s, m);
      AtTwo(a, s, l, m);
      assert Still(s, t, l) && Still(s, t, m);
    }
  }

  lemma SharedStore(a: Copying, s: State, k: Slot, off: nat, b: Byte)
    requires Inv(s) && k.pid in s.regions && off < PAGE && Mirrors(a, s) && SharedPage(s, k) && Store(s, k, off, b).0
    ensures Mirrors(Stored(a, k, off, b), Store(s, k, off, b).1)
  {
    hide Inv, FindRegion, FaultIn, SharedPage, View;
    InvSized(s);
    var t, c := Store(s, k, off, b).1, Stored(a, k, off, b);
    At(a, s, k);
    SharedWrite(s, k, off, b);
    forall l: Slot
      ensures View(t, l) == c.view(l) && Numbered(c, t, l)
    {
      At(a, s, l);
      AtTwo(a, s, k, l);
      OtherFrames(s, k, l);
      ViewSize(s, l);
    }
    forall l: Slot, m: Slot
      ensures Paired(c, t, l, m)
    {
      AtTwo(a, s, l, m);
    }
  }

  /** Only shared pages have a shared page's frame. */
  lemma OtherFrames(s: State, k: Slot, l: Slot)
    requires Inv(s) && SharedPage(s, k)
    ensures OneFrame(s, k, l) ==> SharedPage(s, l)
  {
    hide Counted, FindRegion, RegionsOk, Covered;
    if OneFrame(s, k, l) {
      assert Alike(s, k, l);
    }
  }

  /** A store to a shared page never faults: it writes the one frame. */
  lemma SharedWrite(s: State, k: Slot, off: nat, b: Byte)
    requires Inv(s) && k.pid in s.regions && off < PAGE && SharedPage(s, k) && k in s.ptes
    requires Store(s, k, off, b).0
    ensures var t := Store(s, k, off, b).1;
      && t.ptes == s.ptes && t.regions == s.regions
      && (forall l: Slot :: SharedPage(t, l) == SharedPage(s, l))
      && (forall l: Slot :: View(t, l) == if OneFrame(s, k, l) then View(s, l)[off := b] else View(s, l))
  {
    hide Inv, FindRegion, NewPage, BreakShare;
    InvSized(s);
    SharedRights(s, k);
    FaultOk(s, k, true);
    forall l: Slot
      ensures l in s.ptes ==> s.ptes[l].frame < |s.pages|
    {
      if l in s.ptes {
        EntryAt(s, l);
      }
    }
  }

  // ---- giving pages back ----

  lemma ClearedMirrors(a: Copying, s: State, t: State, pid: Pid, lo: nat, hi: nat)
    requires Mirrors(a, s) && Kept(s, t, pid, lo, hi)
    requires forall k: Slot :: View(t, k) == if Inside(k, pid, lo, hi) then Zeros() else View(s, k)
    requires forall k: Slot :: Inside(k, pid, lo, hi) ==> !SharedPage(t, k)
    ensures Mirrors(Cleared(a, pid, lo, hi), t)
  {
    hide View, SharedPage, Zeros;
    var c := Cleared(a, pid, lo, hi);
    forall k: Slot
      ensures View(t, k) == c.view(k) && Numbered(c, t, k)
    {
      At(a, s, k);
      assert Inside(k, pid, lo, hi) || Still(s, t, k);
    }
    forall k: Slot, l: Slot
      ensures Paired(c, t, k, l)
    {
      At(a, s, k);
      At(a, s, l);
      AtTwo(a, s, k, l);
      assert Inside(k, pid, lo, hi) || Still(s, t, k);
      assert Inside(l, pid, lo, hi) || Still(s, t, l);
    }
  }

  lemma ExitMirrors(a: Copying, s: State, pid: Pid)
    requires Inv(s) && pid in s.regions && Mirrors(a, s)
    ensures Sized(s) && Mirrors(Cleared(a, pid, 0, PAGES), Exit(s, pid))
  {
    hide Inv, FindRegion, Exit, Mirrors;
    InvSized(s);
    ExitOk(s, pid);
    var t := Exit(s, pid);
    forall k: Slot
      ensures View(t, k) == if Inside(k, pid, 0, PAGES) then Zeros() else View(s, k)
      ensures !Inside(k, pid, 0, PAGES) ==> Still(s, t, k)
    {
      NotShared(s, k);
      NoHighRegion(s, k);
    }
    ClearedMirrors(a, s, t, pid, 0, PAGES);
  }

  /** No region reaches past the address space. */
  lemma NoHighRegion(s: State, k: Slot)
    requires Inv(s)
    ensures SharedPage(s, k) ==> k.page < PAGES
  {
    hide Counted, Entries, Covered;
    if SharedPage(s, k) {
      GoodRegions(s, k.pid);
    }
  }

  /** Every shared page of pid outside the range is present. */
  ghost predicate SharedThere(s: State, pid: Pid, lo: nat, hi: nat) {
    forall k: Slot :: k.pid == pid && !(lo <= k.page < hi) && SharedPage(s, k) ==> k in s.ptes
  }

  lemma UnmapKept(s: State, pid: Pid, lo: nat, hi: nat, km: bool)
    requires Inv(s) && pid in s.regions && USER_FIRST <= lo <= hi <= USER_END && !Orphans(s, pid, lo, hi, km)
    requires SharedThere(s, pid, lo, hi)
    ensures var t := Unmap(s, pid, lo, hi, km);
      && Inv(t) && Kept(s, t, pid, lo, hi)
      && (forall k: Slot :: View(t, k) == if Inside(k, pid, lo, hi) then Zeros() else View(s, k))
      && (forall k: Slot :: Inside(k, pid, lo, hi) ==> !SharedPage(t, k) && k !in t.ptes)
      && (forall k: Slot :: !Inside(k, pid, lo, hi) && k in s.ptes ==>
            k in t.ptes && t.ptes[k].frame == s.ptes[k].frame)
  {
    hide Inv, FindRegion, FreePages, Cut, View;
    InvSized(s);
    UnmapOk(s, pid, lo, hi, km);
    FreePagesOk(s, pid, lo, hi);
    var t := Unmap(s, pid, lo, hi, km);
    forall k: Slot
      ensures Inside(k, pid, lo, hi) ==> !SharedPage(t, k) && k !in t.ptes && View(t, k) == Zeros()
    {
      if Inside(k, pid, lo, hi) {
        assert k == Slot(pid, k.page);
        Absent(t, k);
      }
    }
    forall k: Slot | !Inside(k, pid, lo, hi)
      ensures Still(s, t, k)
    {
      if k.pid == pid {
        CutShare(s, t, k, lo, hi, km);
      }
    }
  }

  lemma Absent(s: State, k: Slot)
    requires k !in s.ptes
    ensures View(s, k) == Zeros()
  {
  }

  lemma CutShare(s: State, t: State, k: Slot, lo: nat, hi: nat, km: bool)
    requires k.pid in s.regions && k.pid in t.regions && !(lo <= k.page < hi) && !Orphans(s, k.pid, lo, hi, km)
    requires CutAway(s.regions[k.pid], t.regions[k.pid], lo, hi, km) && (SharedPage(s, k) ==> k in s.ptes)
    ensures SharedPage(t, k) == SharedPage(s, k)
  {
    hide FindRegion;
    assert k == Slot(k.pid, k.page);
  }

  lemma UnmapMirrors(a: Copying, s: State, pid: Pid, lo: nat, hi: nat, km: bool)
    requires Inv(s) && pid in s.regions && USER_FIRST <= lo <= hi <= USER_END && !Orphans(s, pid, lo, hi, km)
    requires Mirrors(a, s)
    ensures Sized(s) && Mirrors(Cleared(a, pid, lo, hi), Unmap(s, pid, lo, hi, km))
  {
    hide Inv, Unmap, View, SharedPage, Kept;
    InvSized(s);
    Present(a, s, pid, lo, hi);
    UnmapKept(s, pid, lo, hi, km);
    ClearedMirrors(a, s, Unmap(s, pid, lo, hi, km), pid, lo, hi);
  }

  lemma Present(a: Copying, s: State, pid: Pid, lo: nat, hi: nat)
    requires Mirrors(a, s)
    ensures SharedThere(s, pid, lo, hi)
  {
    hide View, SharedPage;
    forall k: Slot | k.pid == pid && SharedPage(s, k)
      ensures k in s.ptes
    {
      At(a, s, k);
    }
  }

  // ---- fork ----

  lemma ForkMirrors(a: Copying, s: State, src: Pid, dst: Pid, km: bool)
    requires Inv(s) && src in s.regions && dst !in s.regions && Mirrors(a, s)
    ensures Sized(s)
    ensures var (ok, t) := Fork(s, src, dst, km); Mirrors(if ok then Forked(a, src, dst) else a, t)
  {
    hide Inv, Fork, View, FindRegion, Mirrors;
    InvSized(s);
    ForkOk(s, src, dst, km);
    ForkFrames(s, src, dst, km);
    var (ok, t) := Fork(s, src, dst, km);
    ForkPlain(s, src, dst, km);
    if ok {
      ForkedMirrors(a, s, t, src, dst);
    } else {
      forall k: Slot
        ensures Still(s, t, k)
      {
        assert SameFrame(s, k, t, k);
      }
      Unmoved(a, s, t);
    }
  }

  lemma ForkedMirrors(a: Copying, s: State, t: State, src: Pid, dst: Pid)
    requires Mirrors(a, s) && src in s.regions && t.regions == s.regions[dst := s.regions[src]]
    requires forall k: Slot :: View(t, k) == View(s, Origin(k, src, dst))
    requires forall k: Slot :: SameFrame(s, Origin(k, src, dst), t, k)
    ensures Mirrors(Forked(a, src, dst), t)
  {
    hide View, FindRegion;
    var c := Forked(a, src, dst);
    forall k: Slot
      ensures View(t, k) == c.view(k) && Numbered(c, t, k)
    {
      At(a, s, Origin(k, src, dst));
      assert SameFrame(s, Origin(k, src, dst), t, k);
    }
    forall k: Slot, l: Slot
      ensures Paired(c, t, k, l)
    {
      At(a, s, Origin(k, src, dst));
      At(a, s, Origin(l, src, dst));
      AtTwo(a, s, Origin(k, src, dst), Origin(l, src, dst));
      assert SameFrame(s, Origin(k, src, dst), t, k) && SameFrame(s, Origin(l, src, dst), t, l);
    }
  }

  /** Where page k comes from. */
  function Origin(k: Slot, src: Pid, dst: Pid): Slot {
    if k.pid == dst then Slot(src, k.page) else k
  }

  predicate SameFrame(s: State, k: Slot, t: State, l: Slot) {
    k in s.ptes ==> l in t.ptes && t.ptes[l].frame == s.ptes[k].frame
  }

  lemma ForkFrames(s: State, src: Pid, dst: Pid, km: bool)
    requires Inv(s) && src in s.regions && dst !in s.regions
    ensures Sized(s)
    ensures var (ok, t) := Fork(s, src, dst, km);
      && (ok ==> forall k: Slot :: SameFrame(s, Origin(k, src, dst), t, k))
      && (!ok ==> forall k: Slot :: SameFrame(s, k, t, k))
  {
    hide Inv, FindRegion, Exit, ForkPages, LowPages;
    InvSized(s);
    if s.low > 0 && km {
      var t := s.(low := s.low - 1, regions := s.regions[dst := s.regions[src]]);
      OpenOk(s, src, dst, t);
      ForkPagesOk(t, src, dst, 0);
      var (ok, u) := ForkPages(t, src, dst, 0);
      if ok {
        forall k: Slot
          ensures SameFrame(s, Origin(k, src, dst), u, k)
        {
          assert k.pid == dst ==> k == Slot(dst, k.page);
        }
      } else {
        ExitOk(u, dst);
      }
    }
  }

  // ---- new shared mappings ----

  /** Pages of s keep their entries, and a page t has beyond s's has a frame none of s's has. */
  ghost predicate Grown(s: State, t: State) {
    && (forall k :: k in s.ptes ==> k in t.ptes && t.ptes[k] == s.ptes[k])
    && (forall k, l :: k in t.ptes && k !in s.ptes && l in s.ptes ==> t.ptes[k].frame != s.ptes[l].frame)
  }

  lemma NewPageGrown(s: State, k: Slot, w: bool, x: bool)
    requires Inv(s) && k !in s.ptes
    ensures Sized(s) && Grown(s, NewPage(s, k, w, x).1)
  {
    hide Inv, Drop;
    InvSized(s);
    var p := Pick(s.bits, s.hint, 0);
    if p.Some? {
      FreeFrame(s, p.value);
      TakeDrop(s, p.value, Zeros());
    }
  }

  lemma {:induction false} AllocGrown(s: State, pid: Pid, lo: nat, hi: nat, w: bool, x: bool)
    requires Inv(s) && pid in s.regions
    requires forall v: nat :: lo <= v < hi ==> var g := FindRegion(s.regions[pid], v); g.Some? && g.value.w == w
    ensures Sized(s) && Grown(s, AllocPages(s, pid, lo, hi, w, x).1)
    decreases hi - lo
  {
    hide Inv, FindRegion, NewPage;
    InvSized(s);
    if lo >= hi {
    } else if Slot(pid, lo) in s.ptes {
      AllocGrown(s, pid, lo + 1, hi, w, x);
    } else {
      NewPageOk(s, Slot(pid, lo), w, x);
      NewPageGrown(s, Slot(pid, lo), w, x);
      var (ok, t) := NewPage(s, Slot(pid, lo), w, x);
      if ok {
        AllocGrown(t, pid, lo + 1, hi, w, x);
      }
    }
  }

  lemma MmapMirrors(a: Copying, s: State, pid: Pid, g: Region, split: bool, km: bool)
    requires Inv(s) && pid in s.regions && USER_FIRST <= g.lo < g.hi <= USER_END && !Orphans(s, pid, g.lo, g.hi, split)
    requires Mirrors(a, s)
    ensures Sized(s)
    ensures var (ok, t) := Mmap(s, pid, g, split, km);
      Mirrors(if ok && g.shared then Opened(a, pid, g.lo, g.hi) else Cleared(a, pid, g.lo, g.hi), t)
  {
    hide Inv, FindRegion, Unmap, Insert, AllocPages, View, Mirrors, SharedPage, Orphans, Opened, Cleared;
    InvSized(s);
    Present(a, s, pid, g.lo, g.hi);
    UnmapKept(s, pid, g.lo, g.hi, split);
    UnmapMirrors(a, s, pid, g.lo, g.hi, split);
    UnmapRange(s, pid, g.lo, g.hi, split);
    var t, c := Unmap(s, pid, g.lo, g.hi, split), Cleared(a, pid, g.lo, g.hi);
    var u := t.(regions := t.regions[pid := Insert(t.regions[pid], g)]);
    if km {
      AddRegionOk(t, pid, g, u);
      InvSized(u);
      if !g.shared {
        AddPrivate(t, u, pid, g);
        Unmoved(c, t, u);
      } else {
        var (ok, x) := AllocPages(u, pid, g.lo, g.hi, g.w, g.x);
        AllocPagesOk(u, pid, g.lo, g.hi, g.w, g.x);
        AllocGrown(u, pid, g.lo, g.hi, g.w, g.x);
        InvSized(x);
        if ok {
          OpenedMirrors(a, t, u, x, pid, g);
        } else {
          UndoneMirrors(c, t, u, x, pid, g, split);
        }
      }
    }
  }

  /** The range has neither region nor page after unmap_range. */
  lemma UnmapRange(s: State, pid: Pid, lo: nat, hi: nat, km: bool)
    requires Inv(s) && pid in s.regions && USER_FIRST <= lo <= hi <= USER_END && !Orphans(s, pid, lo, hi, km)
    ensures Sized(s)
    ensures var t := Unmap(s, pid, lo, hi, km);
      pid in t.regions
      && forall v: nat :: lo <= v < hi ==> Slot(pid, v) !in t.ptes && FindRegion(t.regions[pid], v).None?
  {
    hide Inv, FindRegion, Unmap, View, Orphans;
    InvSized(s);
    UnmapOk(s, pid, lo, hi, km);
  }

  /** u is t with region g added to pid's list. */
  ghost predicate WithRegion(t: State, u: State, pid: Pid, g: Region) {
    && pid in t.regions && u == t.(regions := t.regions[pid := Insert(t.regions[pid], g)])
    && (forall v: nat :: FindRegion(u.regions[pid], v) == if In(g, v) then Some(g) else FindRegion(t.regions[pid], v))
    && (forall v: nat :: In(g, v) ==> Slot(pid, v) !in t.ptes && FindRegion(t.regions[pid], v).None?)
  }

  lemma AddShare(t: State, u: State, pid: Pid, g: Region, k: Slot)
    requires WithRegion(t, u, pid, g)
    ensures SharedPage(u, k) == if Inside(k, pid, g.lo, g.hi) then g.shared else SharedPage(t, k)
    ensures Inside(k, pid, g.lo, g.hi) ==> !SharedPage(t, k) && k !in t.ptes
  {
    hide FindRegion, Insert;
    assert k == Slot(k.pid, k.page);
  }

  lemma AddPrivate(t: State, u: State, pid: Pid, g: Region)
    requires WithRegion(t, u, pid, g) && !g.shared
    ensures forall k: Slot :: Still(t, u, k)
  {
    hide FindRegion, Insert, WithRegion, SharedPage;
    SamePtes(t, u, pid, g);
    forall k: Slot
      ensures Still(t, u, k)
    {
      AddShare(t, u, pid, g, k);
    }
  }

  /** x is u with all, or some, pages of g filled. */
  ghost predicate Filled(u: State, x: State, pid: Pid, g: Region) {
    && x.regions == u.regions && SameViews(u, x) && Grown(u, x)
    && (forall k: Slot :: !(k.pid == pid && g.lo <= k.page < g.hi) ==> (k in x.ptes <==> k in u.ptes))
  }

  lemma FilledStill(t: State, u: State, x: State, pid: Pid, g: Region, k: Slot)
    requires WithRegion(t, u, pid, g) && Filled(u, x, pid, g) && SameViews(t, u)
    ensures View(x, k) == View(t, k) && (!Inside(k, pid, g.lo, g.hi) ==> Still(t, x, k))
    ensures SharedPage(x, k) == if Inside(k, pid, g.lo, g.hi) then g.shared else SharedPage(t, k)
    ensures Inside(k, pid, g.lo, g.hi) ==> k !in t.ptes && !SharedPage(t, k)
    ensures k in t.ptes ==> k in x.ptes && x.ptes[k] == t.ptes[k]
  {
    hide FindRegion, Insert, View, WithRegion;
    AddShare(t, u, pid, g, k);
    assert u.ptes == t.ptes by {
      SamePtes(t, u, pid, g);
    }
    assert SharedPage(x, k) == SharedPage(u, k);
  }

  lemma SamePtes(t: State, u: State, pid: Pid, g: Region)
    requires WithRegion(t, u, pid, g)
    ensures u.ptes == t.ptes
  {
    hide FindRegion, Insert;
  }

  lemma OpenedMirrors(a: Copying, t: State, u: State, x: State, pid: Pid, g: Region)
    requires Mirrors(Cleared(a, pid, g.lo, g.hi), t) && WithRegion(t, u, pid, g) && SameViews(t, u)
    requires Filled(u, x, pid, g) && Inv(x) && g.shared && g.lo <= g.hi
    requires forall v: nat :: g.lo <= v < g.hi ==> Slot(pid, v) in x.ptes
    ensures Mirrors(Opened(a, pid, g.lo, g.hi), x)
  {
    hide Inv, FindRegion, View, WithRegion, SharedPage, SameViews, Zeros, Insert;
    var c, d := Cleared(a, pid, g.lo, g.hi), Opened(a, pid, g.lo, g.hi);
    SamePtes(t, u, pid, g);
    forall k: Slot
      ensures View(x, k) == d.view(k) && Numbered(d, x, k)
    {
      At(c, t, k);
      FilledStill(t, u, x, pid, g, k);
      assert k == Slot(k.pid, k.page);
    }
    forall k: Slot, l: Slot
      ensures Paired(d, x, k, l)
    {
      At(c, t, k);
      At(c, t, l);
      AtTwo(c, t, k, l);
      FilledStill(t, u, x, pid, g, k);
      FilledStill(t, u, x, pid, g, l);
      if Inside(k, pid, g.lo, g.hi) && Inside(l, pid, g.lo, g.hi) {
        assert k == Slot(pid, k.page) && l == Slot(pid, l.page);
        AlikeAt(x, k, l);
      }
    }
  }

  lemma UndoneMirrors(c: Copying, t: State, u: State, x: State, pid: Pid, g: Region, split: bool)
    requires Mirrors(c, t) && WithRegion(t, u, pid, g) && SameViews(t, u) && Filled(u, x, pid, g) && Inv(x)
    requires pid in x.regions && USER_FIRST <= g.lo < g.hi <= USER_END
    ensures Sized(x) && Mirrors(c, Unmap(x, pid, g.lo, g.hi, split))
  {
    hide Inv, FindRegion, View, SharedPage, SameViews, Zeros, Insert, Unmap, Orphans, Mirrors, Filled;
    InvSized(x);
    assert x.regions == u.regions by {
      FilledRegions(u, x, pid, g);
    }
    ExactRegion(x, pid, g, split);
    forall k: Slot | k.pid == pid && !(g.lo <= k.page < g.hi) && SharedPage(x, k)
      ensures k in x.ptes
    {
      At(c, t, k);
      FilledStill(t, u, x, pid, g, k);
    }
    UnmapKept(x, pid, g.lo, g.hi, split);
    var y := Unmap(x, pid, g.lo, g.hi, split);
    forall k: Slot
      ensures View(y, k) == View(t, k) && Still(t, y, k)
    {
      FilledStill(t, u, x, pid, g, k);
      if Inside(k, pid, g.lo, g.hi) {
        Absent(t, k);
      } else {
        assert Still(x, y, k);
      }
    }
    SeenSame(t, y);
    Unmoved(c, t, y);
  }

  lemma FilledRegions(u: State, x: State, pid: Pid, g: Region)
    requires Filled(u, x, pid, g)
    ensures x.regions == u.regions
  {
  }

  lemma SeenSame(s: State, t: State)
    requires forall k: Slot :: View(t, k) == View(s, k)
    ensures SameViews(s, t)
  {
  }

  // ---- whole runs ----

  lemma StepMirrors(a: Copying, s: State, op: Op)
    requires Inv(s) && Legal(s, op) && Mirrors(a, s)
    ensures Mirrors(CopyStep(a, op, Step(s, op).0), Step(s, op).1)
  {
    hide Inv, FaultIn, Store, Fork, Exit, Unmap, Mmap, Hold, Release, Orphans, Mirrors, Stored, Forked, Cleared,
      Opened;
    InvSized(s);
    match op
    case FaultOp(k, write) =>
      FaultOk(s, k, write);
      FaultStill(a, s, k, write);
      Unmoved(a, s, FaultIn(s, k, write).1);
    case StoreOp(k, off, b) => StoreMirrors(a, s, k, off, b);
    case ForkOp(src, dst, km) => ForkMirrors(a, s, src, dst, km);
    case ExitOp(pid) => ExitMirrors(a, s, pid);
    case UnmapOp(pid, lo, hi, km) => UnmapMirrors(a, s, pid, lo, hi, km);
    case MmapOp(pid, g, split, km) => MmapMirrors(a, s, pid, g, split, km);
    case HoldOp =>
      HoldOk(s);
      BooksStill(s, 0, s.low);
      Unmoved(a, s, Hold(s));
    case ReleaseOp(i) =>
      ReleaseOk(s, i);
      BooksStill(s, i, s.low);
      Unmoved(a, s, Release(s, i));
    case LowOp(n) =>
      LowOk(s, n);
      BooksStill(s, 0, n);
      Unmoved(a, s, s.(low := n));
  }

  lemma BooksStill(s: State, i: nat, n: nat)
    requires Sized(s)
    ensures forall k: Slot :: Still(s, Hold(s), k) && Still(s, Release(s, i), k) && Still(s, s.(low := n), k)
  {
    hide FindRegion;
  }

  /** Every run, shared mappings included: what the processes read is what they would read on the simple machine. */
  lemma {:induction false} RunRefinesCopying(s: State, ops: seq<Op>, a: Copying)
    requires Inv(s) && LegalRun(s, ops) && Mirrors(a, s)
    ensures Mirrors(CopyRun(a, ops, Outcomes(s, ops)), Run(s, ops))
    decreases |ops|
  {
    hide Inv, Step, Mirrors, CopyStep;
    InvSized(s);
    if ops == [] {
    } else {
      var (ok, t) := Step(s, ops[0]);
      StepInv(s, ops[0]);
      StepMirrors(a, s, ops[0]);
      RunRefinesCopying(t, ops[1..], CopyStep(a, ops[0], ok));
      assert Outcomes(s, ops)[1..] == Outcomes(t, ops[1..]);
    }
  }

  /** A state without shared mappings has its simple machine. */
  lemma PrivateMirrors(s: State)
    requires NoShared(s)
    ensures Mirrors(Copying((k: Slot) => View(s, k), (k: Slot) => 0, 1), s)
  {
    hide View, SharedPage;
  }
}
