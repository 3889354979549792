/** The kernel's user memory: reference-counted frames, page tables, regions, demand paging,
    copy-on-write fork. Page tables are one map from (process slot, page number) to entries. */
module UserMemory {
  import opened Wrappers
  import opened Words

  const PAGE: nat := 4096
  const NPROC: nat := 64
  /** A 32-bit address space has this many pages. */
  const PAGES: nat := 0x10_0000
  const USER_FIRST: nat := 0x400
  const USER_END: nat := 0xE_0000
  const REF_MOD: nat := 0x1_0000

  /** A slot of the process table. */
  type Pid = p: nat | p < NPROC

  datatype Pte = Pte(frame: nat, w: bool, u: bool, x: bool, cow: bool)

  /** A page of one address space. */
  datatype Slot = Slot(pid: Pid, page: nat)

  /** A page table, covering 1024 pages of one address space. */
  datatype Table = Table(pid: Pid, index: nat)

  /** Pages lo up to but not including hi. */
  datatype Region = Region(lo: nat, hi: nat, w: bool, x: bool, shared: bool)

  type Page = c: seq<Byte> | |c| == PAGE witness Zeros()

  function Zeros(): (c: seq<Byte>)
    ensures |c| == PAGE
  {
    seq(PAGE, i => 0)
  }

  /** bits, refs, nfree and hint are the frame allocator; low counts the free pages of low memory;
      held are the frames the kernel itself keeps. */
  datatype State = State(
    bits: seq<bool>, refs: seq<nat>, nfree: int, hint: nat, pages: seq<Page>,
    ptes: map<Slot, Pte>, tables: set<Table>, regions: map<Pid, seq<Region>>, low: nat, held: set<nat>)

  // ---- frames ----

  /** The first clear bit at or after hint + n, going round once. */
  function Pick(bits: seq<bool>, hint: nat, n: nat): (r: Option<nat>)
    ensures r.Some? ==> r.value < |bits| && !bits[r.value]
    decreases |bits| - n
  {
    if n >= |bits| then None
    else
      var i := (hint + n) % |bits|;
      if !bits[i] then Some(i) else Pick(bits, hint, n + 1)
  }

  /** frame_alloc's update once frame i was found clear. */
  function Take(s: State, i: nat, c: Page): State
    requires i < |s.bits| == |s.refs| == |s.pages|
  {
    s.(bits := s.bits[i := true], refs := s.refs[i := 1], nfree := s.nfree - 1, hint := i + 1, pages := s.pages[i := c])
  }

  /** frame_free: the count is an unsigned 16-bit field. */
  function Drop(s: State, i: nat): State
    requires i < |s.bits| == |s.refs| == |s.pages|
  {
    var n := (s.refs[i] + REF_MOD - 1) % REF_MOD;
    if n == 0 then s.(refs := s.refs[i := n], bits := s.bits[i := false], nfree := s.nfree + 1)
    else s.(refs := s.refs[i := n])
  }

  /** frame_ref. */
  function Ref(s: State, i: nat): State
    requires i < |s.refs|
  {
    s.(refs := s.refs[i := (s.refs[i] + 1) % REF_MOD])
  }

  // ---- page tables ----

  function TableOf(k: Slot): Table {
    Table(k.pid, k.page / 1024)
  }

  /** map_page: a missing page table costs a page of low memory. */
  function MapPage(s: State, k: Slot, e: Pte): (bool, State) {
    if TableOf(k) in s.tables then (true, s.(ptes := s.ptes[k := e]))
    else if s.low == 0 then (false, s)
    else (true, s.(tables := s.tables + {TableOf(k)}, low := s.low - 1, ptes := s.ptes[k := e]))
  }

  function DelPte(s: State, k: Slot): State {
    s.(ptes := s.ptes - {k})
  }

  /** The page-directory entries every address space shares: kernel, kernel window, devices. */
  predicate SharedPde(i: nat) {
    i == 0 || i == 0xE000_0000 / 0x40_0000 || i == 0xF000_0000 / 0x40_0000
  }

  // ---- regions ----

  predicate In(r: Region, v: nat) {
    r.lo <= v < r.hi
  }

  function FindRegion(rs: seq<Region>, v: nat): (r: Option<Region>)
    ensures r.Some? ==> In(r.value, v) && r.value in rs
  {
    if rs == [] then None else if In(rs[0], v) then Some(rs[0]) else FindRegion(rs[1..], v)
  }

  function RegionPte(r: Region, frame: nat): Pte {
    Pte(frame, r.w, true, r.x, false)
  }

  /** add_region: before the first region that does not start lower. */
  function Insert(rs: seq<Region>, r: Region): seq<Region> {
    if rs == [] || rs[0].lo >= r.lo then [r] + rs else [rs[0]] + Insert(rs[1..], r)
  }

  /** The region list after unmap_range; km says whether a region split gets its memory. */
  function Cut(rs: seq<Region>, lo: nat, hi: nat, km: bool): seq<Region> {
    if rs == [] then [] else CutOne(rs[0], lo, hi, km) + Cut(rs[1..], lo, hi, km)
  }

  function CutOne(r: Region, lo: nat, hi: nat, km: bool): seq<Region> {
    if r.hi <= lo || r.lo >= hi then [r]
    else if r.lo >= lo && r.hi <= hi then []
    else if Spans(r, lo, hi) then [r.(hi := lo)] + (if km then [r.(lo := hi)] else [])
    else if r.lo < lo then [r.(hi := lo)]
    else [r.(lo := hi)]
  }

  /** The region sticks out on both sides, so unmapping splits it. */
  predicate Spans(r: Region, lo: nat, hi: nat) {
    r.lo < lo && r.hi > hi
  }

  // ---- operations on one address space ----

  function FreePage(s: State, k: Slot): State
    requires Sized(s)
  {
    if k in s.ptes && s.ptes[k].frame < |s.bits| then DelPte(Drop(s, s.ptes[k].frame), k) else s
  }

  predicate Sized(s: State) {
    |s.bits| == |s.refs| == |s.pages| && s.hint <= |s.bits|
  }

  /** free_user over pages lo up to hi. */
  function FreePages(s: State, pid: Pid, lo: nat, hi: nat): (t: State)
    requires Sized(s)
    ensures Sized(t) && t.regions == s.regions
    decreases hi - lo
  {
    if lo >= hi then s else FreePages(FreePage(s, Slot(pid, lo)), pid, lo + 1, hi)
  }

  /** Gives page k a fresh frame holding zeros, as alloc_user and fault_in do. */
  function NewPage(s: State, k: Slot, w: bool, x: bool): (r: (bool, State))
    requires Sized(s)
    ensures Sized(r.1) && r.1.regions == s.regions
  {
    match Pick(s.bits, s.hint, 0)
    case None => (false, s)
    case Some(i) =>
      var t := Take(s, i, Zeros());
      var (ok, u) := MapPage(t, k, Pte(i, w, true, x, false));
      if ok then (true, u) else (false, Drop(t, i))
  }

  /** alloc_user over pages lo up to hi. */
  function AllocPages(s: State, pid: Pid, lo: nat, hi: nat, w: bool, x: bool): (r: (bool, State))
    requires Sized(s)
    ensures Sized(r.1) && r.1.regions == s.regions
    decreases hi - lo
  {
    if lo >= hi then (true, s)
    else if Slot(pid, lo) in s.ptes then AllocPages(s, pid, lo + 1, hi, w, x)
    else
      var (ok, t) := NewPage(s, Slot(pid, lo), w, x);
      if ok then AllocPages(t, pid, lo + 1, hi, w, x) else (false, t)
  }

  /** fault_in. */
  function FaultIn(s: State, k: Slot, write: bool): (r: (bool, State))
    requires Sized(s) && k.pid in s.regions
    ensures Sized(r.1) && r.1.regions == s.regions
  {
    match FindRegion(s.regions[k.pid], k.page)
    case None => (false, s)
    case Some(g) =>
      if write && !g.w then (false, s)
      else if k !in s.ptes then NewPage(s, k, g.w, g.x)
      else if write && !s.ptes[k].w then BreakShare(s, k, g)
      else (true, s)
  }

  /** The copy-on-write half of fault_in. */
  function BreakShare(s: State, k: Slot, g: Region): (r: (bool, State))
    requires Sized(s) && k in s.ptes
    ensures Sized(r.1) && r.1.regions == s.regions
  {
    var i := s.ptes[k].frame;
    if !s.ptes[k].cow || i >= |s.refs| then (false, s)
    else if s.refs[i] > 1 then
      match Pick(s.bits, s.hint, 0)
      case None => (false, s)
      case Some(j) =>
        var t := Drop(Take(s, j, s.pages[i]), i);
        (true, MapPage(t, k, RegionPte(g, j)).1)
    else (true, MapPage(s, k, RegionPte(g, i)).1)
  }

  // ---- fork and exit ----

  /** The entry fork_space leaves in the parent and gives the child. */
  function ForkPte(e: Pte, g: Option<Region>): Pte {
    if g.Some? && !g.value.shared && (e.w || e.cow) then e.(w := false, cow := true) else e
  }

  /** One present entry of fork_space's loop. */
  function ForkPage(s: State, src: Pid, dst: Pid, v: nat): (r: (bool, State))
    requires Sized(s) && src in s.regions && Slot(src, v) in s.ptes
    ensures Sized(r.1) && r.1.regions == s.regions
  {
    var k := Slot(src, v);
    var e := ForkPte(s.ptes[k], FindRegion(s.regions[src], v));
    var t := s.(ptes := s.ptes[k := e]);
    var (ok, u) := MapPage(t, Slot(dst, v), e);
    if !ok then (false, t)
    else if e.frame >= |u.refs| then (false, u)
    else (true, Ref(u, e.frame))
  }

  /** fork_space from page v on. */
  function ForkPages(s: State, src: Pid, dst: Pid, v: nat): (r: (bool, State))
    requires Sized(s) && src in s.regions
    ensures Sized(r.1) && r.1.regions == s.regions
    decreases PAGES - v
  {
    if v >= PAGES then (true, s)
    else if SharedPde(v / 1024) || Slot(src, v) !in s.ptes then ForkPages(s, src, dst, v + 1)
    else
      var (ok, t) := ForkPage(s, src, dst, v);
      if ok then ForkPages(t, src, dst, v + 1) else (false, t)
  }

  /** free_pgdir's frames, from page v on. */
  function FreeAll(s: State, pid: Pid, v: nat): (t: State)
    requires Sized(s)
    ensures Sized(t) && t.regions == s.regions
    decreases PAGES - v
  {
    if v >= PAGES then s
    else FreeAll(if SharedPde(v / 1024) then s else FreePage(s, Slot(pid, v)), pid, v + 1)
  }

  function TablesOf(s: State, pid: Pid): set<Table> {
    set t | t in s.tables && t.pid == pid
  }

  /** free_pgdir and free_regions: the frames, the page tables and the directory go back. */
  function Exit(s: State, pid: Pid): (t: State)
    requires Sized(s)
    ensures Sized(t)
  {
    var t := FreeAll(s, pid, 0);
    t.(tables := t.tables - TablesOf(t, pid), low := t.low + |TablesOf(t, pid)| + 1, regions := t.regions - {pid})
  }

  /** do_rfork's memory: km says whether the regions could be copied. */
  function Fork(s: State, src: Pid, dst: Pid, km: bool): (r: (bool, State))
    requires Sized(s) && src in s.regions
    ensures Sized(r.1)
  {
    if s.low == 0 || !km then (false, s)
    else
      var t := s.(low := s.low - 1, regions := s.regions[dst := s.regions[src]]);
      var (ok, u) := ForkPages(t, src, dst, 0);
      if ok then (true, u) else (false, Exit(u, dst))
  }

  // ---- mapping and unmapping ----

  /** unmap_range. */
  function Unmap(s: State, pid: Pid, lo: nat, hi: nat, km: bool): (t: State)
    requires Sized(s) && pid in s.regions
    ensures Sized(t)
  {
    var t := FreePages(s, pid, lo, hi);
    t.(regions := s.regions[pid := Cut(s.regions[pid], lo, hi, km)])
  }

  /** do_mmap at a chosen place: split says whether a region split gets its memory, km whether
      the new region does. */
  function Mmap(s: State, pid: Pid, g: Region, split: bool, km: bool): (r: (bool, State))
    requires Sized(s) && pid in s.regions
    ensures Sized(r.1)
  {
    var t := Unmap(s, pid, g.lo, g.hi, split);
    if !km then (false, t)
    else
      var u := t.(regions := t.regions[pid := Insert(t.regions[pid], g)]);
      if !g.shared then (true, u)
      else
        var (ok, x) := AllocPages(u, pid, g.lo, g.hi, g.w, g.x);
        if ok then (true, x) else (false, Unmap(x, pid, g.lo, g.hi, split))
  }

  // ---- what a process sees ----

  /** The bytes process k.pid reads in page k.page; a page not yet faulted in reads as zeros. */
  function View(s: State, k: Slot): (c: seq<Byte>) {
    if k in s.ptes && s.ptes[k].frame < |s.pages| then s.pages[s.ptes[k].frame] else Zeros()
  }

  predicate Writable(s: State, k: Slot) {
    k in s.ptes && s.ptes[k].w && s.ptes[k].u
  }

  /** The processor's store: a page fault calls fault_in and the instruction is tried again. */
  function Store(s: State, k: Slot, off: nat, b: Byte): (r: (bool, State))
    requires Sized(s) && k.pid in s.regions && off < PAGE
    ensures Sized(r.1) && r.1.regions == s.regions
  {
    var (ok, t) := if Writable(s, k) then (true, s) else FaultIn(s, k, true);
    if ok && Writable(t, k) && t.ptes[k].frame < |t.pages| then (true, WriteByte(t, t.ptes[k].frame, off, b))
    else (false, t)
  }

  function WriteByte(s: State, i: nat, off: nat, b: Byte): State
    requires i < |s.pages| && off < PAGE
  {
    s.(pages := s.pages[i := s.pages[i][off := b]])
  }
}
