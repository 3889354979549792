/** Stores, and whole runs of the kernel's memory: every interleaving keeps the invariant, no
    process writes another's private bytes, and copy-on-write behaves like copying at fork. */
module MemoryRuns {
  import opened Words
  import opened Bitmaps
  import opened UserMemory
  import opened MemoryInvariant
  import opened MemorySteps
  import opened MemoryRegions

  // ---- one store ----

  /** A store succeeds exactly when it is permitted and the memory it needs is there. It changes the one
      byte it names, for the process itself and for those sharing a shared page, and for nobody else. */
  lemma StoreOk(s: State, k: Slot, off: nat, b: Byte)
    requires Inv(s) && k.pid in s.regions && off < PAGE
    ensures var (ok, t) := Store(s, k, off, b);
      && Inv(t) && (ok <==> Permitted(s, k, true) && Room(s, k, true))
      && (!ok ==> SameViews(s, t))
      && (ok ==> View(t, k) == View(s, k)[off := b])
      && (forall l: Slot :: l != k && !(SharedPage(s, k) && SharedPage(s, l)) ==> View(t, l) == View(s, l))
  {
    hide Inv, FindRegion, FaultIn;
    InvSized(s);
    FaultOk(s, k, true);
    if Writable(s, k) {
      EntryAt(s, k);
      WriteOk(s, k, off, b);
    } else {
      var (ok, t) := FaultIn(s, k, true);
      if ok {
        EntryAt(t, k);
        WriteOk(t, k, off, b);
        assert forall l: Slot :: SharedPage(t, l) == SharedPage(s, l);
      }
    }
  }

  lemma WriteOk(s: State, k: Slot, off: nat, b: Byte)
    requires Inv(s) && Writable(s, k) && s.ptes[k].frame < |s.pages| && off < PAGE
    ensures var t := WriteByte(s, s.ptes[k].frame, off, b);
      && Inv(t) && View(t, k) == View(s, k)[off := b]
      && (forall l: Slot :: l != k && !(SharedPage(s, k) && SharedPage(s, l)) ==> View(t, l) == View(s, l))
  {
    hide Inv, FindRegion;
    var i := s.ptes[k].frame;
    InvSized(s);
    PagesChange(s, s.pages[i := s.pages[i][off := b]], s.hint);
    forall l: Slot | l != k && l in s.ptes && s.ptes[l].frame == i
      ensures SharedPage(s, k) && SharedPage(s, l)
    {
      OtherRef(s, l, k);
      AlikeAt(s, l, k);
    }
  }

  // ---- frames the kernel keeps for itself ----

  function Hold(s: State): (t: State)
    requires Sized(s)
    ensures Sized(t) && t.regions == s.regions
  {
    match Pick(s.bits, s.hint, 0)
    case None => s
    case Some(i) => Take(s, i, Zeros()).(held := s.held + {i})
  }

  function Release(s: State, i: nat): (t: State)
    requires Sized(s)
    ensures Sized(t) && t.regions == s.regions
  {
    if i in s.held && i < |s.bits| then Drop(s, i).(held := s.held - {i}) else s
  }

  lemma HoldOk(s: State)
    requires Inv(s)
    ensures Inv(Hold(s)) && SameViews(s, Hold(s))
  {
    var p := Pick(s.bits, s.hint, 0);
    if p.Some? {
      FreeFrame(s, p.value);
      ClearSet(s.bits, p.value, true);
      BooksChange(s, Hold(s), p.value);
    }
  }

  lemma ReleaseOk(s: State, i: nat)
    requires Inv(s)
    ensures Inv(Release(s, i)) && SameViews(s, Release(s, i))
  {
    if i in s.held && i < |s.bits| {
      HeldFrame(s, i);
      DropExact(s, i);
      ClearSet(s.bits, i, false);
      BooksChange(s, Release(s, i), i);
    }
  }

  lemma HeldFrame(s: State, i: nat)
    requires Inv(s) && i in s.held
    ensures i < |s.refs| && s.refs[i] == 1 && Refs(s.ptes, i) == {} && forall k :: k in s.ptes ==> s.ptes[k].frame != i
  {
    hide Clear, FindRegion, RegionsOk;
    forall k | k in s.ptes
      ensures s.ptes[k].frame != i
    {
      assert EntryOk(s, k);
    }
    assert Refs(s.ptes, i) == {};
  }

  /** Only the books of frame i change, which no entry names. */
  lemma BooksChange(s: State, t: State, i: nat)
    requires Inv(s) && i < |s.refs| && (forall k :: k in s.ptes ==> s.ptes[k].frame != i)
    requires t == s.(bits := t.bits, refs := t.refs, nfree := t.nfree, hint := t.hint, pages := t.pages, held := t.held)
    requires Sized(t) && |t.refs| == |s.refs| && t.nfree == Clear(t.bits)
    requires forall j :: 0 <= j < |s.refs| && j != i ==>
      t.refs[j] == s.refs[j] && t.bits[j] == s.bits[j] && t.pages[j] == s.pages[j]
    requires forall j :: j != i ==> (j in t.held <==> j in s.held)
    requires t.refs[i] == HeldOnce(t, i) && t.bits[i] == (i in t.held)
    ensures Inv(t) && SameViews(s, t)
  {
    hide Clear, FindRegion, RegionsOk;
    assert Refs(s.ptes, i) == {};
    assert forall j: nat :: j != i ==> HeldOnce(s, j) == HeldOnce(t, j);
    assert forall k :: k in s.ptes ==> EntryOk(s, k) && EntryOk(t, k) && PrivateOk(s, k) && PrivateOk(t, k);
    assert forall k, l :: k in s.ptes && l in s.ptes ==> Alike(s, k, l) && Alike(t, k, l);
    forall k: Slot
      ensures View(t, k) == View(s, k)
    {
      assert k in s.ptes ==> EntryOk(s, k);
    }
  }

  // ---- runs ----

  /** LowOp: other users of low memory leave n free pages. */
  datatype Op =
    | FaultOp(k: Slot, write: bool)
    | StoreOp(k: Slot, off: nat, b: Byte)
    | ForkOp(src: Pid, dst: Pid, km: bool)
    | ExitOp(pid: Pid)
    | UnmapOp(pid: Pid, lo: nat, hi: nat, km: bool)
    | MmapOp(pid: Pid, g: Region, split: bool, km: bool)
    | HoldOp
    | ReleaseOp(i: nat)
    | LowOp(n: nat)

  /** What the callers ensure: a live process, a free slot for a child, checked user ranges; and a
      region split either gets its memory or loses no present page. */
  ghost predicate Legal(s: State, op: Op) {
    match op
    case FaultOp(k, _) => k.pid in s.regions
    case StoreOp(k, off, _) => k.pid in s.regions && off < PAGE
    case ForkOp(src, dst, _) => src in s.regions && dst !in s.regions
    case ExitOp(pid) => pid in s.regions
    case UnmapOp(pid, lo, hi, km) =>
      pid in s.regions && USER_FIRST <= lo <= hi <= USER_END && !Orphans(s, pid, lo, hi, km)
    case MmapOp(pid, g, split, _) =>
      pid in s.regions && USER_FIRST <= g.lo < g.hi <= USER_END && !Orphans(s, pid, g.lo, g.hi, split)
    case HoldOp => true
    case ReleaseOp(_) => true
    case LowOp(_) => true
  }

  ghost function Step(s: State, op: Op): (r: (bool, State))
    requires Sized(s) && Legal(s, op)
    ensures Sized(r.1)
  {
    match op
    case FaultOp(k, write) => FaultIn(s, k, write)
    case StoreOp(k, off, b) => Store(s, k, off, b)
    case ForkOp(src, dst, km) => Fork(s, src, dst, km)
    case ExitOp(pid) => (true, Exit(s, pid))
    case UnmapOp(pid, lo, hi, km) => (true, Unmap(s, pid, lo, hi, km))
    case MmapOp(pid, g, split, km) => Mmap(s, pid, g, split, km)
    case HoldOp => (true, Hold(s))
    case ReleaseOp(i) => (true, Release(s, i))
    case LowOp(n) => (true, s.(low := n))
  }

  ghost predicate LegalRun(s: State, ops: seq<Op>)
    requires Sized(s)
    decreases |ops|
  {
    ops != [] ==> Legal(s, ops[0]) && LegalRun(Step(s, ops[0]).1, ops[1..])
  }

  ghost function Run(s: State, ops: seq<Op>): (t: State)
    requires Sized(s) && LegalRun(s, ops)
    ensures Sized(t)
    decreases |ops|
  {
    if ops == [] then s else Run(Step(s, ops[0]).1, ops[1..])
  }

  lemma LowOk(s: State, n: nat)
    requires Inv(s)
    ensures Inv(s.(low := n)) && SameViews(s, s.(low := n))
  {
    hide Clear, FindRegion, RegionsOk;
    var t := s.(low := n);
    assert forall k :: k in s.ptes ==> EntryOk(s, k) && EntryOk(t, k) && PrivateOk(s, k) && PrivateOk(t, k);
    assert forall k, l :: k in s.ptes && l in s.ptes ==> Alike(s, k, l) && Alike(t, k, l);
    assert forall j :: 0 <= j < |s.refs| ==> HeldOnce(s, j) == HeldOnce(t, j);
  }

  lemma StepInv(s: State, op: Op)
    requires Inv(s) && Legal(s, op)
    ensures Inv(Step(s, op).1)
  {
    hide Inv, FaultIn, Store, Fork, Exit, Unmap, Mmap, Hold, Release, Orphans, Mapped;
    InvSized(s);
    match op
    case FaultOp(k, write) => FaultOk(s, k, write);
    case StoreOp(k, off, b) => StoreOk(s, k, off, b);
    case ForkOp(src, dst, km) => ForkOk(s, src, dst, km);
    case ExitOp(pid) => ExitOk(s, pid);
    case UnmapOp(pid, lo, hi, km) => UnmapOk(s, pid, lo, hi, km);
    case MmapOp(pid, g, split, km) =>
      MmapOk(s, pid, g, split, km);
      MappedInv(s, Mmap(s, pid, g, split, km).1, pid, g, Mmap(s, pid, g, split, km).0);
    case HoldOp => HoldOk(s);
    case ReleaseOp(i) => ReleaseOk(s, i);
    case LowOp(n) => LowOk(s, n);
  }

  lemma MappedInv(s: State, t: State, pid: Pid, g: Region, ok: bool)
    requires Mapped(s, t, pid, g, ok)
    ensures Inv(t) && Outside(s, t, pid, g.lo, g.hi)
  {
  }

  /** Every state of every run: counts, bits and nfree agree with the page tables, and a private
      page is writable only through the one entry naming its frame. */
  lemma {:induction false} RunInv(s: State, ops: seq<Op>)
    requires Inv(s) && LegalRun(s, ops)
    ensures Inv(Run(s, ops))
    decreases |ops|
  {
    hide Inv, Step;
    InvSized(s);
    if ops == [] {
    } else {
      StepInv(s, ops[0]);
      RunInv(Step(s, ops[0]).1, ops[1..]);
    }
  }

  // ---- isolation ----

  /** The operation is pid's own store, mapping, unmapping or exit, or it creates pid. */
  predicate ActsOn(op: Op, pid: Pid) {
    match op
    case StoreOp(k, _, _) => k.pid == pid
    case ForkOp(_, dst, _) => dst == pid
    case ExitOp(p) => p == pid
    case UnmapOp(p, _, _, _) => p == pid
    case MmapOp(p, _, _, _) => p == pid
    case _ => false
  }

  /** q's regions, and the bytes of its private pages, are the same in s and t. */
  ghost predicate KeepsPrivate(s: State, t: State, q: Pid) {
    && q in s.regions && q in t.regions && t.regions[q] == s.regions[q]
    && forall v: nat :: !SharedPage(s, Slot(q, v)) ==> View(t, Slot(q, v)) == View(s, Slot(q, v))
  }

  lemma StepIsolated(s: State, op: Op, q: Pid)
    requires Inv(s) && Legal(s, op) && q in s.regions && !ActsOn(op, q)
    ensures KeepsPrivate(s, Step(s, op).1, q)
  {
    hide Inv, FaultIn, Store, Fork, Exit, Unmap, Mmap, Hold, Release, Orphans, Mapped, FindRegion, SharedPage,
      NoNewRights, CutAway, LowPages;
    InvSized(s);
    match op
    case FaultOp(k, write) => FaultOk(s, k, write);
    case StoreOp(k, off, b) => StoreOk(s, k, off, b);
    case ForkOp(src, dst, km) => ForkOk(s, src, dst, km);
    case ExitOp(pid) => ExitOk(s, pid);
    case UnmapOp(pid, lo, hi, km) => UnmapOk(s, pid, lo, hi, km);
    case MmapOp(pid, g, split, km) =>
      MmapOk(s, pid, g, split, km);
      MappedInv(s, Mmap(s, pid, g, split, km).1, pid, g, Mmap(s, pid, g, split, km).0);
    case HoldOp => HoldOk(s);
    case ReleaseOp(i) => ReleaseOk(s, i);
    case LowOp(n) => LowOk(s, n);
  }

  /** Whatever the others do, q's regions and private bytes stay as q left them. */
  lemma {:induction false} RunIsolated(s: State, ops: seq<Op>, q: Pid)
    requires Inv(s) && LegalRun(s, ops) && q in s.regions && forall op :: op in ops ==> !ActsOn(op, q)
    ensures KeepsPrivate(s, Run(s, ops), q)
    decreases |ops|
  {
    hide Inv, Step, View;
    InvSized(s);
    if ops == [] {
    } else {
      StepInv(s, ops[0]);
      StepIsolated(s, ops[0], q);
      RunIsolated(Step(s, ops[0]).1, ops[1..], q);
    }
  }

  // ---- copy-on-write is copying ----

  /** A memory that knows nothing of frames: the bytes of every page of every process. */
  type Plain = Slot -> seq<Byte>

  ghost function PlainStep(a: Plain, op: Op, ok: bool): Plain {
    match op
    case StoreOp(k, off, b) => if ok then (l: Slot) => if l == k && off < |a(l)| then a(l)[off := b] else a(l) else a
    case ForkOp(src, dst, _) => if ok then (l: Slot) => if l.pid == dst then a(Slot(src, l.page)) else a(l) else a
    case ExitOp(pid) => (l: Slot) => if l.pid == pid then Zeros() else a(l)
    case UnmapOp(pid, lo, hi, _) => (l: Slot) => if l.pid == pid && lo <= l.page < hi then Zeros() else a(l)
    case MmapOp(pid, g, _, _) => (l: Slot) => if l.pid == pid && In(g, l.page) then Zeros() else a(l)
    case _ => a
  }

  ghost function PlainRun(a: Plain, ops: seq<Op>, oks: seq<bool>): Plain
    requires |oks| == |ops|
    decreases |ops|
  {
    if ops == [] then a else PlainRun(PlainStep(a, ops[0], oks[0]), ops[1..], oks[1..])
  }

  /** Which operations of the run succeeded. */
  ghost function Outcomes(s: State, ops: seq<Op>): (oks: seq<bool>)
    requires Sized(s) && LegalRun(s, ops)
    ensures |oks| == |ops|
    decreases |ops|
  {
    if ops == [] then [] else [Step(s, ops[0]).0] + Outcomes(Step(s, ops[0]).1, ops[1..])
  }

  ghost predicate Agrees(a: Plain, s: State) {
    forall k: Slot :: View(s, k) == a(k)
  }

  ghost predicate NoShared(s: State) {
    forall k: Slot :: !SharedPage(s, k)
  }

  predicate PrivateOp(op: Op) {
    op.MmapOp? ==> !op.g.shared
  }

  /** A slot without a process reads as zeros. */
  lemma DeadView(s: State, k: Slot)
    requires Inv(s) && k.pid !in s.regions
    ensures View(s, k) == Zeros()
  {
    if k in s.ptes {
      EntryAt(s, k);
    }
  }

  lemma StepPlain(s: State, op: Op, a: Plain)
    requires Inv(s) && Legal(s, op) && NoShared(s) && PrivateOp(op) && Agrees(a, s)
    ensures Agrees(PlainStep(a, op, Step(s, op).0), Step(s, op).1)
  {
    hide Inv, FaultIn, Store, Fork, Exit, Unmap, Mmap, Hold, Release, Orphans, FindRegion, SharedPage, NoNewRights,
      CutAway, LowPages;
    InvSized(s);
    match op
    case FaultOp(k, write) => FaultOk(s, k, write);
    case StoreOp(k, off, b) => StoreOk(s, k, off, b);
    case ForkOp(src, dst, km) => ForkPlain(s, src, dst, km);
    case ExitOp(pid) => ExitOk(s, pid);
    case UnmapOp(pid, lo, hi, km) => UnmapOk(s, pid, lo, hi, km);
    case MmapOp(pid, g, split, km) => MmapOk(s, pid, g, split, km);
    case HoldOp => HoldOk(s);
    case ReleaseOp(i) => ReleaseOk(s, i);
    case LowOp(n) => LowOk(s, n);
  }

  lemma ForkPlain(s: State, src: Pid, dst: Pid, km: bool)
    requires Inv(s) && src in s.regions && dst !in s.regions
    ensures var (ok, t) := Fork(s, src, dst, km);
      forall k: Slot :: View(t, k) == View(s, if ok && k.pid == dst then Slot(src, k.page) else k)
  {
    hide Inv, Fork;
    InvSized(s);
    ForkOk(s, src, dst, km);
    var (ok, t) := Fork(s, src, dst, km);
    forall k: Slot | k.pid == dst && !ok
      ensures View(t, k) == View(s, k)
    {
      DeadView(s, k);
      DeadView(t, k);
    }
    assert forall k: Slot :: k.pid == dst ==> k == Slot(dst, k.page);
  }

  lemma StepNoShared(s: State, op: Op)
    requires Inv(s) && Legal(s, op) && NoShared(s) && PrivateOp(op)
    ensures NoShared(Step(s, op).1)
  {
    hide Inv, FaultIn, Store, Fork, Exit, Unmap, Mmap, Hold, Release, Orphans, FindRegion, LowPages, View;
    InvSized(s);
    var t := Step(s, op).1;
    match op {
      case ForkOp(src, dst, km) => ForkOk(s, src, dst, km);
      case ExitOp(pid) => ExitOk(s, pid);
      case UnmapOp(pid, lo, hi, km) => UnmapOk(s, pid, lo, hi, km);
      case MmapOp(pid, g, split, km) => MmapOk(s, pid, g, split, km);
      case _ => assert t.regions == s.regions;
    }
    forall k: Slot
      ensures !SharedPage(t, k)
    {
      assert !SharedPage(s, if op.ForkOp? && k.pid == op.dst then Slot(op.src, k.page) else k);
    }
  }

  /** Every run over private memory: what the processes read through shared frames, copy-on-write
      faults and demand paging is what they would read if fork copied every page at once. */
  lemma {:induction false} RunRefinesPlain(s: State, ops: seq<Op>, a: Plain)
    requires Inv(s) && LegalRun(s, ops) && NoShared(s) && Agrees(a, s) && forall op :: op in ops ==> PrivateOp(op)
    ensures Agrees(PlainRun(a, ops, Outcomes(s, ops)), Run(s, ops))
    decreases |ops|
  {
    hide Inv, Step, Agrees, NoShared, PlainStep;
    InvSized(s);
    if ops == [] {
    } else {
      var (ok, t) := Step(s, ops[0]);
      StepInv(s, ops[0]);
      StepPlain(s, ops[0], a);
      StepNoShared(s, ops[0]);
      RunRefinesPlain(t, ops[1..], PlainStep(a, ops[0], ok));
      assert Outcomes(s, ops)[1..] == Outcomes(t, ops[1..]);
    }
  }
}
