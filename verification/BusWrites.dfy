/** Everything that writes RAM while the machine runs, with what each writer tells the decoded-instruction
    cache: stores, disk transfers, received frames. A machine made of them is one in which the cache is
    invisible. */
module BusWrites {
  import opened Words
  import opened Wrappers
  import opened DecodeCache
  import Machine

  const SECTOR: nat := 512
  const FRAME_MIN: nat := 14
  const FRAME_MAX: nat := 1514
  const RXBUF_SIZE: nat := 1536

  type Sector = d: seq<Byte> | |d| == SECTOR witness seq(SECTOR, i => 0)
  type Part = d: seq<Byte> | |d| <= SECTOR

  /** What reading a sector puts into memory: all of it, or on an error what came before the error. */
  datatype Fetch = Whole(bytes: Sector) | Broken(part: Part)

  /** What receive lets into the queue. */
  type Frame = f: seq<Byte> | FRAME_MIN <= |f| <= FRAME_MAX witness seq(FRAME_MIN, i => 0)

  /** Store: phys_write of n bytes. Disk: disk_complete for n sectors from s on, memory address a; disk holds
      what reading each sector gives. Net: try_deliver into the buffer at rx. Legacy: a sector
      read through the old disk port. Show, ShowRom and Blind: what fetch_slow and fetch_inval do to the
      fetch window. */
  datatype Act =
    | Store(pa: nat, v: nat, n: nat)
    | Disk(a: nat, s: nat, n: nat, read: bool, disk: seq<Fetch>)
    | Net(rx: nat, frame: Frame)
    | Legacy(buffer: nat, sector: Option<Sector>)
    | Show(tag: nat, page: nat)
    | ShowRom(tag: nat)
    | Blind

  function Put(ram: seq<Byte>, at: nat, d: seq<Byte>): (r: seq<Byte>)
    requires at + |d| <= |ram|
    ensures |r| == |ram|
    ensures forall i :: 0 <= i < |ram| ==> r[i] == if at <= i < at + |d| then d[i - at] else ram[i]
  {
    ram[..at] + d + ram[at + |d|..]
  }

  // ---- what is written ----

  /** The stores phys_write makes: one, two or four bytes, inside RAM. */
  predicate StoreFits(ram: seq<Byte>, pa: nat, n: nat) {
    1 <= n <= 4 && pa + n <= |ram|
  }

  function ReadSector(disk: seq<Fetch>, sec: nat): Fetch {
    if sec < |disk| then disk[sec] else Broken([])
  }

  predicate FailsIn(disk: seq<Fetch>, lo: nat, hi: nat) {
    exists sec :: lo <= sec < hi && ReadSector(disk, sec).Broken?
  }

  predicate DiskFits(ram: seq<Byte>, a: nat, s: nat, n: nat, disk: seq<Fetch>) {
    s + n <= |disk| && a + n * SECTOR <= |ram|
  }

  /** The sector loop from i on; an error ends it. */
  function DiskRam(ram: seq<Byte>, a: nat, s: nat, n: nat, disk: seq<Fetch>, i: nat): (r: seq<Byte>)
    requires a + n * SECTOR <= |ram|
    ensures |r| == |ram|
    decreases n - i
  {
    if i >= n then ram
    else
      match ReadSector(disk, s + i)
      case Broken(part) => Put(ram, a + i * SECTOR, part)
      case Whole(d) => DiskRam(Put(ram, a + i * SECTOR, d), a, s, n, disk, i + 1)
  }

  /** Each sector is reported, the one that failed too. */
  function DiskMarks(a: nat, s: nat, n: nat, disk: seq<Fetch>, i: nat): seq<Range>
    decreases n - i
  {
    if i >= n then []
    else
      [Range(a + i * SECTOR, SECTOR)]
      + if ReadSector(disk, s + i).Broken? then [] else DiskMarks(a, s, n, disk, i + 1)
  }

  function RamAfter(ram: seq<Byte>, x: Act): (r: seq<Byte>)
    ensures |r| == |ram|
  {
    match x
    case Store(pa, v, n) => if StoreFits(ram, pa, n) then Machine.Wr(ram, pa, v, n) else ram
    case Disk(a, s, n, read, disk) =>
      if read && DiskFits(ram, a, s, n, disk) then DiskRam(ram, a, s, n, disk, 0) else ram
    case Net(rx, f) => if rx + RXBUF_SIZE <= |ram| then Put(ram, rx, f) else ram
    case Legacy(at, d) => if at + SECTOR <= |ram| && d.Some? then Put(ram, at, d.value) else ram
    case _ => ram
  }

  function Effect<R>(s: Sys<R>, x: Act): Sys<R> {
    var t := s.(ram := RamAfter(s.ram, x));
    match x
    case Show(tag, page) => if (page + 1) * PAGE <= |s.ram| then t.(tag := tag, ppn := page) else t
    case ShowRom(tag) => t.(tag := tag, ppn := -1)
    case Blind => t.(tag := -1)
    case _ => t
  }

  /** The ranges passed to cpu_mem_written; phys_write passes its own only when the cache may hold it. */
  function Marks(ram: seq<Byte>, x: Act): seq<Range> {
    match x
    case Store(pa, _, n) => if StoreFits(ram, pa, n) then [Range(pa, n)] else []
    case Disk(a, s, n, read, disk) => if read && DiskFits(ram, a, s, n, disk) then DiskMarks(a, s, n, disk, 0) else []
    case Net(rx, f) => if rx + RXBUF_SIZE <= |ram| then [Range(rx, |f|)] else []
    case Legacy(at, d) => if at + SECTOR <= |ram| && d.Some? then [Range(at, SECTOR)] else []
    case _ => []
  }

  // ---- every changed byte is reported ----

  lemma OneRange(before: seq<Byte>, after: seq<Byte>, r: Range)
    requires |after| == |before| && forall i :: 0 <= i < |before| && !(r.pa <= i < r.pa + r.n) ==> after[i] == before[i]
    ensures Reported(before, after, [r])
  {
    forall a | 0 <= a < |before| && after[a] != before[a]
      ensures Wrote([r], a)
    {
      assert InRange([r][0], a);
    }
  }

  lemma {:induction false} DiskReported(ram: seq<Byte>, a: nat, s: nat, n: nat, disk: seq<Fetch>, i: nat)
    requires a + n * SECTOR <= |ram|
    ensures Reported(ram, DiskRam(ram, a, s, n, disk, i), DiskMarks(a, s, n, disk, i))
    decreases n - i
  {
    hide Reported;
    if i >= n {
      SelfReported(ram);
    } else {
      var at := a + i * SECTOR;
      match ReadSector(disk, s + i) {
        case Broken(part) =>
          OneRange(ram, Put(ram, at, part), Range(at, SECTOR));
          assert [Range(at, SECTOR)] + [] == [Range(at, SECTOR)];
        case Whole(d) =>
          var next := Put(ram, at, d);
          OneRange(ram, next, Range(at, SECTOR));
          DiskReported(next, a, s, n, disk, i + 1);
          ReportedTrans(ram, next, DiskRam(next, a, s, n, disk, i + 1), [Range(at, SECTOR)],
            DiskMarks(a, s, n, disk, i + 1));
      }
    }
  }

  lemma ActReported(ram: seq<Byte>, x: Act)
    ensures Reported(ram, RamAfter(ram, x), Marks(ram, x))
  {
    hide Reported, Machine.Wr, DiskRam, DiskMarks;
    SelfReported(ram);
    match x
    case Store(pa, v, n) =>
      if StoreFits(ram, pa, n) {
        OneRange(ram, Machine.Wr(ram, pa, v, n), Range(pa, n));
      }
    case Disk(a, s, n, _, disk) =>
      if DiskFits(ram, a, s, n, disk) {
        DiskReported(ram, a, s, n, disk, 0);
      }
    case Net(rx, f) =>
      if rx + RXBUF_SIZE <= |ram| {
        OneRange(ram, Put(ram, rx, f), Range(rx, |f|));
      }
    case Legacy(at, d) =>
      if at + SECTOR <= |ram| && d.Some? {
        OneRange(ram, Put(ram, at, d.value), Range(at, SECTOR));
      }
    case _ =>
  }

  // ---- a machine made of such writes ----

  function Effects<R>(s: Sys<R>, xs: seq<Act>): Sys<R>
    decreases |xs|
  {
    if xs == [] then s else Effects(Effect(s, xs[0]), xs[1..])
  }

  function AllMarks<R>(s: Sys<R>, xs: seq<Act>): seq<Range>
    decreases |xs|
  {
    if xs == [] then [] else Marks(s.ram, xs[0]) + AllMarks(Effect(s, xs[0]), xs[1..])
  }

  lemma EffectSound<R>(s: Sys<R>, x: Act)
    ensures Reported(s.ram, Effect(s, x).ram, Marks(s.ram, x)) && (WindowOk(s) ==> WindowOk(Effect(s, x)))
  {
    hide Reported, Marks;
    ActReported(s.ram, x);
  }

  lemma {:induction false} EffectsSound<R>(s: Sys<R>, xs: seq<Act>)
    ensures Reported(s.ram, Effects(s, xs).ram, AllMarks(s, xs)) && (WindowOk(s) ==> WindowOk(Effects(s, xs)))
    decreases |xs|
  {
    hide Reported, Marks, Effect, WindowOk;
    if xs == [] {
      SelfReported(s.ram);
    } else {
      var t := Effect(s, xs[0]);
      EffectSound(s, xs[0]);
      EffectsSound(t, xs[1..]);
      ReportedTrans(s.ram, t.ram, Effects(t, xs[1..]).ram, Marks(s.ram, xs[0]), AllMarks(t, xs[1..]));
    }
  }

  /** What a fetch, a round of events or an instruction does: its writes in order, and the state it leaves. */
  datatype Plan<R> = Plan(ok: bool, byte: Byte, acts: seq<Act>, pc: nat, rest: R)

  /** Lengths of the instruction formats. */
  const LENGTHS: seq<nat> := [1, 1, 2, 2, 2, 3, 4, 4, 4, 4, 6, 2, 2, 6, 6, 6, 6, 6, 6, 2, 2, 6]

  /** How the machine behaves, except that its only way to RAM is through acts; fmt is none for an opcode
      that does not exist. */
  datatype Unit<!R> = Unit(
    slow: (Sys<R>, nat) -> Plan<R>, rom: (Sys<R>, nat) -> Byte, events: Sys<R> -> Plan<R>,
    exec: (Sys<R>, seq<Byte>) -> Plan<R>, fmt: Byte -> Option<nat>)

  function Carry<R>(s: Sys<R>, p: Plan<R>): Out<R> {
    Out(p.ok, p.byte, Effects(s, p.acts).(pc := p.pc, rest := p.rest), AllMarks(s, p.acts))
  }

  function OpLength(f: Option<nat>): nat {
    if f.Some? && f.value < |LENGTHS| then LENGTHS[f.value] else 1
  }

  function Built<R>(u: Unit<R>): Hw<R> {
    Hw((s: Sys<R>, pc: nat) => Carry(s, u.slow(s, pc)), u.rom, (s: Sys<R>) => Carry(s, u.events(s)),
       (s: Sys<R>, b: seq<Byte>) => Carry(s, u.exec(s, b)), (op: Byte) => OpLength(u.fmt(op)))
  }

  lemma LengthOk(f: Option<nat>)
    ensures 1 <= OpLength(f) <= MAX_LEN
  {
  }

  lemma CarrySound<R>(s: Sys<R>, p: Plan<R>)
    ensures Sound(s, Carry(s, p))
  {
    hide Reported;
    EffectsSound(s, p.acts);
  }

  /** Every such machine reports all it writes. */
  lemma BuiltFaithful<R(!new)>(u: Unit<R>)
    ensures Faithful(Built(u))
  {
    hide Sound, Carry;
    var hw := Built(u);
    forall s: Sys<R>, pc: nat
      ensures Sound(s, hw.slow(s, pc))
    {
      CarrySound(s, u.slow(s, pc));
    }
    forall s: Sys<R>
      ensures Sound(s, hw.events(s))
    {
      CarrySound(s, u.events(s));
    }
    forall s: Sys<R>, b
      ensures Sound(s, hw.exec(s, b))
    {
      CarrySound(s, u.exec(s, b));
    }
    forall op
      ensures 1 <= hw.oplen(op) <= MAX_LEN
    {
      LengthOk(u.fmt(op));
    }
  }

  /** So with the cache and without it every run is the same: stores into code, disk transfers that end in
      an error, received frames and page-table marks included. */
  lemma BuiltRunSame<R(!new)>(u: Unit<R>, s: Sys<R>, n: nat)
    requires WindowOk(s)
    ensures var (t, dc) := CacheRun(Built(u), s, map[], n);
      t == PlainRun(Built(u), s, n) && CacheOk(Built(u), t.ram, dc)
  {
    hide CacheRun, PlainRun, Faithful;
    BuiltFaithful(u);
    RunSame(Built(u), s, map[], n);
  }

  // ---- the cache as the writers drop from it ----

  /** phys_write looks only at the first and last page it touches. */
  function StoreDrop(dc: Cache, pa: nat, n: nat): Cache
    requires n > 0
  {
    if pa / PAGE in dc || (pa + n - 1) / PAGE in dc then Drop(dc, [Range(pa, n)]) else dc
  }

  /** Not calling cpu_mem_written is the same as calling it. */
  lemma SkipSame(dc: Cache, pa: nat, n: nat)
    requires 1 <= n <= 4
    ensures StoreDrop(dc, pa, n) == Drop(dc, [Range(pa, n)])
  {
    forall p | p in dc && Hits(Range(pa, n), p)
      ensures p == pa / PAGE || p == (pa + n - 1) / PAGE
    {
    }
    DropOne(dc, Range(pa, n));
  }

  lemma DropOne(dc: Cache, r: Range)
    ensures forall p :: p in Drop(dc, [r]) <==> p in dc && !Hits(r, p)
    ensures (forall p :: p in dc ==> !Hits(r, p)) ==> Drop(dc, [r]) == dc
  {
    assert [r][0] == r;
  }

  /** The writers as the emulator runs them, each on RAM in place with its own call of cpu_mem_written. */
  class Bus {
    const ram: array<Byte>
    var dc: Cache
    var tag: int
    var ppn: int

    constructor (ram: array<Byte>)
      ensures this.ram == ram && dc == map[] && tag == -1
    {
      this.ram, dc, tag, ppn := ram, map[], -1, -1;
    }

    function Abs(): Sys<()>
      reads this, ram
    {
      Sys(0, ram[..], tag, ppn, ())
    }

    /** The table has an entry for every page of 256 megabytes. */
    predicate Small()
      reads this
    {
      forall p :: p in dc ==> p < TABLES
    }

    /** cpu_mem_written. */
    method MemWritten(pa: nat, n: nat)
      requires Small()
      modifies this`dc
      ensures dc == Drop(old(dc), [Range(pa, n)]) && Small()
    {
      ghost var r := Range(pa, n);
      DropOne(dc, r);
      if n == 0 {
        return;
      }
      var a, b := pa / PAGE, (pa + n - 1) / PAGE;
      ghost var first := a;
      while a <= b && a < TABLES
        invariant first <= a && (a <= b + 1 || first > b)
        invariant dc.Keys == set p | p in old(dc) && !(first <= p < a)
        invariant forall p :: p in dc ==> dc[p] == old(dc)[p]
        decreases b + 1 - a
      {
        if a in dc {
          dc := dc - {a};
        }
        a := a + 1;
      }
      assert dc == Drop(old(dc), [r]);
    }

    method CopyIn(at: nat, d: seq<Byte>)
      requires at + |d| <= ram.Length
      modifies ram
      ensures ram[..] == Put(old(ram[..]), at, d)
    {
      for i := 0 to |d|
        invariant forall k :: 0 <= k < ram.Length ==> ram[k] == if at <= k < at + i then d[k - at] else old(ram[k])
      {
        ram[at + i] := d[i];
      }
    }

    method StoreBytes(pa: nat, v: nat, n: nat)
      requires pa + n <= ram.Length
      modifies ram
      ensures ram[..] == Machine.Wr(old(ram[..]), pa, v, n)
    {
      var i, w := 0, v;
      while i < n
        invariant i <= n && Machine.Wr(ram[..], pa + i, w, n - i) == Machine.Wr(old(ram[..]), pa, v, n)
      {
        ghost var was := ram[..];
        ram[pa + i] := w % 256;
        assert ram[..] == was[pa + i := w % 256];
        i, w := i + 1, w / 256;
      }
    }

    /** phys_write, in RAM. */
    method PhysWrite(pa: nat, v: nat, n: nat) returns (ok: bool)
      requires Small()
      modifies this`dc, ram
      ensures ok <==> StoreFits(old(ram[..]), pa, n)
      ensures ram[..] == RamAfter(old(ram[..]), Store(pa, v, n)) && Small()
      ensures dc == Drop(old(dc), Marks(old(ram[..]), Store(pa, v, n)))
    {
      hide Machine.Wr, Drop;
      DropNone(dc);
      if n < 1 || n > 4 || pa + n > ram.Length {
        return false;
      }
      SkipSame(dc, pa, n);
      if pa / PAGE in dc || (pa + n - 1) / PAGE in dc {
        MemWritten(pa, n);
      }
      StoreBytes(pa, v, n);
      return true;
    }

    /** One sector read into RAM, or what came of it; cpu_mem_written is called either way. */
    method SectorIn(at: nat, d: Fetch)
      requires Small() && at + SECTOR <= ram.Length
      modifies this`dc, ram
      ensures ram[..] == Put(old(ram[..]), at, if d.Whole? then d.bytes else d.part) && Small()
      ensures dc == Drop(old(dc), [Range(at, SECTOR)])
    {
      hide Drop, Put;
      CopyIn(at, if d.Whole? then d.bytes else d.part);
      MemWritten(at, SECTOR);
    }

    /** disk_complete: an error in the middle leaves the sectors read so far, and the part of one that came before
        the error. */
    method DiskComplete(a: nat, s: nat, n: nat, read: bool, disk: seq<Fetch>) returns (err: bool)
      requires Small()
      modifies this`dc, ram
      ensures ram[..] == RamAfter(old(ram[..]), Disk(a, s, n, read, disk)) && Small()
      ensures dc == Drop(old(dc), Marks(old(ram[..]), Disk(a, s, n, read, disk)))
      ensures err <==> !DiskFits(old(ram[..]), a, s, n, disk) || FailsIn(disk, s, s + n)
    {
      hide Drop, DiskRam, DiskMarks, Put, FailsIn, ReadSector;
      DropNone(dc);
      err := s + n > |disk| || a + n * SECTOR > ram.Length;
      if err {
        return;
      }
      var i := 0;
      ghost var done: seq<Range> := [];
      NoneFail(disk, s);
      while i < n && !err
        invariant i <= n && Small() && dc == Drop(old(dc), done)
        invariant if err then FailsIn(disk, s, s + n) else !FailsIn(disk, s, s + i)
        invariant read && !err ==> DiskRam(old(ram[..]), a, s, n, disk, 0) == DiskRam(ram[..], a, s, n, disk, i)
        invariant read && !err ==> DiskMarks(a, s, n, disk, 0) == done + DiskMarks(a, s, n, disk, i)
        invariant read && err ==>
          DiskRam(old(ram[..]), a, s, n, disk, 0) == ram[..] && DiskMarks(a, s, n, disk, 0) == done
        invariant !read ==> ram[..] == old(ram[..]) && done == []
      {
        var d := ReadSector(disk, s + i);
        err := d.Broken?;
        FailStep(disk, s, s + i, s + n);
        if read {
          DiskStep(ram[..], a, s, n, disk, i, done);
          DropMore(old(dc), done, [Range(a + i * SECTOR, SECTOR)]);
          SectorIn(a + i * SECTOR, d);
          done := done + [Range(a + i * SECTOR, SECTOR)];
        }
        i := i + 1;
      }
      if !err {
        DiskEnd(ram[..], a, s, n, disk);
        assert done + [] == done;
      }
    }

    /** try_deliver: the first queued frame, if the device is on, the last one was taken, and the buffer
        the driver gave lies in RAM. */
    method TryDeliver(on: bool, busy: bool, rx: nat, queue: seq<Frame>) returns (taken: bool)
      requires Small()
      modifies this`dc, ram
      ensures taken <==> on && !busy && rx != 0 && queue != [] && rx + RXBUF_SIZE <= ram.Length
      ensures taken ==> ram[..] == RamAfter(old(ram[..]), Net(rx, queue[0]))
                        && dc == Drop(old(dc), Marks(old(ram[..]), Net(rx, queue[0])))
      ensures !taken ==> ram[..] == old(ram[..]) && dc == old(dc)
      ensures Small()
    {
      hide Drop;
      if !on || busy || rx == 0 || queue == [] || rx + RXBUF_SIZE > ram.Length {
        return false;
      }
      CopyIn(rx, queue[0]);
      MemWritten(rx, |queue[0]|);
      return true;
    }

    /** The old disk port. */
    method LegacyRead(buffer: nat, sector: Option<Sector>)
      requires Small()
      modifies this`dc, ram
      ensures ram[..] == RamAfter(old(ram[..]), Legacy(buffer, sector)) && Small()
      ensures dc == Drop(old(dc), Marks(old(ram[..]), Legacy(buffer, sector)))
    {
      hide Drop;
      DropNone(dc);
      if buffer + SECTOR > ram.Length || sector.None? {
        return;
      }
      CopyIn(buffer, sector.value);
      MemWritten(buffer, SECTOR);
    }

    method DoAct(x: Act)
      requires Small()
      modifies this, ram
      ensures Abs() == Effect(old(Abs()), x) && dc == Drop(old(dc), Marks(old(ram[..]), x)) && Small()
    {
      hide Drop, RamAfter;
      RamSame(ram[..], x);
      DropNone(dc);
      match x {
        case Store(pa, v, n) => var _ := PhysWrite(pa, v, n);
        case Disk(a, s, n, read, disk) => var _ := DiskComplete(a, s, n, read, disk);
        case Net(rx, f) =>
          if rx + RXBUF_SIZE <= ram.Length {
            CopyIn(rx, f);
            MemWritten(rx, |f|);
            NetRam(old(ram[..]), rx, f);
          }
        case Legacy(at, d) => LegacyRead(at, d);
        case Show(t, page) =>
          if (page + 1) * PAGE <= ram.Length {
            tag, ppn := t, page;
          }
        case ShowRom(t) => tag, ppn := t, -1;
        case Blind => tag := -1;
      }
    }

    /** A plan's writes, one after the other, do to RAM and the cache what the plan reports. */
    method Perform(xs: seq<Act>)
      requires Small()
      modifies this, ram
      ensures Abs() == Effects(old(Abs()), xs) && dc == Drop(old(dc), AllMarks(old(Abs()), xs)) && Small()
    {
      hide Drop, Effect, Marks;
      DropNone(dc);
      var i := 0;
      ghost var done: seq<Range> := [];
      assert xs[0..] == xs;
      while i < |xs|
        invariant i <= |xs| && Small() && dc == Drop(old(dc), done)
        invariant Effects(old(Abs()), xs) == Effects(Abs(), xs[i..])
        invariant AllMarks(old(Abs()), xs) == done + AllMarks(Abs(), xs[i..])
      {
        ghost var m, rest := Marks(ram[..], xs[i]), AllMarks(Effect(Abs(), xs[i]), xs[i + 1..]);
        assert xs[i..][0] == xs[i] && xs[i..][1..] == xs[i + 1..];
        assert done + (m + rest) == done + m + rest;
        DropMore(old(dc), done, m);
        DoAct(xs[i]);
        done := done + m;
        i := i + 1;
      }
      assert done + [] == done;
    }
  }

  const TABLES: nat := 65536

  lemma DiskStep(ram: seq<Byte>, a: nat, s: nat, n: nat, disk: seq<Fetch>, i: nat, done: seq<Range>)
    requires i < n && a + n * SECTOR <= |ram|
    ensures var d, at := ReadSector(disk, s + i), a + i * SECTOR;
      && (d.Broken? ==>
            && DiskRam(ram, a, s, n, disk, i) == Put(ram, at, d.part)
            && done + DiskMarks(a, s, n, disk, i) == done + [Range(at, SECTOR)])
      && (d.Whole? ==>
            && DiskRam(ram, a, s, n, disk, i) == DiskRam(Put(ram, at, d.bytes), a, s, n, disk, i + 1)
            && done + DiskMarks(a, s, n, disk, i) == done + [Range(at, SECTOR)] + DiskMarks(a, s, n, disk, i + 1))
  {
    hide Put;
    var r := Range(a + i * SECTOR, SECTOR);
    assert done + ([r] + DiskMarks(a, s, n, disk, i + 1)) == done + [r] + DiskMarks(a, s, n, disk, i + 1);
    assert done + ([r] + []) == done + [r];
  }

  lemma DiskEnd(ram: seq<Byte>, a: nat, s: nat, n: nat, disk: seq<Fetch>)
    requires a + n * SECTOR <= |ram|
    ensures DiskRam(ram, a, s, n, disk, n) == ram && DiskMarks(a, s, n, disk, n) == []
  {
  }

  lemma NoneFail(disk: seq<Fetch>, s: nat)
    ensures !FailsIn(disk, s, s)
  {
  }

  lemma FailStep(disk: seq<Fetch>, lo: nat, mid: nat, hi: nat)
    requires lo <= mid < hi && !FailsIn(disk, lo, mid)
    ensures if ReadSector(disk, mid).Broken? then FailsIn(disk, lo, hi) else !FailsIn(disk, lo, mid + 1)
  {
  }

  lemma RamSame(ram: seq<Byte>, x: Act)
    ensures x.Show? || x.ShowRom? || x.Blind? ==> RamAfter(ram, x) == ram
    ensures x.Net? && x.rx + RXBUF_SIZE > |ram| ==> RamAfter(ram, x) == ram
  {
  }

  lemma NetRam(ram: seq<Byte>, rx: nat, f: Frame)
    requires rx + RXBUF_SIZE <= |ram|
    ensures RamAfter(ram, Net(rx, f)) == Put(ram, rx, f)
  {
  }
}
