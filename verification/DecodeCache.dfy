/** The decoded-instruction cache is invisible: with it on or off every step gives the same machine.
    Slow fetches, device events and instruction execution are any functions that report the RAM
    ranges they wrote. */
module DecodeCache {
  import opened Words

  const PAGE: nat := 4096
  const MAX_LEN: nat := 7

  /** n bytes written from pa on. */
  datatype Range = Range(pa: nat, n: nat)

  /** tag: the virtual page whose bytes fetches take straight from memory, or -1; ppn: its physical
      page, or -1 when it is ROM. rest: everything else. */
  datatype Sys<R> = Sys(pc: nat, ram: seq<Byte>, tag: int, ppn: int, rest: R)

  /** ok: the byte was fetched or the step finished; otherwise a fault took over. */
  datatype Out<R> = Out(ok: bool, byte: Byte, sys: Sys<R>, writes: seq<Range>)

  /** slow: fetch_slow. rom: a byte of the window when it shows ROM. events: device events and interrupt
      delivery before an instruction. exec: the instruction itself, from its bytes. oplen: the length an
      opcode has. */
  datatype Hw<!R> = Hw(
    slow: (Sys<R>, nat) -> Out<R>, rom: (Sys<R>, nat) -> Byte, events: Sys<R> -> Out<R>,
    exec: (Sys<R>, seq<Byte>) -> Out<R>, oplen: Byte -> nat)

  // ---- what the rest of the machine promises ----

  predicate InRange(r: Range, a: nat) {
    r.pa <= a < r.pa + r.n
  }

  predicate Wrote(writes: seq<Range>, a: nat) {
    exists i :: 0 <= i < |writes| && InRange(writes[i], a)
  }

  /** Every changed byte of RAM lies in a reported range. */
  ghost predicate Reported(before: seq<Byte>, after: seq<Byte>, writes: seq<Range>) {
    |after| == |before| && forall a :: 0 <= a < |before| && after[a] != before[a] ==> Wrote(writes, a)
  }

  /** The window shows a whole page of RAM. */
  predicate WindowOk<R>(s: Sys<R>) {
    s.tag >= 0 && s.ppn >= 0 ==> (s.ppn + 1) * PAGE <= |s.ram|
  }

  ghost predicate Sound<R>(s: Sys<R>, o: Out<R>) {
    Reported(s.ram, o.sys.ram, o.writes) && (WindowOk(s) ==> WindowOk(o.sys))
  }

  ghost predicate Faithful<R(!new)>(hw: Hw<R>) {
    && (forall s, pc: nat :: Sound(s, hw.slow(s, pc)))
    && (forall s :: Sound(s, hw.events(s)))
    && (forall s, b :: Sound(s, hw.exec(s, b)))
    && (forall op :: 1 <= hw.oplen(op) <= MAX_LEN)
  }

  // ---- fetching and decoding ----

  /** fetch_at. */
  function FetchAt<R>(hw: Hw<R>, s: Sys<R>, pc: nat): Out<R> {
    if s.tag == pc / PAGE then
      if s.ppn >= 0 then
        var a := s.ppn * PAGE + pc % PAGE;
        if a < |s.ram| then Out(true, s.ram[a], s, []) else hw.slow(s, pc)
      else Out(true, hw.rom(s, pc), s, [])
    else hw.slow(s, pc)
  }

  datatype Decoded<R> = Decoded(ok: bool, bytes: seq<Byte>, sys: Sys<R>, writes: seq<Range>)

  /** n more bytes from pc on; a fault ends it. */
  function FetchMore<R>(hw: Hw<R>, s: Sys<R>, pc: nat, n: nat): Decoded<R>
    decreases n
  {
    if n == 0 then Decoded(true, [], s, [])
    else
      var o := FetchAt(hw, s, pc);
      if !o.ok then Decoded(false, [], o.sys, o.writes)
      else
        var d := FetchMore(hw, o.sys, pc + 1, n - 1);
        Decoded(d.ok, [o.byte] + d.bytes, d.sys, o.writes + d.writes)
  }

  /** decode: the opcode says how many bytes follow. */
  function Decode<R>(hw: Hw<R>, s: Sys<R>, pc: nat): Decoded<R> {
    var o := FetchAt(hw, s, pc);
    if !o.ok then Decoded(false, [], o.sys, o.writes)
    else
      var n := hw.oplen(o.byte);
      var d := FetchMore(hw, o.sys, pc + 1, if n > 0 then n - 1 else 0);
      Decoded(d.ok, [o.byte] + d.bytes, d.sys, o.writes + d.writes)
  }

  // ---- one step without the cache ----

  /** The instruction, unless fetching it faulted. */
  function Finish<R>(hw: Hw<R>, pc: nat, d: Decoded<R>): Out<R> {
    if !d.ok then Out(false, 0, d.sys, []) else hw.exec(d.sys.(pc := pc + |d.bytes|), d.bytes)
  }

  function PlainStep<R>(hw: Hw<R>, s: Sys<R>): Sys<R> {
    var v := hw.events(s);
    if !v.ok then v.sys else Finish(hw, v.sys.pc, Decode(hw, v.sys, v.sys.pc)).sys
  }

  // ---- one step with the cache ----

  /** Decoded bytes by physical page and offset. */
  type Cache = map<nat, map<nat, seq<Byte>>>

  predicate Hits(r: Range, page: nat) {
    r.n > 0 && r.pa / PAGE <= page <= (r.pa + r.n - 1) / PAGE
  }

  /** cpu_mem_written for every reported range. */
  function Drop(dc: Cache, writes: seq<Range>): Cache {
    map p | p in dc && (forall i :: 0 <= i < |writes| ==> !Hits(writes[i], p)) :: dc[p]
  }

  predicate Cachable<R>(s: Sys<R>, pc: nat) {
    pc / PAGE == s.tag && s.ppn >= 0 && pc % PAGE <= 0xFFA
  }

  function Entry(dc: Cache, page: nat, off: nat): seq<Byte> {
    if page in dc && off in dc[page] then dc[page][off] else []
  }

  function Remember(dc: Cache, page: nat, off: nat, b: seq<Byte>): Cache {
    dc[page := TableOf(dc, page)[off := b]]
  }

  function TableOf(dc: Cache, page: nat): map<nat, seq<Byte>> {
    if page in dc then dc[page] else map[]
  }

  function CacheStep<R>(hw: Hw<R>, s: Sys<R>, dc: Cache): (Sys<R>, Cache) {
    var v := hw.events(s);
    var dc1 := Drop(dc, v.writes);
    if !v.ok then (v.sys, dc1)
    else
      var pc, off := v.sys.pc, v.sys.pc % PAGE;
      if Cachable(v.sys, pc) && Entry(dc1, v.sys.ppn, off) != [] then
        var o := Finish(hw, pc, Decoded(true, Entry(dc1, v.sys.ppn, off), v.sys, []));
        (o.sys, Drop(dc1, o.writes))
      else
        var d := Decode(hw, v.sys, pc);
        var dc2 := Drop(dc1, d.writes);
        var dc3 := if Cachable(v.sys, pc) && d.ok && off + |d.bytes| <= PAGE
          then Remember(dc2, v.sys.ppn, off, d.bytes) else dc2;
        var o := Finish(hw, pc, d);
        (o.sys, Drop(dc3, o.writes))
  }

  // ---- every entry is what RAM holds ----

  ghost predicate EntryOk<R>(hw: Hw<R>, ram: seq<Byte>, page: nat, off: nat, b: seq<Byte>) {
    && b != [] && |b| == hw.oplen(b[0]) && off + |b| <= PAGE && (page + 1) * PAGE <= |ram|
    && forall i :: 0 <= i < |b| ==> page * PAGE + off + i < |ram| && b[i] == ram[page * PAGE + off + i]
  }

  ghost predicate CacheOk<R>(hw: Hw<R>, ram: seq<Byte>, dc: Cache) {
    forall p, off :: p in dc && off in dc[p] ==> EntryOk(hw, ram, p, off, dc[p][off])
  }

  /** A byte in a range lies on a page the range hits. */
  lemma HitPage(r: Range, page: nat, off: nat)
    requires off < PAGE && InRange(r, page * PAGE + off)
    ensures Hits(r, page)
  {
    assert (page * PAGE + off) / PAGE == page;
  }

  /** Dropping the pages written keeps the cache right. */
  lemma DropOk<R>(hw: Hw<R>, before: seq<Byte>, after: seq<Byte>, writes: seq<Range>, dc: Cache)
    requires CacheOk(hw, before, dc) && Reported(before, after, writes)
    ensures CacheOk(hw, after, Drop(dc, writes))
  {
    var kept := Drop(dc, writes);
    forall p, off | p in kept && off in kept[p]
      ensures EntryOk(hw, after, p, off, kept[p][off])
    {
      var b := dc[p][off];
      assert EntryOk(hw, before, p, off, b);
      forall i | 0 <= i < |b|
        ensures after[p * PAGE + off + i] == b[i]
      {
        NotWritten(writes, p, off + i);
      }
    }
  }

  lemma NotWritten(writes: seq<Range>, page: nat, off: nat)
    requires off < PAGE && forall i :: 0 <= i < |writes| ==> !Hits(writes[i], page)
    ensures !Wrote(writes, page * PAGE + off)
  {
    forall i | 0 <= i < |writes|
      ensures !InRange(writes[i], page * PAGE + off)
    {
      if InRange(writes[i], page * PAGE + off) {
        HitPage(writes[i], page, off);
      }
    }
  }

  // ---- fetching inside the window ----

  ghost predicate InWindow<R>(s: Sys<R>, pc: nat, n: nat) {
    pc / PAGE == s.tag && s.ppn >= 0 && pc % PAGE + n <= PAGE && WindowOk(s)
  }

  /** Where the window shows pc. */
  function Addr<R>(s: Sys<R>, pc: nat): int {
    s.ppn * PAGE + pc % PAGE
  }

  lemma NextInWindow<R>(s: Sys<R>, pc: nat, n: nat)
    requires InWindow(s, pc, n) && n > 1
    ensures InWindow(s, pc + 1, n - 1) && Addr(s, pc + 1) == Addr(s, pc) + 1
  {
  }

  lemma FetchInWindow<R>(hw: Hw<R>, s: Sys<R>, pc: nat, n: nat)
    requires InWindow(s, pc, n) && n > 0
    ensures 0 <= Addr(s, pc) && Addr(s, pc) + n <= |s.ram|
    ensures FetchAt(hw, s, pc) == Out(true, s.ram[Addr(s, pc)], s, [])
  {
    assert (s.ppn + 1) * PAGE == s.ppn * PAGE + PAGE;
  }

  /** Inside the window fetching reads RAM and changes nothing. */
  lemma {:induction false} MoreInWindow<R>(hw: Hw<R>, s: Sys<R>, pc: nat, n: nat, a: nat)
    requires n > 0 ==> InWindow(s, pc, n) && a == Addr(s, pc)
    ensures n > 0 ==> a + n <= |s.ram|
    ensures FetchMore(hw, s, pc, n) == Decoded(true, if n == 0 then [] else s.ram[a..a + n], s, [])
    decreases n
  {
    hide FetchAt, InWindow, Addr;
    if n == 0 {
    } else {
      FetchInWindow(hw, s, pc, n);
      if n > 1 {
        NextInWindow(s, pc, n);
      }
      MoreInWindow(hw, s, pc + 1, n - 1, a + 1);
      assert [s.ram[a]] + (if n == 1 then [] else s.ram[a + 1..a + 1 + (n - 1)]) == s.ram[a..a + n];
    }
  }

  lemma DecodeInWindow<R(!new)>(hw: Hw<R>, s: Sys<R>, pc: nat, n: nat, a: nat)
    requires Faithful(hw) && n >= 1 && InWindow(s, pc, n) && a == Addr(s, pc) && a < |s.ram| && n == hw.oplen(s.ram[a])
    ensures a + n <= |s.ram| && Decode(hw, s, pc) == Decoded(true, s.ram[a..a + n], s, [])
  {
    hide FetchAt, Faithful, FetchMore, InWindow, Addr;
    FetchInWindow(hw, s, pc, n);
    if n > 1 {
      NextInWindow(s, pc, n);
    }
    MoreInWindow(hw, s, pc + 1, n - 1, a + 1);
    assert [s.ram[a]] + (if n == 1 then [] else s.ram[a + 1..a + 1 + (n - 1)]) == s.ram[a..a + n];
  }

  // ---- reports add up ----

  lemma WroteConcat(a: seq<Range>, b: seq<Range>, x: nat)
    ensures Wrote(a + b, x) <==> Wrote(a, x) || Wrote(b, x)
  {
    if Wrote(a, x) {
      var i :| 0 <= i < |a| && InRange(a[i], x);
      assert (a + b)[i] == a[i];
    }
    if Wrote(b, x) {
      var i :| 0 <= i < |b| && InRange(b[i], x);
      assert (a + b)[|a| + i] == b[i];
    }
  }

  lemma ReportedTrans(x: seq<Byte>, y: seq<Byte>, z: seq<Byte>, a: seq<Range>, b: seq<Range>)
    requires Reported(x, y, a) && Reported(y, z, b)
    ensures Reported(x, z, a + b)
  {
    forall i | 0 <= i < |x| && z[i] != x[i]
      ensures Wrote(a + b, i)
    {
      WroteConcat(a, b, i);
    }
  }

  ghost predicate SoundDecode<R>(s: Sys<R>, d: Decoded<R>) {
    Reported(s.ram, d.sys.ram, d.writes) && (WindowOk(s) ==> WindowOk(d.sys))
  }

  lemma FetchSound<R(!new)>(hw: Hw<R>, s: Sys<R>, pc: nat)
    requires Faithful(hw)
    ensures Sound(s, FetchAt(hw, s, pc))
  {
  }

  lemma {:induction false} MoreSound<R(!new)>(hw: Hw<R>, s: Sys<R>, pc: nat, n: nat)
    requires Faithful(hw)
    ensures SoundDecode(s, FetchMore(hw, s, pc, n))
    decreases n
  {
    hide Faithful, FetchAt, Reported;
    SelfReported(s.ram);
    if n == 0 {
    } else {
      FetchSound(hw, s, pc);
      var o := FetchAt(hw, s, pc);
      if o.ok {
        MoreSound(hw, o.sys, pc + 1, n - 1);
        var d := FetchMore(hw, o.sys, pc + 1, n - 1);
        ReportedTrans(s.ram, o.sys.ram, d.sys.ram, o.writes, d.writes);
      }
    }
  }

  lemma SelfReported(ram: seq<Byte>)
    ensures Reported(ram, ram, [])
  {
  }

  lemma DecodeSound<R(!new)>(hw: Hw<R>, s: Sys<R>, pc: nat)
    requires Faithful(hw)
    ensures SoundDecode(s, Decode(hw, s, pc))
  {
    hide Faithful, FetchAt, FetchMore, Reported;
    FetchSound(hw, s, pc);
    var o := FetchAt(hw, s, pc);
    if o.ok {
      var n := hw.oplen(o.byte);
      MoreSound(hw, o.sys, pc + 1, if n > 0 then n - 1 else 0);
      var d := FetchMore(hw, o.sys, pc + 1, if n > 0 then n - 1 else 0);
      ReportedTrans(s.ram, o.sys.ram, d.sys.ram, o.writes, d.writes);
    }
  }

  // ---- the cache is invisible ----

  ghost predicate Good<R>(hw: Hw<R>, s: Sys<R>, dc: Cache) {
    WindowOk(s) && CacheOk(hw, s.ram, dc)
  }

  lemma DropTwice<R>(hw: Hw<R>, s: Sys<R>, o: Sys<R>, writes: seq<Range>, dc: Cache)
    requires Good(hw, s, dc) && Reported(s.ram, o.ram, writes) && WindowOk(o)
    ensures Good(hw, o, Drop(dc, writes))
  {
    hide Reported, Drop, CacheOk;
    DropOk(hw, s.ram, o.ram, writes, dc);
  }

  /** A hit gives the bytes decoding would give. */
  lemma HitOk<R(!new)>(hw: Hw<R>, s: Sys<R>, dc: Cache)
    requires Faithful(hw) && Good(hw, s, dc) && Cachable(s, s.pc) && Entry(dc, s.ppn, s.pc % PAGE) != []
    ensures Decode(hw, s, s.pc) == Decoded(true, Entry(dc, s.ppn, s.pc % PAGE), s, [])
  {
    hide Decode, Faithful, CacheOk, EntryOk, Addr;
    var off := s.pc % PAGE;
    var b := Entry(dc, s.ppn, off);
    EntryKnown(hw, s.ram, dc, s.ppn, off);
    EntryBytes(hw, s.ram, s.ppn, off, b);
    AddrIs(s);
    DecodeInWindow(hw, s, s.pc, |b|, s.ppn * PAGE + off);
  }

  lemma AddrIs<R>(s: Sys<R>)
    ensures Addr(s, s.pc) == s.ppn * PAGE + s.pc % PAGE
  {
  }

  lemma EntryKnown<R>(hw: Hw<R>, ram: seq<Byte>, dc: Cache, page: nat, off: nat)
    requires CacheOk(hw, ram, dc) && Entry(dc, page, off) != []
    ensures EntryOk(hw, ram, page, off, Entry(dc, page, off))
  {
  }

  lemma EntryBytes<R>(hw: Hw<R>, ram: seq<Byte>, page: nat, off: nat, b: seq<Byte>)
    requires EntryOk(hw, ram, page, off, b)
    ensures var a := page * PAGE + off;
      a + |b| <= |ram| && b == ram[a..a + |b|] && b != [] && |b| == hw.oplen(ram[a]) && off + |b| <= PAGE
  {
    var a := page * PAGE + off;
    assert b[|b| - 1] == ram[a + (|b| - 1)];
    assert b[0] == ram[a + 0];
  }

  /** What a miss stores is right, and the step that stored it wrote nothing while decoding. */
  lemma MissOk<R(!new)>(hw: Hw<R>, s: Sys<R>, dc: Cache)
    requires Faithful(hw) && Good(hw, s, dc) && Cachable(s, s.pc)
    ensures var d := Decode(hw, s, s.pc);
      d.ok && s.pc % PAGE + |d.bytes| <= PAGE ==>
        d.sys == s && d.writes == [] && EntryOk(hw, s.ram, s.ppn, s.pc % PAGE, d.bytes)
  {
    hide FetchMore, Faithful, CacheOk;
    var pc, d := s.pc, Decode(hw, s, s.pc);
    FetchInWindow(hw, s, pc, 1);
    if d.ok && pc % PAGE + |d.bytes| <= PAGE {
      var a := s.ppn * PAGE + pc % PAGE;
      var n := hw.oplen(s.ram[a]);
      OpLen(hw, s.ram[a]);
      MoreLength(hw, s, pc + 1, n - 1);
      assert |d.bytes| == n;
      DecodeInWindow(hw, s, pc, n, a);
    }
  }

  lemma OpLen<R(!new)>(hw: Hw<R>, op: Byte)
    requires Faithful(hw)
    ensures 1 <= hw.oplen(op) <= MAX_LEN
  {
  }

  lemma {:induction false} MoreLength<R>(hw: Hw<R>, s: Sys<R>, pc: nat, n: nat)
    ensures var d := FetchMore(hw, s, pc, n); d.ok ==> |d.bytes| == n
    decreases n
  {
    if n == 0 {
    } else {
      MoreLength(hw, FetchAt(hw, s, pc).sys, pc + 1, n - 1);
    }
  }

  /** One step, cache on or off: the same machine, and the cache stays right. */
  lemma StepSame<R(!new)>(hw: Hw<R>, s: Sys<R>, dc: Cache)
    requires Faithful(hw) && Good(hw, s, dc)
    ensures var (t, dc') := CacheStep(hw, s, dc); t == PlainStep(hw, s) && Good(hw, t, dc')
  {
    hide Faithful, Good, Decode, Drop, Remember, Entry, Reported, Cachable;
    var v := hw.events(s);
    EventsSound(hw, s);
    GoodWindow(hw, s, dc);
    DropTwice(hw, s, v.sys, v.writes, dc);
    if v.ok {
      AfterEvents(hw, v.sys, Drop(dc, v.writes));
    }
  }

  lemma GoodWindow<R>(hw: Hw<R>, s: Sys<R>, dc: Cache)
    requires Good(hw, s, dc)
    ensures WindowOk(s)
  {
  }

  lemma EventsSound<R(!new)>(hw: Hw<R>, s: Sys<R>)
    requires Faithful(hw)
    ensures Sound(s, hw.events(s))
  {
  }

  lemma FinishGood<R(!new)>(hw: Hw<R>, s: Sys<R>, pc: nat, d: Decoded<R>, dc: Cache)
    requires Faithful(hw) && Good(hw, d.sys, dc)
    ensures var o := Finish(hw, pc, d); Good(hw, o.sys, Drop(dc, o.writes))
  {
    hide Reported, Drop, CacheOk;
    if !d.ok {
      SelfReported(d.sys.ram);
      DropTwice(hw, d.sys, d.sys, [], dc);
    } else {
      var s1 := d.sys.(pc := pc + |d.bytes|);
      var e := hw.exec(s1, d.bytes);
      assert Sound(s1, e);
      assert Good(hw, s1, dc);
      DropTwice(hw, s1, e.sys, e.writes, dc);
    }
  }

  lemma AfterEvents<R(!new)>(hw: Hw<R>, s: Sys<R>, dc: Cache)
    requires Faithful(hw) && Good(hw, s, dc)
    ensures var d := Decode(hw, s, s.pc);
      var off := s.pc % PAGE;
      && (Cachable(s, s.pc) && Entry(dc, s.ppn, off) != [] ==>
            d == Decoded(true, Entry(dc, s.ppn, off), s, [])
              && Good(hw, Finish(hw, s.pc, d).sys, Drop(dc, Finish(hw, s.pc, d).writes)))
      && (!(Cachable(s, s.pc) && Entry(dc, s.ppn, off) != []) ==>
            var dc2 := Drop(dc, d.writes);
            var dc3 := if Cachable(s, s.pc) && d.ok && off + |d.bytes| <= PAGE
              then Remember(dc2, s.ppn, off, d.bytes) else dc2;
            Good(hw, Finish(hw, s.pc, d).sys, Drop(dc3, Finish(hw, s.pc, d).writes)))
  {
    hide Faithful, Good, Decode, Remember, Entry, Reported, CacheOk, Cachable, EntryOk;
    var d, off := Decode(hw, s, s.pc), s.pc % PAGE;
    DecodeSound(hw, s, s.pc);
    GoodWindow(hw, s, dc);
    if Cachable(s, s.pc) {
      CachablePage(s);
    }
    if Cachable(s, s.pc) && Entry(dc, s.ppn, off) != [] {
      HitOk(hw, s, dc);
      FinishGood(hw, s, s.pc, d, dc);
    } else {
      var dc2 := Drop(dc, d.writes);
      DropTwice(hw, s, d.sys, d.writes, dc);
      if Cachable(s, s.pc) && d.ok && off + |d.bytes| <= PAGE {
        MissOk(hw, s, dc);
        RememberOk(hw, s, dc2, s.ppn, off, d.bytes);
        FinishGood(hw, s, s.pc, d, Remember(dc2, s.ppn, off, d.bytes));
      } else {
        FinishGood(hw, s, s.pc, d, dc2);
      }
    }
  }

  lemma CachablePage<R>(s: Sys<R>)
    requires Cachable(s, s.pc)
    ensures s.ppn >= 0
  {
  }

  lemma RememberOk<R>(hw: Hw<R>, s: Sys<R>, dc: Cache, page: nat, off: nat, b: seq<Byte>)
    requires Good(hw, s, dc) && EntryOk(hw, s.ram, page, off, b)
    ensures Good(hw, s, Remember(dc, page, off, b))
  {
  }

  function PlainRun<R>(hw: Hw<R>, s: Sys<R>, n: nat): Sys<R>
    decreases n
  {
    if n == 0 then s else PlainRun(hw, PlainStep(hw, s), n - 1)
  }

  function CacheRun<R>(hw: Hw<R>, s: Sys<R>, dc: Cache, n: nat): (Sys<R>, Cache)
    decreases n
  {
    if n == 0 then (s, dc) else var (t, dc') := CacheStep(hw, s, dc); CacheRun(hw, t, dc', n - 1)
  }

  /** Any number of steps, self-modifying code and page-crossing instructions included, for a machine
      that reports what it writes. */
  lemma {:induction false} RunSame<R(!new)>(hw: Hw<R>, s: Sys<R>, dc: Cache, n: nat)
    requires Faithful(hw) && Good(hw, s, dc)
    ensures CacheRun(hw, s, dc, n).0 == PlainRun(hw, s, n)
      && Good(hw, CacheRun(hw, s, dc, n).0, CacheRun(hw, s, dc, n).1)
    decreases n
  {
    hide Faithful, Good, CacheStep, PlainStep;
    if n == 0 {
    } else {
      StepSame(hw, s, dc);
      var (t, dc') := CacheStep(hw, s, dc);
      RunSame(hw, t, dc', n - 1);
    }
  }

  // ---- the step as the emulator runs it ----

  class Stepper<R(!new)> {
    const hw: Hw<R>
    var s: Sys<R>
    var dc: Cache

    constructor (hw: Hw<R>, start: Sys<R>)
      requires WindowOk(start)
      ensures s == start && this.hw == hw && Good(hw, s, dc)
    {
      this.hw, s, dc := hw, start, map[];
    }

    /** decode, byte by byte. */
    method FetchInstruction(pc: nat) returns (ok: bool, bytes: seq<Byte>)
      requires Faithful(hw)
      modifies this
      ensures var d := Decode(hw, old(s), pc);
        ok == d.ok && s == d.sys && dc == Drop(old(dc), d.writes) && (ok ==> bytes == d.bytes)
    {
      hide Faithful, FetchAt;
      var o := FetchAt(hw, s, pc);
      s, dc := o.sys, Drop(dc, o.writes);
      if !o.ok {
        return false, [];
      }
      bytes := [o.byte];
      OpLen(hw, o.byte);
      var i, len := 1, hw.oplen(o.byte);
      ghost var t, dc1, all := s, dc, FetchMore(hw, s, pc + 1, len - 1);
      DropNone(dc);
      assert o.writes + [] == o.writes;
      ghost var writes: seq<Range> := [];
      while i < len
        invariant 1 <= i <= len && dc == Drop(dc1, writes) && bytes != [] && bytes[0] == o.byte
        invariant var rest := FetchMore(hw, s, pc + i, len - i);
          && all.ok == rest.ok && all.sys == rest.sys && all.writes == writes + rest.writes
          && (rest.ok ==> [o.byte] + all.bytes == bytes + rest.bytes)
      {
        var m := FetchAt(hw, s, pc + i);
        ghost var rest := FetchMore(hw, m.sys, pc + i + 1, len - i - 1);
        DropMore(dc1, writes, m.writes);
        assert writes + (m.writes + rest.writes) == writes + m.writes + rest.writes;
        s, dc := m.sys, Drop(dc, m.writes);
        writes := writes + m.writes;
        if !m.ok {
          DropMore(old(dc), o.writes, writes);
          return false, [];
        }
        assert bytes + ([m.byte] + rest.bytes) == bytes + [m.byte] + rest.bytes;
        bytes := bytes + [m.byte];
        i := i + 1;
      }
      assert writes + [] == writes && bytes + [] == bytes;
      DropMore(old(dc), o.writes, writes);
      return true, bytes;
    }

    /** step_one: the same machine as without the cache, and a cache that is still right. */
    method StepOne()
      requires Faithful(hw) && Good(hw, s, dc)
      modifies this
      ensures (s, dc) == CacheStep(hw, old(s), old(dc)) && s == PlainStep(hw, old(s)) && Good(hw, s, dc)
    {
      hide Faithful, Good, Decode, Drop, PlainStep;
      StepSame(hw, s, dc);
      var v := hw.events(s);
      s, dc := v.sys, Drop(dc, v.writes);
      if !v.ok {
        return;
      }
      var pc, off := s.pc, s.pc % PAGE;
      var bytes: seq<Byte> := [];
      if Cachable(s, pc) {
        bytes := Entry(dc, s.ppn, off);
      }
      if bytes == [] {
        var ok;
        ok, bytes := FetchInstruction(pc);
        if !ok {
          DropNone(dc);
          return;
        }
        if Cachable(v.sys, pc) && off + |bytes| <= PAGE {
          dc := Remember(dc, v.sys.ppn, off, bytes);
        }
      }
      var e := hw.exec(s.(pc := pc + |bytes|), bytes);
      s, dc := e.sys, Drop(dc, e.writes);
    }
  }

  lemma DropNone(dc: Cache)
    ensures Drop(dc, []) == dc
  {
  }

  lemma DropMore(dc: Cache, a: seq<Range>, b: seq<Range>)
    ensures Drop(Drop(dc, a), b) == Drop(dc, a + b)
  {
    var x, y := Drop(Drop(dc, a), b), Drop(dc, a + b);
    forall p | p in dc
      ensures p in x <==> p in y
    {
      assert forall i :: 0 <= i < |a| ==> (a + b)[i] == a[i];
      assert forall i :: 0 <= i < |b| ==> (a + b)[|a| + i] == b[i];
    }
  }
}
