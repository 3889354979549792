/** Exception delivery: fault, double fault, triple fault, and IRET. The memory system is any pair
    of load and store operations, each of which may trap; a trap inside an entry is an outcome. */
module Exceptions {
  import opened Words
  import Machine

  const WORD: nat := 0x1_0000_0000
  const VEC_BUS: nat := 5
  const VEC_DF: nat := 6
  const EXIT_TRIPLE: nat := 3

  /** Done: the value loaded (0 for a store) and the memory after it. Trap: vector, error code and
      faulting address of the page fault or bus error, and the memory it left. */
  datatype Access<M> = Done(value: nat, mem: M) | Trap(vec: nat, code: nat, faddr: nat, mem: M)

  /** Supervisor loads and stores of one word at a 32-bit address. */
  datatype Memory<!M> = Memory(load: (M, nat) -> Access<M>, store: (M, nat, nat) -> Access<M>)

  datatype Status = Going | Stopped(code: nat)

  /** flags are the four condition bits; depth counts the entries under way. */
  datatype Cpu<M> = Cpu(
    pc: nat, sp: nat, flags: nat, ints: bool, user: bool, ksp: nat, evt: nat, faddr: nat, cause: nat,
    depth: nat, instPc: nat, status: Status, mem: M)

  /** Entered: in the handler. Broken: a memory access trapped with this vector and code. */
  datatype Entry<M> = Entered(c: Cpu<M>) | Broken(c: Cpu<M>, vec: nat, code: nat)

  function Down(a: nat, n: nat): nat
    requires n <= WORD
  {
    (a + WORD - n) % WORD
  }

  function Bit(b: bool): nat {
    if b then 1 else 0
  }

  /** cpu_get_flags. */
  function PackFlags<M>(c: Cpu<M>): nat {
    c.flags % 16 + 16 * Bit(c.ints) + 32 * Bit(c.user)
  }

  /** Where the frame starts: the kernel stack, below the saved stack pointer, when coming from user mode. */
  function FrameTop<M>(c: Cpu<M>): nat {
    if c.user then Down(c.ksp, 4) else c.sp
  }

  /** The words an entry stores: the old stack pointer if coming from user mode, flags, return address. */
  function SaveFrame<M>(mm: Memory<M>, c: Cpu<M>, savepc: nat): Access<M> {
    var top := FrameTop(c);
    var a := if c.user then mm.store(c.mem, top, c.sp) else Done(0, c.mem);
    if a.Trap? then a
    else
      var b := mm.store(a.mem, Down(top, 4), PackFlags(c));
      if b.Trap? then b else mm.store(b.mem, Down(top, 8), savepc)
  }

  /** enter. */
  function Enter<M>(mm: Memory<M>, c: Cpu<M>, vec: nat, savepc: nat, code: nat): Entry<M> {
    var s := SaveFrame(mm, c, savepc);
    if s.Trap? then Broken(c.(mem := s.mem, faddr := s.faddr), s.vec, s.code)
    else
      var h := mm.load(s.mem, (c.evt + 4 * vec) % WORD);
      if h.Trap? then Broken(c.(mem := h.mem, faddr := h.faddr), h.vec, h.code)
      else
        Entered(c.(mem := h.mem, sp := Down(FrameTop(c), 8), cause := vec % 256 + 256 * (code % 256),
                   user := false, ints := false, pc := h.value))
  }

  /** cpu_fault. */
  function Fault<M>(mm: Memory<M>, c: Cpu<M>, vec: nat, code: nat): Cpu<M>
    decreases if c.depth <= 2 then 2 - c.depth else 0
  {
    var d := c.(pc := c.instPc);
    if c.depth == 0 then
      match Enter(mm, d.(depth := 1), vec, c.instPc, code)
      case Entered(e) => e.(depth := 0)
      case Broken(e, v, k) => Fault(mm, e, v, k)
    else if c.depth == 1 then
      match Enter(mm, d.(depth := 2), VEC_DF, c.instPc, 0)
      case Entered(e) => e.(depth := 0)
      case Broken(e, v, k) => Fault(mm, e, v, k)
    else d.(status := Stopped(EXIT_TRIPLE), depth := 0)
  }

  /** cpu_deliver. */
  function Deliver<M>(mm: Memory<M>, c: Cpu<M>, vec: nat, savepc: nat, code: nat): Cpu<M> {
    if c.depth != 0 then Fault(mm, c, vec, code)
    else
      match Enter(mm, c.(depth := 1), vec, savepc, code)
      case Entered(e) => e.(depth := 0)
      case Broken(e, v, k) => Fault(mm, e, v, k)
  }

  /** How many entries cpu_fault starts. */
  function Entries<M>(mm: Memory<M>, c: Cpu<M>, vec: nat, code: nat): nat
    decreases if c.depth <= 2 then 2 - c.depth else 0
  {
    var d := c.(pc := c.instPc);
    if c.depth > 1 then 0
    else
      match Enter(mm, d.(depth := c.depth + 1), if c.depth == 0 then vec else VEC_DF, c.instPc,
                  if c.depth == 0 then code else 0)
      case Entered(_) => 1
      case Broken(e, v, k) => 1 + Entries(mm, e, v, k)
  }

  // ---- a failing entry changes no register ----

  lemma BrokenKeeps<M>(mm: Memory<M>, c: Cpu<M>, vec: nat, savepc: nat, code: nat)
    ensures var r := Enter(mm, c, vec, savepc, code); r.Broken? ==> r.c == c.(mem := r.c.mem, faddr := r.c.faddr)
  {
  }

  // ---- delivery ends ----

  /** In a handler: supervisor mode, interrupts off, the condition bits as they were. */
  ghost predicate InHandler<M>(mm: Memory<M>, c: Cpu<M>, r: Cpu<M>, vec: nat, code: nat) {
    && r.depth == 0 && r.status == c.status && !r.user && !r.ints && r.flags == c.flags
    && r.cause == vec % 256 + 256 * (code % 256)
    && r.sp == Down(FrameTop(c), 8) && r.evt == c.evt && r.ksp == c.ksp && r.instPc == c.instPc
  }

  /** The frame in memory m1 was stored with the registers c had, starting from memory m0; then the
      handler's address was loaded. */
  ghost predicate Framed<M>(mm: Memory<M>, c: Cpu<M>, m0: M, savepc: nat, vec: nat, r: Cpu<M>) {
    var s := SaveFrame(mm, c.(mem := m0), savepc);
    s.Done? && mm.load(s.mem, (c.evt + 4 * vec) % WORD) == Done(r.pc, r.mem)
  }

  /** Stopped by a triple fault, at the instruction, with no other register changed but the fault address. */
  ghost predicate Tripled<M>(c: Cpu<M>, r: Cpu<M>) {
    r == c.(pc := c.instPc, mem := r.mem, faddr := r.faddr, status := Stopped(EXIT_TRIPLE), depth := 0)
  }

  /** Every delivery ends with depth 0 after at most two entries: in the vector's handler, in the
      double-fault handler, or stopped by a triple fault. Whichever handler it is, its frame holds
      the flags and stack pointer of the interrupted program; the first starts from the memory of
      the fault, the second from the memory the broken entry left. */
  lemma FaultEnds<M>(mm: Memory<M>, c: Cpu<M>, vec: nat, code: nat)
    requires c.depth <= 2
    ensures var r, first := Fault(mm, c, vec, code), Enter(mm, c, vec, c.instPc, code);
      && r.depth == 0 && Entries(mm, c, vec, code) + c.depth <= 2
      && ((InHandler(mm, c, r, vec, code) && c.depth == 0 && Framed(mm, c, c.mem, c.instPc, vec, r))
          || (InHandler(mm, c, r, VEC_DF, 0) && c.depth == 0 && first.Broken?
              && Framed(mm, c, first.c.mem, c.instPc, VEC_DF, r))
          || (InHandler(mm, c, r, VEC_DF, 0) && c.depth == 1 && Framed(mm, c, c.mem, c.instPc, VEC_DF, r))
          || Tripled(c, r))
  {
    hide Enter, Framed;
    var d := c.(pc := c.instPc, depth := 1);
    if c.depth == 0 {
      BrokenKeeps(mm, d, vec, c.instPc, code);
      SameEntry(mm, c, d, vec, c.instPc, code);
      var e := Enter(mm, d, vec, c.instPc, code);
      if e.Broken? {
        DoubleEnds(mm, e.c, e.vec, e.code);
        FramedSame(mm, c, e.c, e.c.mem, c.instPc, VEC_DF, Fault(mm, e.c, e.vec, e.code));
      } else {
        EnteredIs(mm, c, d, vec, c.instPc, code);
      }
    } else if c.depth == 1 {
      DoubleEnds(mm, c, vec, code);
    }
  }

  lemma EnteredIs<M>(mm: Memory<M>, c: Cpu<M>, d: Cpu<M>, vec: nat, savepc: nat, code: nat)
    requires d == c.(pc := d.pc, depth := d.depth) && Enter(mm, d, vec, savepc, code).Entered?
    ensures var r := Enter(mm, d, vec, savepc, code).c.(depth := 0);
      InHandler(mm, c, r, vec, code) && Framed(mm, c, c.mem, savepc, vec, r)
  {
    SameFrame(mm, c, d, c.mem, savepc);
  }

  lemma FramedSame<M>(mm: Memory<M>, c: Cpu<M>, d: Cpu<M>, m: M, savepc: nat, vec: nat, r: Cpu<M>)
    requires d.sp == c.sp && d.flags == c.flags && d.ints == c.ints && d.user == c.user && d.ksp == c.ksp
      && d.evt == c.evt
    ensures Framed(mm, d, m, savepc, vec, r) == Framed(mm, c, m, savepc, vec, r)
  {
    SameFrame(mm, c, d, m, savepc);
  }

  /** An entry does not look at the program counter, the depth or the fault address. */
  lemma SameEntry<M>(mm: Memory<M>, c: Cpu<M>, d: Cpu<M>, vec: nat, savepc: nat, code: nat)
    requires d == c.(pc := d.pc, depth := d.depth)
    ensures var e, f := Enter(mm, c, vec, savepc, code), Enter(mm, d, vec, savepc, code);
      (e.Broken? <==> f.Broken?) && e.c.mem == f.c.mem
  {
    SameFrame(mm, c, d, c.mem, savepc);
    assert c.(mem := c.mem) == c;
  }

  lemma DoubleEnds<M>(mm: Memory<M>, c: Cpu<M>, vec: nat, code: nat)
    requires c.depth == 1
    ensures var r := Fault(mm, c, vec, code);
      && r.depth == 0 && Entries(mm, c, vec, code) == 1
      && ((InHandler(mm, c, r, VEC_DF, 0) && Framed(mm, c, c.mem, c.instPc, VEC_DF, r)) || Tripled(c, r))
  {
    var m0 := c.mem;
    var d := c.(pc := c.instPc, depth := 2);
    BrokenKeeps(mm, d, VEC_DF, c.instPc, 0);
    SameFrame(mm, c, d, m0, c.instPc);
    var e := Enter(mm, d, VEC_DF, c.instPc, 0);
    if e.Broken? {
      assert e.c.depth == 2;
      assert Fault(mm, e.c, e.vec, e.code) == e.c.(pc := e.c.instPc, status := Stopped(EXIT_TRIPLE), depth := 0);
    }
  }

  /** The frame depends on the registers only. */
  lemma SameFrame<M>(mm: Memory<M>, c: Cpu<M>, d: Cpu<M>, m: M, savepc: nat)
    requires d.sp == c.sp && d.flags == c.flags && d.ints == c.ints && d.user == c.user && d.ksp == c.ksp
    ensures SaveFrame(mm, d.(mem := m), savepc) == SaveFrame(mm, c.(mem := m), savepc)
    ensures d.mem == m ==> SaveFrame(mm, d, savepc) == SaveFrame(mm, c.(mem := m), savepc)
  {
  }

  /** cpu_deliver, for interrupts and system calls: the same, with the caller's return address. */
  lemma DeliverEnds<M>(mm: Memory<M>, c: Cpu<M>, vec: nat, savepc: nat, code: nat)
    requires c.depth == 0
    ensures var r, first := Deliver(mm, c, vec, savepc, code), Enter(mm, c, vec, savepc, code);
      && r.depth == 0
      && ((InHandler(mm, c, r, vec, code) && Framed(mm, c, c.mem, savepc, vec, r))
          || (InHandler(mm, c, r, VEC_DF, 0) && first.Broken? && Framed(mm, c, first.c.mem, c.instPc, VEC_DF, r))
          || Tripled(c, r))
  {
    hide Enter, Framed;
    var d := c.(depth := 1);
    BrokenKeeps(mm, d, vec, savepc, code);
    SameEntry(mm, c, d, vec, savepc, code);
    var e := Enter(mm, d, vec, savepc, code);
    if e.Broken? {
      DoubleEnds(mm, e.c, e.vec, e.code);
      FramedSame(mm, c, e.c, e.c.mem, c.instPc, VEC_DF, Fault(mm, e.c, e.vec, e.code));
    } else {
      EnteredIs(mm, c, d, vec, savepc, code);
    }
  }

  // ---- IRET undoes an entry ----

  /** ext_iret; Broken leaves the registers alone. */
  function Iret<M>(mm: Memory<M>, c: Cpu<M>): Entry<M> {
    var a := mm.load(c.mem, c.sp);
    if a.Trap? then Broken(c.(mem := a.mem, faddr := a.faddr), a.vec, a.code)
    else
      var b := mm.load(a.mem, (c.sp + 4) % WORD);
      if b.Trap? then Broken(c.(mem := b.mem, faddr := b.faddr), b.vec, b.code)
      else
        var sp := (c.sp + 8) % WORD;
        var back := c.(pc := a.value, flags := b.value % 16, ints := b.value / 16 % 2 == 1,
                        user := b.value / 32 % 2 == 1);
        if b.value / 32 % 2 == 0 then Entered(back.(sp := sp, mem := b.mem))
        else
          var d := mm.load(b.mem, sp);
          if d.Trap? then Broken(c.(mem := d.mem, faddr := d.faddr), d.vec, d.code)
          else Entered(back.(sp := d.value, mem := d.mem))
  }

  /** The words of the frame an entry from c stores. */
  function FrameWords<M>(c: Cpu<M>): set<nat> {
    var top := FrameTop(c);
    {Down(top, 4), Down(top, 8)} + if c.user then {top} else {}
  }

  /** In the memories that satisfy ok these words are plain RAM, seen through peek: a store changes its
      word and no other of them, a load of one returns it, no load (whatever it marks elsewhere)
      changes one, and ok is kept. */
  ghost predicate PlainOn<M(!new)>(mm: Memory<M>, words: set<nat>, peek: (M, nat) -> nat, ok: M -> bool) {
    && (forall m, a, v: nat :: ok(m) && a in words && v < WORD && mm.store(m, a, v).Done? ==>
          ok(mm.store(m, a, v).mem)
          && forall b :: b in words ==> peek(mm.store(m, a, v).mem, b) == if b == a then v else peek(m, b))
    && (forall m, a: nat :: ok(m) && a < WORD && mm.load(m, a).Done? ==>
          ok(mm.load(m, a).mem) && forall b :: b in words ==> peek(mm.load(m, a).mem, b) == peek(m, b))
    && (forall m, a: nat :: ok(m) && a < WORD && a in words && mm.load(m, a).Done? ==>
      mm.load(m, a).value == peek(m, a))
  }

  lemma DownUp(a: nat)
    requires a < WORD
    ensures (Down(a, 8) + 4) % WORD == Down(a, 4) && (Down(a, 8) + 8) % WORD == a
    ensures Down(a, 4) != a && Down(a, 8) != a && Down(a, 4) != Down(a, 8) && Down(a, 4) < WORD
  {
    DownIs(a, 4);
    DownIs(a, 8);
    Reduce(Down(a, 8) + 4);
    Reduce(Down(a, 8) + 8);
  }

  lemma DownIs(a: nat, n: nat)
    requires a < WORD && n <= WORD
    ensures Down(a, n) == if n <= a then a - n else a + WORD - n
  {
    Reduce(a + WORD - n);
  }

  lemma Reduce(a: nat)
    requires a < 2 * WORD
    ensures a % WORD == if a < WORD then a else a - WORD
  {
  }

  lemma Unpack<M>(c: Cpu<M>)
    requires c.flags < 16
    ensures var f := PackFlags(c); f % 16 == c.flags && (f / 16 % 2 == 1) == c.ints && (f / 32 % 2 == 1) == c.user
    ensures PackFlags(c) / 32 % 2 == Bit(c.user)
  {
  }

  /** What the frame holds after an entry. */
  lemma EnterFrame<M(!new)>(mm: Memory<M>, peek: (M, nat) -> nat, ok: M -> bool, c: Cpu<M>, vec: nat, savepc: nat,
        code: nat)
    requires PlainOn(mm, FrameWords(c), peek, ok) && ok(c.mem) && c.sp < WORD && c.ksp < WORD && savepc < WORD
    requires Enter(mm, c, vec, savepc, code).Entered?
    ensures var m := Enter(mm, c, vec, savepc, code).c.mem; var top := FrameTop(c);
      && ok(m) && peek(m, Down(top, 8)) == savepc && peek(m, Down(top, 4)) == PackFlags(c)
        && (c.user ==> peek(m, top) == c.sp)
  {
    var top := FrameTop(c);
    if c.user {
      DownIs(c.ksp, 4);
    }
    DownUp(top);
    PackSmall(c);
    hide PackFlags, Down;
  }

  lemma PackSmall<M>(c: Cpu<M>)
    ensures PackFlags(c) < 64
  {
  }

  /** A handler that leaves its stack pointer and its frame as it found them returns exactly to the
      interrupted program. */
  lemma IretUndoes<M(!new)>(mm: Memory<M>, peek: (M, nat) -> nat, ok: M -> bool,
                            c: Cpu<M>, vec: nat, savepc: nat, code: nat, h: Cpu<M>)
    requires PlainOn(mm, FrameWords(c), peek, ok) && ok(c.mem) && ok(h.mem)
    requires c.sp < WORD && c.ksp < WORD && savepc < WORD && c.flags < 16
    requires Enter(mm, c, vec, savepc, code).Entered?
    requires var e := Enter(mm, c, vec, savepc, code).c;
      h.sp == e.sp && forall a :: a in FrameWords(c) ==> peek(h.mem, a) == peek(e.mem, a)
    ensures var r := Iret(mm, h);
      r.Entered? ==> r.c == h.(pc := savepc, flags := c.flags, ints := c.ints, user := c.user, sp := c.sp,
                              mem := r.c.mem)
  {
    var top := FrameTop(c);
    if c.user {
      DownIs(c.ksp, 4);
    }
    DownUp(top);
    EnterFrame(mm, peek, ok, c, vec, savepc, code);
    Unpack(c);
    hide PackFlags, Down;
  }

  // ---- with paging off ----

  predicate InRam(m: seq<Byte>, a: nat) {
    a + 4 <= |m|
  }

  /** The memory system with paging off: RAM, and bus errors outside it. */
  function FlatRam(): Memory<seq<Byte>> {
    Memory((m: seq<Byte>, a: nat) => if InRam(m, a) then Done(Machine.Rd4(m, a), m) else Trap(VEC_BUS, 0, a, m),
           (m: seq<Byte>, a: nat, v: nat) =>
             if InRam(m, a) then Done(0, Machine.Wr(m, a, v % WORD, 4)) else Trap(VEC_BUS, 0, a, m))
  }

  function FlatPeek(m: seq<Byte>, a: nat): nat {
    if InRam(m, a) then Machine.Rd4(m, a) else 0
  }

  /** Words that do not overlap are plain RAM. */
  lemma FlatPlain(words: set<nat>)
    requires forall a, b :: a in words && b in words && a != b ==> a + 4 <= b || b + 4 <= a
    ensures PlainOn(FlatRam(), words, FlatPeek, m => true)
  {
    hide Machine.Wr, Machine.Rd, Machine.Rd4;
    forall m: seq<Byte>, a, v: nat | a in words && v < WORD && FlatRam().store(m, a, v).Done?
      ensures forall b :: b in words ==>
        FlatPeek(FlatRam().store(m, a, v).mem, b) == if b == a then v else FlatPeek(m, b)
    {
      forall b | b in words
        ensures FlatPeek(FlatRam().store(m, a, v).mem, b) == if b == a then v else FlatPeek(m, b)
      {
        FlatStore(m, a, v, b);
      }
    }
  }

  lemma FlatStore(m: seq<Byte>, a: nat, v: nat, b: nat)
    requires v < WORD && InRam(m, a) && (a == b || a + 4 <= b || b + 4 <= a)
    ensures FlatPeek(Machine.Wr(m, a, v, 4), b) == if b == a then v else FlatPeek(m, b)
  {
    hide Machine.Wr, Machine.Rd;
    Machine.ReadBack4(m, a, v);
    if b != a && InRam(m, b) {
      Machine.SameRead(m, Machine.Wr(m, a, v, 4), b, 4);
    }
  }

  /** With paging off and the frame and the vector's word in RAM, entering and returning at once
      restores every register but the cause, and the stack the program uses. */
  lemma FlatRoundTrip(c: Cpu<seq<Byte>>, vec: nat, savepc: nat, code: nat)
    requires c.sp < WORD && c.ksp < WORD && savepc < WORD && c.flags < 16
    requires 12 <= (if c.user then c.ksp else c.sp + 4) && InRam(c.mem, FrameTop(c) - 4)
      && (c.user ==> InRam(c.mem, FrameTop(c)))
    requires InRam(c.mem, (c.evt + 4 * vec) % WORD)
    ensures var e := Enter(FlatRam(), c, vec, savepc, code);
      && e.Entered?
      && Iret(FlatRam(), e.c)
         == Entered(c.(pc := savepc, cause := vec % 256 + 256 * (code % 256), mem := e.c.mem))
  {
    hide Enter, Iret, PlainOn, FlatRam, PackFlags, Machine.Rd4;
    Unpack(c);
    FlatEnter(c, vec, savepc, code);
    FlatFrame(c);
    FlatPlain(FrameWords(c));
    var e := Enter(FlatRam(), c, vec, savepc, code);
    IretUndoes(FlatRam(), FlatPeek, m => true, c, vec, savepc, code, e.c);
    EnterFrame(FlatRam(), FlatPeek, m => true, c, vec, savepc, code);
    FlatIret(c, e.c);
    EnterKeeps(FlatRam(), c, vec, savepc, code);
    IretKeeps(e.c);
  }

  lemma EnterKeeps<M>(mm: Memory<M>, c: Cpu<M>, vec: nat, savepc: nat, code: nat)
    ensures var e := Enter(mm, c, vec, savepc, code);
      e.Entered? ==> e.c == c.(mem := e.c.mem, sp := e.c.sp, cause := vec % 256 + 256 * (code % 256),
                              user := false, ints := false, pc := e.c.pc)
  {
  }

  lemma IretKeeps(c: Cpu<seq<Byte>>)
    ensures var r := Iret(FlatRam(), c); r.Entered? ==> r.c.mem == c.mem
  {
    hide Machine.Rd4, Machine.Wr;
  }

  /** The frame's words do not overlap, and lie below the top. */
  lemma FlatFrame(c: Cpu<seq<Byte>>)
    requires c.sp < WORD && c.ksp < WORD && 12 <= (if c.user then c.ksp else c.sp + 4)
    ensures var top := FrameTop(c); top >= 8 && top < WORD && Down(top, 4) == top - 4 && Down(top, 8) == top - 8
    ensures forall a, b :: a in FrameWords(c) && b in FrameWords(c) && a != b ==> a + 4 <= b || b + 4 <= a
  {
    if c.user {
      DownIs(c.ksp, 4);
    }
    DownIs(FrameTop(c), 4);
    DownIs(FrameTop(c), 8);
  }

  lemma FlatEnter(c: Cpu<seq<Byte>>, vec: nat, savepc: nat, code: nat)
    requires c.sp < WORD && c.ksp < WORD && 12 <= (if c.user then c.ksp else c.sp + 4)
    requires FrameTop(c) >= 4 && InRam(c.mem, FrameTop(c) - 4) && (c.user ==> InRam(c.mem, FrameTop(c)))
    requires InRam(c.mem, (c.evt + 4 * vec) % WORD)
    ensures var e := Enter(FlatRam(), c, vec, savepc, code);
      e.Entered? && |e.c.mem| == |c.mem| && e.c.sp == FrameTop(c) - 8 && FrameTop(c) < WORD
  {
    hide Machine.Rd4, Machine.Wr, Machine.Rd, PackFlags;
    FlatFrame(c);
  }

  lemma FlatIret(c: Cpu<seq<Byte>>, e: Cpu<seq<Byte>>)
    requires c.sp < WORD && c.ksp < WORD && 12 <= (if c.user then c.ksp else c.sp + 4)
    requires FrameTop(c) >= 8 && e.sp == FrameTop(c) - 8 && FrameTop(c) < WORD
    requires InRam(e.mem, FrameTop(c) - 4) && (c.user ==> InRam(e.mem, FrameTop(c)))
    requires !c.user ==> Machine.Rd4(e.mem, FrameTop(c) - 4) / 32 % 2 == 0
    ensures Iret(FlatRam(), e).Entered?
  {
    hide Machine.Rd4, Machine.Wr, Machine.Rd;
  }

  // ---- the registers as the processor updates them ----

  lemma FaultStatus<M>(mm: Memory<M>, c: Cpu<M>, vec: nat, code: nat)
    requires c.depth <= 2
    ensures var r := Fault(mm, c, vec, code);
      r.depth == 0 && (r.status == Stopped(EXIT_TRIPLE) || (r.status == c.status && !r.user && !r.ints))
  {
    hide Fault, Framed;
    FaultEnds(mm, c, vec, code);
  }

  /** What became of a sequence of memory accesses: a trap jumps out of it. */
  datatype Jump = Through | Trapped(vec: nat, code: nat)

  class Core<M> {
    const mm: Memory<M>
    var pc: nat
    var sp: nat
    var flags: nat
    var ints: bool
    var user: bool
    var ksp: nat
    var evt: nat
    var faddr: nat
    var cause: nat
    var depth: nat
    var instPc: nat
    var status: Status
    var mem: M

    function Abs(): Cpu<M>
      reads this
    {
      Cpu(pc, sp, flags, ints, user, ksp, evt, faddr, cause, depth, instPc, status, mem)
    }

    constructor (mm: Memory<M>, c: Cpu<M>)
      ensures Abs() == c && this.mm == mm
    {
      this.mm := mm;
      pc, sp, flags, ints, user, ksp, evt := c.pc, c.sp, c.flags, c.ints, c.user, c.ksp, c.evt;
      faddr, cause, depth, instPc, status, mem := c.faddr, c.cause, c.depth, c.instPc, c.status, c.mem;
    }

    method Store(a: nat, v: nat) returns (j: Jump)
      modifies this
      ensures var r := mm.store(old(mem), a, v);
        && mem == r.mem && (j.Through? <==> r.Done?)
        && (r.Trap? ==> j == Trapped(r.vec, r.code) && faddr == r.faddr)
        && Abs() == old(Abs()).(mem := mem, faddr := if r.Trap? then r.faddr else old(faddr))
    {
      var r := mm.store(mem, a, v);
      mem := r.mem;
      if r.Trap? {
        faddr := r.faddr;
        return Trapped(r.vec, r.code);
      }
      return Through;
    }

    /** The stores of enter. */
    method PushFrame(savepc: nat) returns (j: Jump, top: nat)
      modifies this
      ensures top == FrameTop(old(Abs()))
      ensures var r := SaveFrame(mm, old(Abs()), savepc);
        && (j.Through? <==> r.Done?) && (r.Trap? ==> j == Trapped(r.vec, r.code))
        && Abs() == old(Abs()).(mem := r.mem, faddr := if r.Trap? then r.faddr else old(faddr))
    {
      hide Down, PackFlags;
      var of := PackFlags(Abs());
      top := sp;
      if user {
        top := Down(ksp, 4);
        j := Store(top, sp);
        if j.Trapped? {
          return;
        }
      }
      j := Store(Down(top, 4), of);
      if j.Trapped? {
        return;
      }
      j := Store(Down(top, 8), savepc);
    }

    /** enter: the stores and the load come first, so a trap leaves the registers alone. */
    method EnterVector(vec: nat, savepc: nat, code: nat) returns (j: Jump)
      modifies this
      ensures Enter(mm, old(Abs()), vec, savepc, code) ==
        if j.Through? then Entered(Abs()) else Broken(Abs(), j.vec, j.code)
    {
      hide Down, PackFlags, SaveFrame;
      var top;
      j, top := PushFrame(savepc);
      if j.Trapped? {
        return;
      }
      var h := mm.load(mem, (evt + 4 * vec) % WORD);
      mem := h.mem;
      if h.Trap? {
        faddr := h.faddr;
        return Trapped(h.vec, h.code);
      }
      sp, cause, user, ints, pc := Down(top, 8), vec % 256 + 256 * (code % 256), false, false, h.value;
    }

    /** cpu_fault: ends in a handler or stopped, with depth 0. */
    method TakeFault(vec: nat, code: nat)
      modifies this
      ensures Abs() == Fault(mm, old(Abs()), vec, code)
      ensures old(depth) <= 2 ==>
        depth == 0 && (status == Stopped(EXIT_TRIPLE) || (status == old(status) && !user && !ints))
      decreases if depth <= 2 then 2 - depth else 0
    {
      hide Enter;
      if depth <= 2 {
        FaultStatus(mm, Abs(), vec, code);
      }
      pc := instPc;
      if depth > 1 {
        status, depth := Stopped(EXIT_TRIPLE), 0;
        return;
      }
      var first := depth == 0;
      depth := depth + 1;
      ghost var c := Abs();
      BrokenKeeps(mm, c, if first then vec else VEC_DF, instPc, if first then code else 0);
      var j := EnterVector(if first then vec else VEC_DF, instPc, if first then code else 0);
      if j.Trapped? {
        TakeFault(j.vec, j.code);
      } else {
        depth := 0;
      }
    }

    /** cpu_deliver. */
    method DeliverVector(vec: nat, savepc: nat, code: nat)
      modifies this
      ensures Abs() == Deliver(mm, old(Abs()), vec, savepc, code)
    {
      hide Enter, Fault;
      if depth != 0 {
        TakeFault(vec, code);
        return;
      }
      depth := 1;
      var j := EnterVector(vec, savepc, code);
      if j.Trapped? {
        TakeFault(j.vec, j.code);
      } else {
        depth := 0;
      }
    }
  }
}
