/** Machine states that hold the locals of a function, and what single pieces of emitted code
    do to them. */
module Frames {
  import opened Words
  import opened Machine
  import opened CLang
  import opened CodeGen
  import opened Values

  // ---- code inside a program ----

  ghost predicate At(p: Program, base: nat, c: Code) {
    base + |c| <= |p| && p[base..base + |c|] == c
  }

  lemma AtSplit(p: Program, base: nat, a: Code, b: Code)
    requires At(p, base, a + b)
    ensures At(p, base, a) && At(p, base + |a|, b)
  {
    var c := a + b;
    assert a == c[..|a|] == p[base..base + |c|][..|a|] == p[base..base + |a|];
    assert b == c[|a|..] == p[base..base + |c|][|a|..] == p[base + |a|..base + |c|];
  }

  lemma AtThree(p: Program, base: nat, a: Code, b: Code, c: Code)
    requires At(p, base, a + (b + c))
    ensures At(p, base, a) && At(p, base + |a|, b) && At(p, base + |a| + |b|, c)
  {
    hide At;
    AtSplit(p, base, a, b + c);
    AtSplit(p, base + |a|, b, c);
  }

  lemma AtIndex(p: Program, base: nat, c: Code, i: nat)
    requires At(p, base, c) && i < |c|
    ensures base + i < |p| && p[base + i] == c[i]
  {
    assert p[base..base + |c|][i] == p[base + i];
  }

  /** No label is defined twice. */
  ghost predicate UniqueLabels(p: Program) {
    forall i, j :: 0 <= i < j < |p| && p[i].Label? ==> p[i] != p[j]
  }

  lemma FindUnique(p: Program, l: nat, i: nat)
    requires UniqueLabels(p) && i < |p| && p[i] == Label(l)
    ensures Find(p, l) == i
  {
  }

  // ---- the machine state that represents the locals ----

  ghost predicate Disjoint(lay: Layout) {
    forall a, b :: a in lay && b in lay && a != b ==> a + lay[a].Size() <= b || b + lay[b].Size() <= a
  }

  ghost predicate Slot(lay: Layout, env: Env, m: Cpu, off: int)
    requires off in lay && env.Keys == lay.Keys
  {
    var a := m.regs.r7 + off;
    && m.sp <= a
    && a + lay[off].Size() <= |m.mem|
    && Rd(m.mem, a, lay[off].Size()) == env[off] % Pow2(8 * lay[off].Size())
  }

  /** The frame at R7 holds the locals, above the stack pointer and inside RAM. */
  ghost predicate Models(lay: Layout, env: Env, m: Cpu) {
    && Typed(lay, env)
    && Disjoint(lay)
    && m.sp <= |m.mem| <= WORD_MOD
    && forall off :: off in lay ==> Slot(lay, env, m, off)
  }

  ghost predicate InSlot(lay: Layout, r7: Word, a: int) {
    exists off :: off in lay && r7 + off <= a < r7 + off + lay[off].Size()
  }

  /** Every register the code may not use, every byte above the stack pointer outside the locals, and
      every byte below low, is as before. */
  ghost predicate Keeps(low: nat, lay: Layout, m: Cpu, m': Cpu) {
    && m'.sp == m.sp
    && m'.regs.r3 == m.regs.r3 && m'.regs.r4 == m.regs.r4 && m'.regs.r5 == m.regs.r5
    && m'.regs.r6 == m.regs.r6 && m'.regs.r7 == m.regs.r7
    && |m'.mem| == |m.mem|
    && (forall a :: m.sp <= a < |m.mem| && !InSlot(lay, m.regs.r7, a) ==> m'.mem[a] == m.mem[a])
    && (forall a :: 0 <= a < low && a < |m.mem| ==> m'.mem[a] == m.mem[a])
  }

  lemma KeepsTrans(low: nat, lay: Layout, a: Cpu, b: Cpu, c: Cpu)
    requires Keeps(low, lay, a, b) && Keeps(low, lay, b, c)
    ensures Keeps(low, lay, a, c)
  {
  }

  /** Changing pc, flags, R0, R1 and R2 only. */
  ghost predicate Scratch(m: Cpu, m': Cpu) {
    && m'.sp == m.sp && m'.mem == m.mem
    && m'.regs == m.regs.(r0 := m'.regs.r0, r1 := m'.regs.r1, r2 := m'.regs.r2)
  }

  lemma ScratchKeeps(low: nat, lay: Layout, env: Env, m: Cpu, m': Cpu)
    requires Models(lay, env, m) && Scratch(m, m')
    ensures Models(lay, env, m') && Keeps(low, lay, m, m')
  {
    forall off | off in lay
      ensures Slot(lay, env, m', off)
    {
      assert Slot(lay, env, m, off);
    }
  }

  // ---- pushing, popping, loading and storing ----

  function Pushed(m: Cpu): Cpu
    requires 4 <= m.sp <= |m.mem|
  {
    Next(m).(sp := m.sp - 4, mem := Wr(m.mem, m.sp - 4, m.regs.r0, 4))
  }

  lemma PushModels(low: nat, lay: Layout, env: Env, m: Cpu)
    requires Models(lay, env, m) && low + 4 <= m.sp
    ensures Models(lay, env, Pushed(m))
    ensures Rd4(Pushed(m).mem, m.sp - 4) == m.regs.r0
    ensures forall a :: (m.sp <= a < |m.mem| || 0 <= a < low) ==> Pushed(m).mem[a] == m.mem[a]
  {
    hide Rd4, Rd, Disjoint;
    ReadBack4(m.mem, m.sp - 4, m.regs.r0);
    forall off | off in lay
      ensures Slot(lay, env, Pushed(m), off)
    {
      assert Slot(lay, env, m, off);
      SameRead(m.mem, Pushed(m).mem, m.regs.r7 + off, lay[off].Size());
    }
  }

  lemma PushR0(p: Program, a: Config, m: Cpu)
    requires Reaches(p, a, m, Push(R0)) && 4 <= m.sp <= |m.mem|
    ensures Runs(p, a, Running(Pushed(m)))
  {
    hide Runs, Wr;
    StepPush(p, a, m, R0);
  }

  function Popped(m: Cpu): Cpu
    requires m.sp + 4 <= |m.mem| && m.sp + 4 < WORD_MOD
  {
    m.(pc := m.pc + 2, sp := m.sp + 4, regs := m.regs.(r0 := Rd4(m.mem, m.sp), r1 := m.regs.r0))
  }

  /** The old R0 comes back, the operand just computed goes to R1. */
  lemma MoveAndPop(p: Program, a: Config, m: Cpu)
    requires Runs(p, a, Running(m)) && At(p, m.pc, [Move(R1, R0), Pop(R0)])
    requires m.sp + 4 <= |m.mem| && m.sp + 4 < WORD_MOD
    ensures Runs(p, a, Running(Popped(m)))
  {
    hide Runs, Rd4;
    var code := [Move(R1, R0), Pop(R0)];
    AtIndex(p, m.pc, code, 0);
    AtIndex(p, m.pc, code, 1);
    StepMove(p, a, m, R1, R0);
    var m1 := SetReg(m, R1, m.regs.r0).m;
    StepPop(p, a, m1, R0);
  }

  /** A word pushed before code that keeps the frame is still there after it. */
  lemma PushedStays(low: nat, lay: Layout, env: Env, m: Cpu, m1: Cpu, m2: Cpu, at: nat)
    requires Models(lay, env, m) && m1.regs.r7 == m.regs.r7 && m1.sp <= at && at + 4 <= m.sp
    requires |m1.mem| == |m.mem| && Keeps(low, lay, m1, m2)
    ensures Rd4(m2.mem, at) == Rd4(m1.mem, at)
  {
    forall a | at <= a < at + 4
      ensures m2.mem[a] == m1.mem[a]
    {
      assert !InSlot(lay, m.regs.r7, a) by {
        forall off | off in lay
          ensures !(m.regs.r7 + off <= a < m.regs.r7 + off + lay[off].Size())
        {
          assert Slot(lay, env, m, off);
        }
      }
    }
    SameRead(m1.mem, m2.mem, at, 4);
  }

  /** Popping back to the old stack pointer restores Models and Keeps. */
  lemma PopModels(low: nat, lay: Layout, env: Env, env': Env, m: Cpu, m1: Cpu, m2: Cpu, m3: Cpu)
    requires Models(lay, env, m) && Models(lay, env', m2) && Keeps(low, lay, m1, m2)
    requires m1.sp <= m.sp && |m1.mem| == |m.mem|
    requires m1.regs == m.regs.(r0 := m1.regs.r0, r1 := m1.regs.r1, r2 := m1.regs.r2)
    requires low <= m.sp && forall a :: (m.sp <= a < |m.mem| || 0 <= a < low) ==> m1.mem[a] == m.mem[a]
    requires m3.mem == m2.mem && m3.sp == m.sp
    requires m3.regs == m2.regs.(r0 := m3.regs.r0, r1 := m3.regs.r1, r2 := m3.regs.r2)
    ensures Models(lay, env', m3) && Keeps(low, lay, m, m3)
  {
    forall off | off in lay
      ensures Slot(lay, env', m3, off)
    {
      PopSlot(lay, env, env', m, m2, m3, off);
    }
    forall a | m.sp <= a < |m.mem| && !InSlot(lay, m.regs.r7, a)
      ensures m3.mem[a] == m.mem[a]
    {
      assert m2.mem[a] == m1.mem[a];
    }
  }

  lemma PopSlot(lay: Layout, env: Env, env': Env, m: Cpu, m2: Cpu, m3: Cpu, off: int)
    requires off in lay && env.Keys == lay.Keys && env'.Keys == lay.Keys
    requires Slot(lay, env, m, off) && Slot(lay, env', m2, off)
    requires m3.mem == m2.mem && m3.sp == m.sp && m3.regs.r7 == m2.regs.r7 == m.regs.r7
    ensures Slot(lay, env', m3, off)
  {
  }

  function Stored(m: Cpu, a: nat, t: Ty): Cpu
    requires a + t.Size() <= |m.mem|
  {
    Next(m).(mem := Wr(m.mem, a, m.regs.r0, t.Size()))
  }

  /** Storing a value of the local's type updates exactly that local. */
  lemma StoreModels(low: nat, lay: Layout, env: Env, m: Cpu, off: int, v: int)
    requires Models(lay, env, m) && low <= m.sp && off in lay && lay[off].Has(v) && m.regs.r0 == Repr(v)
    ensures m.regs.r7 + off >= 0 && m.regs.r7 + off + lay[off].Size() <= |m.mem|
    ensures var m' := Stored(m, m.regs.r7 + off, lay[off]);
      Models(lay, env[off := v], m') && Keeps(low, lay, m, m')
  {
    assert Slot(lay, env, m, off);
    var m' := Stored(m, m.regs.r7 + off, lay[off]);
    forall o | o in lay
      ensures Slot(lay, env[off := v], m', o)
    {
      assert Slot(lay, env, m, o);
      if o == off {
        StoreThis(lay, env, m, off, v);
      } else {
        StoreOther(lay, env, m, off, v, o);
      }
    }
    assert Typed(lay, env[off := v]);
    StoreKeeps(low, lay, env, m, off);
  }

  lemma StoreKeeps(low: nat, lay: Layout, env: Env, m: Cpu, off: int)
    requires low <= m.sp && off in lay && env.Keys == lay.Keys && Slot(lay, env, m, off)
    ensures Keeps(low, lay, m, Stored(m, m.regs.r7 + off, lay[off]))
  {
    forall b | m.sp <= b < |m.mem| && !InSlot(lay, m.regs.r7, b)
      ensures Stored(m, m.regs.r7 + off, lay[off]).mem[b] == m.mem[b]
    {
      assert off in lay && !(m.regs.r7 + off <= b < m.regs.r7 + off + lay[off].Size());
    }
  }

  lemma StoreThis(lay: Layout, env: Env, m: Cpu, off: int, v: int)
    requires off in lay && env.Keys == lay.Keys && Slot(lay, env, m, off) && m.regs.r0 == Repr(v)
    ensures Slot(lay, env[off := v], Stored(m, m.regs.r7 + off, lay[off]), off)
  {
    ReadBack(m.mem, m.regs.r7 + off, Repr(v), lay[off].Size());
    CardIsPow2(lay[off]);
    ModOfMod(lay[off], v);
  }

  lemma StoreOther(lay: Layout, env: Env, m: Cpu, off: int, v: int, o: int)
    requires off in lay && o in lay && o != off && env.Keys == lay.Keys && Disjoint(lay)
    requires Slot(lay, env, m, off) && Slot(lay, env, m, o)
    ensures Slot(lay, env[off := v], Stored(m, m.regs.r7 + off, lay[off]), o)
  {
    SameRead(m.mem, Stored(m, m.regs.r7 + off, lay[off]).mem, m.regs.r7 + o, lay[o].Size());
  }

  /** The effective address of a local does not wrap. */
  lemma SlotAddress(lay: Layout, env: Env, m: Cpu, off: int)
    requires Models(lay, env, m) && off in lay
    ensures 0 <= m.regs.r7 + off && m.regs.r7 + off + lay[off].Size() <= |m.mem|
    ensures Ea(m.regs.r7, off) == m.regs.r7 + off
  {
    assert Slot(lay, env, m, off);
    assert m.regs.r7 + off < WORD_MOD;
  }

  /** Loading a local through any register that holds its address. */
  lemma LoadLocal(p: Program, a: Config, lay: Layout, env: Env, m: Cpu, off: int, base: Reg, disp: int)
    requires Models(lay, env, m) && off in lay && Reaches(p, a, m, LoadFrom(lay[off], base, disp))
    requires Ea(m.regs.Get(base), disp) == m.regs.r7 + off
    ensures Runs(p, a, Running(Next(m).(regs := m.regs.(r0 := Repr(env[off])))))
  {
    hide Runs, Rd, Extend;
    assert Slot(lay, env, m, off);
    var t := lay[off];
    assert WidthOf(t).Size() == t.Size();
    LoadRepr(t, env[off], Rd(m.mem, m.regs.r7 + off, t.Size()));
    StepLoad(p, a, m, WidthOf(t), !t.uns && !t.CInt?, R0, base, disp);
  }

  /** The final store of an assignment, R1 holding the local's address. */
  lemma StoreLocal(low: nat, p: Program, a: Config, lay: Layout, env: Env, m: Cpu, off: int, v: int) returns (m': Cpu)
    requires Models(lay, env, m) && low <= m.sp && off in lay && lay[off].Has(v) && Reaches(p, a, m, StoreTo(lay[off]))
    requires m.regs.r0 == Repr(v) && m.regs.r1 == m.regs.r7 + off
    ensures Runs(p, a, Running(m'))
    ensures Models(lay, env[off := v], m') && Keeps(low, lay, m, m')
    ensures m'.regs == m.regs && m'.pc == m.pc + 1
  {
    hide Runs, Wr, Slot, Disjoint, InSlot;
    var t := lay[off];
    StoreModels(low, lay, env, m, off, v);
    m' := Stored(m, m.regs.r7 + off, t);
    assert WidthOf(t).Size() == t.Size();
    assert Ea(m.regs.r1, 0) == m.regs.r7 + off;
    StepStore(p, a, m, WidthOf(t), R1, 0, R0);
  }

  /** The code of convert. */
  lemma ConvertOk(p: Program, a: Config, from: Ty, to: Ty, m: Cpu, v: int) returns (m': Cpu)
    requires Runs(p, a, Running(m)) && At(p, m.pc, Convert(from, to)) && m.regs.r0 == Repr(v) && from.Has(v)
    ensures Runs(p, a, Running(m'))
    ensures m'.pc == m.pc + |Convert(from, to)|
    ensures m'.regs == m.regs.(r0 := Repr(to.Wrap(v))) && m'.sp == m.sp && m'.mem == m.mem
  {
    hide Runs, Bitwise, ShiftLeft, ShiftArith;
    var c := Convert(from, to);
    m' := m;
    if c == [] {
      ConvertNothing(from, to, v);
    } else if to.uns {
      AtIndex(p, m.pc, c, 0);
      ConvertMask(to, v);
      StepAndImm(p, a, m, R0, to.Card() - 1);
      m' := SetReg(m, R0, Repr(to.Wrap(v))).m;
    } else {
      m' := ConvertSigned(p, a, from, to, m, v);
    }
  }

  lemma ConvertSigned(p: Program, a: Config, from: Ty, to: Ty, m: Cpu, v: int) returns (m': Cpu)
    requires Runs(p, a, Running(m)) && At(p, m.pc, Convert(from, to)) && m.regs.r0 == Repr(v)
    requires Convert(from, to) != [] && !to.uns
    ensures Runs(p, a, Running(m'))
    ensures m'.pc == m.pc + 2
    ensures m'.regs == m.regs.(r0 := Repr(to.Wrap(v))) && m'.sp == m.sp && m'.mem == m.mem
  {
    hide Runs, ShiftLeft, ShiftArith;
    var c := Convert(from, to);
    var k := if to.CChar? then 24 else 16;
    ConvertShift(to, v);
    AtIndex(p, m.pc, c, 0);
    AtIndex(p, m.pc, c, 1);
    StepShlImm(p, a, m, R0, k);
    var f :| Runs(p, a, SetRegFlags(m, R0, ShiftLeft(m.regs.r0, k), f));
    var m1 := SetRegFlags(m, R0, ShiftLeft(m.regs.r0, k), f).m;
    StepSarImm(p, a, m1, R0, k);
    var g :| Runs(p, a, SetRegFlags(m1, R0, ShiftArith(m1.regs.r0, k), g));
    m' := SetRegFlags(m1, R0, ShiftArith(m1.regs.r0, k), g).m;
  }

  /** Conversion depends on the pattern only. */
  lemma WrapPattern(t: Ty, a: int, b: int)
    requires Repr(a) == Repr(b)
    ensures t.Wrap(a) == t.Wrap(b)
  {
    ModOfMod(t, a);
    ModOfMod(t, b);
  }

  /** convert(ty_int, t) on a register that holds the pattern of x. */
  lemma ConvertPattern(p: Program, a: Config, t: Ty, m: Cpu, x: int) returns (m': Cpu)
    requires Runs(p, a, Running(m)) && At(p, m.pc, Convert(CInt(false), t)) && m.regs.r0 == Repr(x)
    ensures Runs(p, a, Running(m'))
    ensures m'.pc == m.pc + |Convert(CInt(false), t)|
    ensures m'.regs == m.regs.(r0 := Repr(t.Wrap(x))) && m'.sp == m.sp && m'.mem == m.mem
  {
    hide Runs, Convert, At;
    var s := Signed(Repr(x));
    ReprSigned(Repr(x));
    WrapPattern(t, s, x);
    m' := ConvertOk(p, a, CInt(false), t, m, s);
  }
}
