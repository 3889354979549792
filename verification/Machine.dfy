/** The part of the emulated CPU that compiled code runs on: registers, the ZCSV flags,
    byte-addressed RAM and the 32-bit instructions the compiler emits.  Branch targets are
    labels; a label occupies a place in the instruction sequence and does nothing. */
module Machine {
  import opened Words

  const VEC_DIV := 0
  const VEC_BUS := 5

  datatype Reg = R0 | R1 | R2 | R3 | R4 | R5 | R6 | R7

  datatype Regs = Regs(r0: Word, r1: Word, r2: Word, r3: Word, r4: Word, r5: Word, r6: Word, r7: Word) {
    function Get(r: Reg): Word {
      match r
      case R0 => r0
      case R1 => r1
      case R2 => r2
      case R3 => r3
      case R4 => r4
      case R5 => r5
      case R6 => r6
      case R7 => r7
    }

    function Set(r: Reg, v: Word): Regs {
      match r
      case R0 => this.(r0 := v)
      case R1 => this.(r1 := v)
      case R2 => this.(r2 := v)
      case R3 => this.(r3 := v)
      case R4 => this.(r4 := v)
      case R5 => this.(r5 := v)
      case R6 => this.(r6 := v)
      case R7 => this.(r7 := v)
    }
  }

  datatype Flags = Flags(z: bool, c: bool, s: bool, v: bool)

  datatype Cpu = Cpu(pc: nat, regs: Regs, sp: Word, flags: Flags, mem: seq<Byte>)

  datatype AluOp = Add | Sub | Imul | UDiv | IDiv | UMod | IMod | And | Or | Xor | Shl | Shr | Sar

  datatype Cond = Eq | Ne | Lt | Ge | Le | Gt | Lo | Hs | Ls | Hi

  datatype Width = W1 | W2 | W4 {
    function Size(): nat {
      match this
      case W1 => 1
      case W2 => 2
      case W4 => 4
    }
  }

  datatype Instr =
    | Label(id: nat)
    | LoadImm(d: Reg, imm: Word)
    | Move(d: Reg, a: Reg)
    | Alu(op: AluOp, d: Reg, b: Reg)
    | AddImm(d: Reg, imm: Word)
    | SubImm(d: Reg, imm: Word)
    | AndImm(d: Reg, imm: Word)
    | XorImm(d: Reg, imm: Word)
    | ShlImm(d: Reg, imm: Word)
    | SarImm(d: Reg, imm: Word)
    | Neg(d: Reg)
    | Cmp(a: Reg, b: Reg)
    | CmpImm(a: Reg, imm: Word)
    | Test(a: Reg, b: Reg)
    | Load(w: Width, sx: bool, d: Reg, base: Reg, off: int)
    | Store(w: Width, base: Reg, off: int, src: Reg)
    | Lea(d: Reg, base: Reg, off: int)
    | Push(src: Reg)
    | Pop(d: Reg)
    | MovSp(d: Reg)
    | SetSp(src: Reg)
    | AddSp(k: int)
    | Jump(target: nat)
    | Branch(cond: Cond, target: nat)
    | Ret

  type Program = seq<Instr>

  /** A run is still going, has raised an exception, or has left the program. */
  datatype Config = Running(m: Cpu) | Trapped(vec: nat) | Left(m: Cpu)

  // ---- memory ----

  /** Little-endian value of n bytes at a. */
  function Rd(mem: seq<Byte>, a: nat, n: nat): (v: nat)
    requires a + n <= |mem|
    ensures v < Pow2(8 * n)
    decreases n
  {
    if n == 0 then 0 else
      Pow2Byte(n);
      mem[a] + 256 * Rd(mem, a + 1, n - 1)
  }

  function Rd4(mem: seq<Byte>, a: nat): Word
    requires a + 4 <= |mem|
  {
    Pow2Of32();
    Rd(mem, a, 4)
  }

  lemma Pow2Byte(n: nat)
    requires n > 0
    ensures Pow2(8 * n) == 256 * Pow2(8 * (n - 1))
  {
    Pow2Plus8(8 * (n - 1));
  }

  /** The memory after storing the low n bytes of v at a. */
  function Wr(mem: seq<Byte>, a: nat, v: nat, n: nat): (r: seq<Byte>)
    requires a + n <= |mem|
    ensures |r| == |mem|
    ensures forall i :: 0 <= i < |mem| && !(a <= i < a + n) ==> r[i] == mem[i]
    decreases n
  {
    if n == 0 then mem else Wr(mem[a := v % 256], a + 1, v / 256, n - 1)
  }

  lemma {:induction false} ReadBack(mem: seq<Byte>, a: nat, v: nat, n: nat)
    requires a + n <= |mem|
    ensures Rd(Wr(mem, a, v, n), a, n) == v % Pow2(8 * n)
    decreases n
  {
    if n == 0 {
    } else {
      Pow2Byte(n);
      ReadBack(mem[a := v % 256], a + 1, v / 256, n - 1);
      ModSplit(v, 256, Pow2(8 * (n - 1)));
    }
  }

  lemma {:induction false} SameRead(m1: seq<Byte>, m2: seq<Byte>, a: nat, n: nat)
    requires a + n <= |m1| && a + n <= |m2|
    requires forall i :: a <= i < a + n ==> m1[i] == m2[i]
    ensures Rd(m1, a, n) == Rd(m2, a, n)
    decreases n
  {
    if n == 0 {
    } else {
      SameRead(m1, m2, a + 1, n - 1);
    }
  }

  lemma ReadBack4(mem: seq<Byte>, a: nat, v: Word)
    requires a + 4 <= |mem|
    ensures Rd4(Wr(mem, a, v, 4), a) == v
  {
    hide Rd, Wr;
    ReadBack(mem, a, v, 4);
    Pow2Of32();
  }

  /** Effective address: base register plus displacement, modulo 2^32. */
  function Ea(base: Word, off: int): Word {
    Repr(base + off)
  }

  /** The register value of a load: zero- or sign-extended. */
  function Extend(w: Width, sx: bool, v: nat): (r: Word)
    requires v < Pow2(8 * w.Size())
  {
    Pow2Of32();
    match w
    case W1 => if sx && v >= 0x80 then v + 0xFFFF_FF00 else v
    case W2 => if sx && v >= 0x8000 then v + 0xFFFF_0000 else v
    case W4 => v
  }

  // ---- arithmetic ----

  function Nzcv(r: Word, c: bool, v: bool): Flags {
    Flags(r == 0, c, Negative(r), v)
  }

  /** Subtraction as CMP32 and SUB32 perform it: result and flags. */
  function SubFlags(a: Word, b: Word): (Word, Flags) {
    var r := Repr(a - b);
    // bit 31 of (a ^ b) & (a ^ r)
    (r, Nzcv(r, a < b, Negative(a) != Negative(b) && Negative(a) != Negative(r)))
  }

  function AddFlags(a: Word, b: Word): (Word, Flags) {
    var r := Repr(a + b);
    (r, Nzcv(r, a + b >= WORD_MOD, Negative(a) == Negative(b) && Negative(a) != Negative(r)))
  }

  function TruncDiv(a: int, b: int): int
    requires b != 0
  {
    if (a >= 0) == (b > 0) then Abs(a) / Abs(b) else -(Abs(a) / Abs(b))
  }

  function Abs(a: int): nat {
    if a < 0 then -a else a
  }

  function ShiftLeft(a: Word, n: nat): Word {
    Repr(a * Pow2(n))
  }

  function ShiftRight(a: Word, n: nat): Word {
    DivBounds(a, Pow2(n));
    a / Pow2(n)
  }

  function ShiftArith(a: Word, n: nat): Word {
    Repr(Signed(a) / Pow2(n))
  }

  /** alu_shift: the count is taken modulo 32 and a zero count leaves C and V alone. */
  function ShiftResult(op: AluOp, a: Word, count: Word): Word
    requires op.Shl? || op.Shr? || op.Sar?
  {
    var n := count % 32;
    if op.Shl? then ShiftLeft(a, n) else if op.Shr? then ShiftRight(a, n) else ShiftArith(a, n)
  }

  function ShiftFlags(op: AluOp, a: Word, count: Word, f: Flags): Flags
    requires op.Shl? || op.Shr? || op.Sar?
  {
    var n := count % 32;
    if n == 0 then f.(z := a == 0, s := Negative(a))
    else
      var carry := if op.Shl? then (a / Pow2(32 - n)) % 2 == 1 else (a / Pow2(n - 1)) % 2 == 1;
      Nzcv(ShiftResult(op, a, count), carry, false)
  }

  datatype AluOut = AluOut(r: Word, f: Flags) | DivError

  function DivideError(op: AluOp, a: Word, b: Word): bool {
    b == 0 || ((op.IDiv? || op.IMod?) && a == SIGN_BIT && b == WORD_MOD - 1)
  }

  function AluResult(op: AluOp, a: Word, b: Word, f: Flags): AluOut {
    match op
    case Add => var (r, g) := AddFlags(a, b); AluOut(r, g)
    case Sub => var (r, g) := SubFlags(a, b); AluOut(r, g)
    case Imul =>
      var p := Signed(a) * Signed(b);
      var r := Repr(p);
      AluOut(r, Nzcv(r, p != Signed(r), p != Signed(r)))
    case UDiv =>
      if DivideError(op, a, b) then DivError
      else DivBounds(a, b); DivMod(a, b); AluOut(a / b, Nzcv(a / b, false, false))
    case UMod =>
      if DivideError(op, a, b) then DivError
      else DivBounds(a, b); DivMod(a, b); AluOut(a % b, Nzcv(a % b, false, false))
    case IDiv =>
      if DivideError(op, a, b) then DivError
      else var r := Repr(TruncDiv(Signed(a), Signed(b))); AluOut(r, Nzcv(r, false, false))
    case IMod =>
      if DivideError(op, a, b) then DivError
      else
        var r := Repr(Signed(a) - Signed(b) * TruncDiv(Signed(a), Signed(b)));
        AluOut(r, Nzcv(r, false, false))
    case And => AluOut(Bitwise(BitAnd, a, b), f)
    case Or => AluOut(Bitwise(BitOr, a, b), f)
    case Xor => AluOut(Bitwise(BitXor, a, b), f)
    case Shl => AluOut(ShiftResult(op, a, b), ShiftFlags(op, a, b, f))
    case Shr => AluOut(ShiftResult(op, a, b), ShiftFlags(op, a, b, f))
    case Sar => AluOut(ShiftResult(op, a, b), ShiftFlags(op, a, b, f))
  }

  predicate Holds(c: Cond, f: Flags) {
    match c
    case Eq => f.z
    case Ne => !f.z
    case Lt => f.s != f.v
    case Ge => f.s == f.v
    case Le => f.z || f.s != f.v
    case Gt => !f.z && f.s == f.v
    case Lo => f.c
    case Hs => !f.c
    case Ls => f.c || f.z
    case Hi => !f.c && !f.z
  }

  // ---- one instruction ----

  /** Index of the first definition of a label, or the program's length. */
  function Find(p: Program, l: nat): (i: nat)
    ensures i <= |p|
    ensures i < |p| ==> p[i] == Label(l)
    ensures forall j :: 0 <= j < i ==> p[j] != Label(l)
  {
    if p == [] then 0 else if p[0] == Label(l) then 0 else 1 + Find(p[1..], l)
  }

  function Next(m: Cpu): Cpu {
    m.(pc := m.pc + 1)
  }

  function SetReg(m: Cpu, d: Reg, v: Word): Config {
    Running(Next(m).(regs := m.regs.Set(d, v)))
  }

  function SetRegFlags(m: Cpu, d: Reg, v: Word, f: Flags): Config {
    Running(Next(m).(regs := m.regs.Set(d, v), flags := f))
  }

  predicate InRam(m: Cpu, a: Word, n: nat) {
    a + n <= |m.mem|
  }

  function Execute(p: Program, m: Cpu): Config
    requires m.pc < |p|
  {
    var g := m.regs;
    match p[m.pc]
    case Label(_) => Running(Next(m))
    case LoadImm(d, imm) => SetReg(m, d, imm)
    case Move(d, a) => SetReg(m, d, g.Get(a))
    case Alu(op, d, b) =>
      (match AluResult(op, g.Get(d), g.Get(b), m.flags)
       case AluOut(r, f) => SetRegFlags(m, d, r, f)
       case DivError => Trapped(VEC_DIV))
    case AddImm(d, imm) =>
      var (r, f) := AddFlags(g.Get(d), imm);
      SetRegFlags(m, d, r, f.(v := false))
    case SubImm(d, imm) =>
      var (r, f) := SubFlags(g.Get(d), imm);
      SetRegFlags(m, d, r, f.(v := false))
    case AndImm(d, imm) => SetReg(m, d, Bitwise(BitAnd, g.Get(d), imm))
    case XorImm(d, imm) => SetReg(m, d, Bitwise(BitXor, g.Get(d), imm))
    case ShlImm(d, imm) =>
      var r := ShiftLeft(g.Get(d), imm % 32);
      var carry := 0 < imm <= 32 && Negative(ShiftLeft(g.Get(d), imm - 1));
      SetRegFlags(m, d, r, Nzcv(r, carry, false))
    case SarImm(d, imm) => SetRegFlags(m, d, ShiftResult(Sar, g.Get(d), imm), ShiftFlags(Sar, g.Get(d), imm, m.flags))
    case Neg(d) =>
      var (r, f) := SubFlags(0, g.Get(d));
      SetRegFlags(m, d, r, f)
    case Cmp(a, b) => Running(Next(m).(flags := SubFlags(g.Get(a), g.Get(b)).1))
    case CmpImm(a, imm) => Running(Next(m).(flags := SubFlags(g.Get(a), imm).1.(v := false)))
    case Test(a, b) => Running(Next(m).(flags := Nzcv(Bitwise(BitAnd, g.Get(a), g.Get(b)), false, false)))
    case Load(w, sx, d, base, off) =>
      var a := Ea(g.Get(base), off);
      if InRam(m, a, w.Size()) then SetReg(m, d, Extend(w, sx, Rd(m.mem, a, w.Size()))) else Trapped(VEC_BUS)
    case Store(w, base, off, src) =>
      var a := Ea(g.Get(base), off);
      if InRam(m, a, w.Size()) then Running(Next(m).(mem := Wr(m.mem, a, g.Get(src), w.Size()))) else Trapped(VEC_BUS)
    case Lea(d, base, off) => SetReg(m, d, Ea(g.Get(base), off))
    case Push(src) =>
      var a := Repr(m.sp - 4);
      if InRam(m, a, 4) then Running(Next(m).(sp := a, mem := Wr(m.mem, a, g.Get(src), 4))) else Trapped(VEC_BUS)
    case Pop(d) =>
      if InRam(m, m.sp, 4) then
        Running(Next(m).(regs := g.Set(d, Rd4(m.mem, m.sp)), sp := Repr(m.sp + 4)))
      else Trapped(VEC_BUS)
    case MovSp(d) => SetReg(m, d, m.sp)
    case SetSp(src) => Running(Next(m).(sp := g.Get(src)))
    case AddSp(k) => Running(Next(m).(sp := Repr(m.sp + k)))
    case Jump(l) => Running(m.(pc := Find(p, l)))
    case Branch(c, l) => if Holds(c, m.flags) then Running(m.(pc := Find(p, l))) else Running(Next(m))
    case Ret =>
      if InRam(m, m.sp, 4) then Left(m.(pc := Rd4(m.mem, m.sp), sp := Repr(m.sp + 4))) else Trapped(VEC_BUS)
  }

  // ---- runs ----

  function Step(p: Program, c: Config): Config {
    if c.Running? then (if c.m.pc < |p| then Execute(p, c.m) else Left(c.m)) else c
  }

  function Iterate(p: Program, c: Config, n: nat): Config
    decreases n
  {
    if n == 0 then c else Iterate(p, Step(p, c), n - 1)
  }

  /** c' is reached from c in some number of steps. */
  ghost predicate Runs(p: Program, c: Config, c': Config) {
    exists n: nat :: Iterate(p, c, n) == c'
  }

  lemma {:induction false} IterateAdd(p: Program, c: Config, n: nat, k: nat)
    ensures Iterate(p, Iterate(p, c, n), k) == Iterate(p, c, n + k)
    decreases n
  {
    if n == 0 {
    } else {
      IterateAdd(p, Step(p, c), n - 1, k);
    }
  }

  lemma RunsRefl(p: Program, c: Config)
    ensures Runs(p, c, c)
  {
    assert Iterate(p, c, 0) == c;
  }

  lemma RunsTrans(p: Program, a: Config, b: Config, c: Config)
    requires Runs(p, a, b) && Runs(p, b, c)
    ensures Runs(p, a, c)
  {
    var n: nat :| Iterate(p, a, n) == b;
    var k: nat :| Iterate(p, b, k) == c;
    IterateAdd(p, a, n, k);
  }

  /** One more step at the end of a run. */
  lemma RunsStep(p: Program, a: Config, b: Config)
    requires Runs(p, a, b)
    ensures Runs(p, a, Step(p, b))
  {
    assert Iterate(p, b, 1) == Iterate(p, Step(p, b), 0) == Step(p, b);
    RunsTrans(p, a, b, Step(p, b));
  }

  // ---- one lemma per instruction: a run that has reached the instruction goes on past it ----

  lemma One(p: Program, a: Config, m: Cpu)
    requires Runs(p, a, Running(m)) && m.pc < |p|
    ensures Runs(p, a, Execute(p, m))
  {
    RunsStep(p, a, Running(m));
  }

  ghost predicate Reaches(p: Program, a: Config, m: Cpu, i: Instr) {
    Runs(p, a, Running(m)) && m.pc < |p| && p[m.pc] == i
  }

  lemma StepLabel(p: Program, a: Config, m: Cpu, l: nat)
    requires Reaches(p, a, m, Label(l))
    ensures Runs(p, a, Running(Next(m)))
  {
    One(p, a, m);
  }

  lemma StepLoadImm(p: Program, a: Config, m: Cpu, d: Reg, k: Word)
    requires Reaches(p, a, m, LoadImm(d, k))
    ensures Runs(p, a, SetReg(m, d, k))
  {
    One(p, a, m);
  }

  lemma StepMove(p: Program, a: Config, m: Cpu, d: Reg, s: Reg)
    requires Reaches(p, a, m, Move(d, s))
    ensures Runs(p, a, SetReg(m, d, m.regs.Get(s)))
  {
    One(p, a, m);
  }

  lemma StepAlu(p: Program, a: Config, m: Cpu, op: AluOp, d: Reg, b: Reg)
    requires Reaches(p, a, m, Alu(op, d, b))
    ensures match AluResult(op, m.regs.Get(d), m.regs.Get(b), m.flags)
      case AluOut(r, f) => Runs(p, a, SetRegFlags(m, d, r, f))
      case DivError => Runs(p, a, Trapped(VEC_DIV))
  {
    hide AluResult, Runs;
    One(p, a, m);
  }

  lemma StepAddImm(p: Program, a: Config, m: Cpu, d: Reg, k: Word)
    requires Reaches(p, a, m, AddImm(d, k))
    ensures var (r, f) := AddFlags(m.regs.Get(d), k); Runs(p, a, SetRegFlags(m, d, r, f.(v := false)))
  {
    One(p, a, m);
  }

  lemma StepSubImm(p: Program, a: Config, m: Cpu, d: Reg, k: Word)
    requires Reaches(p, a, m, SubImm(d, k))
    ensures var (r, f) := SubFlags(m.regs.Get(d), k); Runs(p, a, SetRegFlags(m, d, r, f.(v := false)))
  {
    One(p, a, m);
  }

  lemma StepAndImm(p: Program, a: Config, m: Cpu, d: Reg, k: Word)
    requires Reaches(p, a, m, AndImm(d, k))
    ensures Runs(p, a, SetReg(m, d, Bitwise(BitAnd, m.regs.Get(d), k)))
  {
    hide Bitwise, Runs;
    One(p, a, m);
  }

  lemma StepXorImm(p: Program, a: Config, m: Cpu, d: Reg, k: Word)
    requires Reaches(p, a, m, XorImm(d, k))
    ensures Runs(p, a, SetReg(m, d, Bitwise(BitXor, m.regs.Get(d), k)))
  {
    hide Bitwise, Runs;
    One(p, a, m);
  }

  lemma StepShlImm(p: Program, a: Config, m: Cpu, d: Reg, k: Word)
    requires Reaches(p, a, m, ShlImm(d, k))
    ensures exists f: Flags :: Runs(p, a, SetRegFlags(m, d, ShiftLeft(m.regs.Get(d), k % 32), f))
  {
    hide ShiftLeft, Runs;
    One(p, a, m);
  }

  lemma StepSarImm(p: Program, a: Config, m: Cpu, d: Reg, k: Word)
    requires Reaches(p, a, m, SarImm(d, k))
    ensures exists f: Flags :: Runs(p, a, SetRegFlags(m, d, ShiftArith(m.regs.Get(d), k % 32), f))
  {
    hide ShiftArith, Runs, ShiftFlags;
    One(p, a, m);
  }

  lemma StepNeg(p: Program, a: Config, m: Cpu, d: Reg)
    requires Reaches(p, a, m, Neg(d))
    ensures var (r, f) := SubFlags(0, m.regs.Get(d)); Runs(p, a, SetRegFlags(m, d, r, f))
  {
    One(p, a, m);
  }

  lemma StepCmp(p: Program, a: Config, m: Cpu, x: Reg, y: Reg)
    requires Reaches(p, a, m, Cmp(x, y))
    ensures Runs(p, a, Running(Next(m).(flags := SubFlags(m.regs.Get(x), m.regs.Get(y)).1)))
  {
    One(p, a, m);
  }

  lemma StepCmpImm(p: Program, a: Config, m: Cpu, x: Reg, k: Word)
    requires Reaches(p, a, m, CmpImm(x, k))
    ensures Runs(p, a, Running(Next(m).(flags := SubFlags(m.regs.Get(x), k).1.(v := false))))
  {
    One(p, a, m);
  }

  lemma StepTest(p: Program, a: Config, m: Cpu, x: Reg, y: Reg)
    requires Reaches(p, a, m, Test(x, y))
    ensures Runs(p, a, Running(Next(m).(flags := Nzcv(Bitwise(BitAnd, m.regs.Get(x), m.regs.Get(y)), false, false))))
  {
    hide Bitwise, Runs;
    One(p, a, m);
  }

  lemma StepLoad(p: Program, a: Config, m: Cpu, w: Width, sx: bool, d: Reg, base: Reg, off: int)
    requires Reaches(p, a, m, Load(w, sx, d, base, off)) && InRam(m, Ea(m.regs.Get(base), off), w.Size())
    ensures Runs(p, a, SetReg(m, d, Extend(w, sx, Rd(m.mem, Ea(m.regs.Get(base), off), w.Size()))))
  {
    hide Extend, Rd, Runs;
    One(p, a, m);
  }

  lemma StepStore(p: Program, a: Config, m: Cpu, w: Width, base: Reg, off: int, src: Reg)
    requires Reaches(p, a, m, Store(w, base, off, src)) && InRam(m, Ea(m.regs.Get(base), off), w.Size())
    ensures Runs(p, a, Running(Next(m).(mem := Wr(m.mem, Ea(m.regs.Get(base), off), m.regs.Get(src), w.Size()))))
  {
    hide Wr, Runs;
    One(p, a, m);
  }

  lemma StepLea(p: Program, a: Config, m: Cpu, d: Reg, base: Reg, off: int)
    requires Reaches(p, a, m, Lea(d, base, off))
    ensures Runs(p, a, SetReg(m, d, Ea(m.regs.Get(base), off)))
  {
    One(p, a, m);
  }

  lemma StepPush(p: Program, a: Config, m: Cpu, s: Reg)
    requires Reaches(p, a, m, Push(s)) && 4 <= m.sp <= |m.mem|
    ensures Runs(p, a, Running(Next(m).(sp := m.sp - 4, mem := Wr(m.mem, m.sp - 4, m.regs.Get(s), 4))))
  {
    hide Wr, Runs;
    assert Repr(m.sp - 4) == m.sp - 4;
    One(p, a, m);
  }

  lemma StepPop(p: Program, a: Config, m: Cpu, d: Reg)
    requires Reaches(p, a, m, Pop(d)) && m.sp + 4 <= |m.mem| && m.sp + 4 < WORD_MOD
    ensures Runs(p, a, Running(Next(m).(sp := m.sp + 4, regs := m.regs.Set(d, Rd4(m.mem, m.sp)))))
  {
    hide Rd4, Runs;
    assert Repr(m.sp + 4) == m.sp + 4;
    One(p, a, m);
  }

  lemma StepJump(p: Program, a: Config, m: Cpu, l: nat)
    requires Reaches(p, a, m, Jump(l))
    ensures Runs(p, a, Running(m.(pc := Find(p, l))))
  {
    One(p, a, m);
  }

  lemma StepBranch(p: Program, a: Config, m: Cpu, c: Cond, l: nat)
    requires Reaches(p, a, m, Branch(c, l))
    ensures Runs(p, a, Running(if Holds(c, m.flags) then m.(pc := Find(p, l)) else Next(m)))
  {
    hide Holds, Runs;
    One(p, a, m);
  }
}
