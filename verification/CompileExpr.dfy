/** Running the code of an expression computes its C value; running the code of a condition
    takes the branch exactly when its truth is the wanted one. */
module CompileExpr {
  import opened Words
  import opened Machine
  import opened CLang
  import opened CodeGen
  import opened Values
  import opened Frames

  /** The code is in place, the locals are env's, and words of scratch stack fit above low. Whatever runs from
      here leaves the bytes below low alone. */
  ghost predicate Ready(low: nat, p: Program, code: Code, lay: Layout, env: Env, m: Cpu, words: nat) {
    UniqueLabels(p) && At(p, m.pc, code) && Models(lay, env, m) && low + 4 * words <= m.sp
  }

  /** The machine stands at pc with the locals of env' and nothing else of the frame changed. */
  ghost predicate Arrived(low: nat, lay: Layout, m: Cpu, c: Config, pc: nat, env': Env) {
    c.Running? && Models(lay, env', c.m) && Keeps(low, lay, m, c.m) && c.m.pc == pc
  }

  ghost predicate ValueDone(low: nat, o: Outcome, lay: Layout, m: Cpu, c: Config, pc: nat) {
    match o
    case DivTrap => c == Trapped(VEC_DIV)
    case Val(v, env') => Arrived(low, lay, m, c, pc, env') && c.m.regs.r0 == Repr(v)
  }

  ghost predicate ExprDone(low: nat, e: Expr, lay: Layout, n: nat, env: Env, m: Cpu, c: Config)
    requires WellFormed(e, lay) && env.Keys == lay.Keys
  {
    ValueDone(low, Eval(e, lay, env), lay, m, c, m.pc + |GenExpr(e, lay, n)|)
  }

  ghost predicate BranchDone(low: nat, p: Program, e: Expr, lay: Layout, n: nat, lab: nat, when: bool, env: Env,
        m: Cpu, c: Config)
    requires WellFormed(e, lay) && env.Keys == lay.Keys
  {
    match Eval(e, lay, env)
    case DivTrap => c == Trapped(VEC_DIV)
    case Val(v, env') =>
      Arrived(low, lay, m, c, if (v != 0) == when then Find(p, lab) else m.pc + |GenBranch(e, lay, n, lab, when)|, env')
  }

  ghost predicate OperandsDone(low: nat, e: Expr, lay: Layout, n: nat, env: Env, m: Cpu, c: Config)
    requires WellFormed(e, lay) && TwoOperands(e) && env.Keys == lay.Keys
  {
    match Eval(e.l, lay, env)
    case DivTrap => c == Trapped(VEC_DIV)
    case Val(a, env1) =>
      match Eval(e.r, lay, env1)
      case DivTrap => c == Trapped(VEC_DIV)
      case Val(b, env2) =>
        && Arrived(low, lay, m, c, m.pc + |GenOperands(e, lay, n)|, env2)
        && c.m.regs.r0 == Repr(a) && c.m.regs.r1 == Repr(b)
  }

  lemma ArrivedTrans(low: nat, lay: Layout, m: Cpu, m1: Cpu, c: Config, pc: nat, env': Env)
    requires Keeps(low, lay, m, m1) && Arrived(low, lay, m1, c, pc, env')
    ensures Arrived(low, lay, m, c, pc, env')
  {
    KeepsTrans(low, lay, m, m1, c.m);
  }

  /** From here on only pc, flags and scratch registers change. */
  lemma ArrivedScratch(low: nat, lay: Layout, env: Env, m: Cpu, m1: Cpu, m2: Cpu)
    requires Models(lay, env, m1) && Keeps(low, lay, m, m1) && Scratch(m1, m2)
    ensures Arrived(low, lay, m, Running(m2), m2.pc, env)
  {
    hide Slot, Disjoint, InSlot, Typed;
    ScratchKeeps(low, lay, env, m1, m2);
    KeepsTrans(low, lay, m, m1, m2);
  }

  lemma KeepsSelf(low: nat, lay: Layout, m: Cpu)
    ensures Keeps(low, lay, m, m)
  {
  }

  /** A state arrived at can run the code placed there. */
  lemma ArrivedReady(low: nat, p: Program, code: Code, lay: Layout, m: Cpu, c: Config, pc: nat, env: Env, words: nat)
    requires Arrived(low, lay, m, c, pc, env) && UniqueLabels(p) && At(p, pc, code) && low + 4 * words <= m.sp
    ensures Ready(low, p, code, lay, env, c.m, words) && Keeps(low, lay, m, c.m) && Models(lay, env, c.m)
  {
  }

  ghost predicate LabelAt(p: Program, i: nat, l: nat) {
    i < |p| && p[i] == Label(l) && Find(p, l) == i
  }

  lemma ModelsTyped(lay: Layout, env: Env, m: Cpu)
    requires Models(lay, env, m)
    ensures Typed(lay, env) && env.Keys == lay.Keys
  {
  }

  // ---- expressions ----

  lemma {:induction false} ExprOk(low: nat, p: Program, e: Expr, lay: Layout, n: nat, env: Env, m: Cpu)
    returns (c: Config)
    requires WellFormed(e, lay) && CastsFit(e)
    requires Ready(low, p, GenExpr(e, lay, n), lay, env, m, Need(e, lay))
    ensures Runs(p, Running(m), c) && ExprDone(low, e, lay, n, env, m, c)
    decreases e, Rank(e, false), 0
  {
    hide Runs, Models, At, UniqueLabels, Eval, GenExpr, Need, ValueDone, CastsFit, WellFormed;
    match e
    case Num(_, _) => c := LeafOk(low, p, e, lay, n, env, m);
    case Var(_) => c := LeafOk(low, p, e, lay, n, env, m);
    case Cast(_, _) => c := CastOk(low, p, e, lay, n, env, m);
    case Assign(_, _) => c := AssignOk(low, p, e, lay, n, env, m);
    case OpAssign(_, _, _) => c := OpAssignOk(low, p, e, lay, n, env, m);
    case IncDec(_, _, _, _) => c := IncDecOk(low, p, e, lay, n, env, m);
    case Ternary(_, _, _) => c := TernaryOk(low, p, e, lay, n, env, m);
    case Comma(_, _) => c := CommaOk(low, p, e, lay, n, env, m);
    case Negate(_) => c := NegateOk(low, p, e, lay, n, env, m);
    case BitNot(_) => c := BitNotOk(low, p, e, lay, n, env, m);
    case Bin(_, _, _) => c := BinOk(low, p, e, lay, n, env, m);
    case _ => c := BoolOk(low, p, e, lay, n, env, m);
  }

  lemma LeafOk(low: nat, p: Program, e: Expr, lay: Layout, n: nat, env: Env, m: Cpu) returns (c: Config)
    requires (e.Num? || e.Var?) && WellFormed(e, lay)
    requires Ready(low, p, GenExpr(e, lay, n), lay, env, m, Need(e, lay))
    ensures Runs(p, Running(m), c) && ExprDone(low, e, lay, n, env, m, c)
  {
    hide Runs, Slot, Disjoint, InSlot;
    RunsRefl(p, Running(m));
    AtIndex(p, m.pc, GenExpr(e, lay, n), 0);
    KeepsSelf(low, lay, m);
    match e
    case Num(w, _) =>
      StepLoadImm(p, Running(m), m, R0, w);
      c := SetReg(m, R0, w);
      ArrivedScratch(low, lay, env, m, m, c.m);
    case Var(off) =>
      SlotAddress(lay, env, m, off);
      LoadLocal(p, Running(m), lay, env, m, off, R7, off);
      c := Running(Next(m).(regs := m.regs.(r0 := Repr(env[off]))));
      ArrivedScratch(low, lay, env, m, m, c.m);
  }

  /** convert after the code of l. */
  lemma ThenConvert(low: nat, p: Program, a: Config, l: Expr, lay: Layout, n: nat, env: Env, m: Cpu, c1: Config, t: Ty)
    returns (c: Config)
    requires WellFormed(l, lay) && Typed(lay, env)
    requires Runs(p, a, c1) && ExprDone(low, l, lay, n, env, m, c1)
    requires c1.Running? ==> At(p, c1.m.pc, Convert(TypeOf(l, lay), t))
    ensures Runs(p, a, c)
    ensures match Eval(l, lay, env)
      case DivTrap => c == Trapped(VEC_DIV)
      case Val(v, env') =>
        && Arrived(low, lay, m, c, m.pc + |GenExpr(l, lay, n)| + |Convert(TypeOf(l, lay), t)|, env')
        && c.m.regs.r0 == Repr(t.Wrap(v))
  {
    hide Runs, Slot, Disjoint, InSlot, At, Eval, GenExpr, Convert, TypeOf, WellFormed;
    EvalTyped(l, lay, env);
    c := c1;
    if c1.Running? {
      var o := Eval(l, lay, env);
      var m2 := ConvertOk(p, a, TypeOf(l, lay), t, c1.m, o.v);
      ArrivedScratch(low, lay, o.env, m, c1.m, m2);
      c := Running(m2);
    }
  }

  lemma {:induction false} CastOk(low: nat, p: Program, e: Expr, lay: Layout, n: nat, env: Env, m: Cpu)
    returns (c: Config)
    requires e.Cast? && WellFormed(e, lay) && CastsFit(e)
    requires Ready(low, p, GenExpr(e, lay, n), lay, env, m, Need(e, lay))
    ensures Runs(p, Running(m), c) && ExprDone(low, e, lay, n, env, m, c)
    decreases e, 0, 0
  {
    hide Runs, Slot, Disjoint, InSlot, At, Convert;
    AtSplit(p, m.pc, GenExpr(e.l, lay, n), Convert(TypeOf(e.l, lay), e.ty));
    c := ExprOk(low, p, e.l, lay, n, env, m);
    c := ThenConvert(low, p, Running(m), e.l, lay, n, env, m, c, e.ty);
  }

  lemma {:induction false} CommaOk(low: nat, p: Program, e: Expr, lay: Layout, n: nat, env: Env, m: Cpu)
    returns (c: Config)
    requires e.Comma? && WellFormed(e, lay) && CastsFit(e)
    requires Ready(low, p, GenExpr(e, lay, n), lay, env, m, Need(e, lay))
    ensures Runs(p, Running(m), c) && ExprDone(low, e, lay, n, env, m, c)
    decreases e, 0, 0
  {
    hide Runs, Models, Keeps, At, UniqueLabels;
    var l, r := e.l, e.r;
    var nr := n + LabelsE(l, lay);
    ModelsTyped(lay, env, m);
    AtSplit(p, m.pc, GenExpr(l, lay, n), GenExpr(r, lay, nr));
    c := ExprOk(low, p, l, lay, n, env, m);
    if c.Running? {
      var m1, env1 := c.m, Eval(l, lay, env).env;
      ArrivedReady(low, p, GenExpr(r, lay, nr), lay, m, c, m1.pc, env1, Need(r, lay));
      c := ExprOk(low, p, r, lay, nr, env1, m1);
      RunsTrans(p, Running(m), Running(m1), c);
      if c.Running? {
        ArrivedTrans(low, lay, m, m1, c, c.m.pc, Eval(r, lay, env1).env);
      }
    }
  }

  lemma PromotedInt(e: Expr, lay: Layout)
    requires (e.Negate? || e.BitNot?) && WellFormed(e, lay)
    ensures TypeOf(e, lay).CInt?
  {
  }

  lemma NegateParts(e: Expr, lay: Layout, n: nat)
    requires e.Negate? && WellFormed(e, lay) && CastsFit(e)
    ensures WellFormed(e.l, lay) && CastsFit(e.l) && Need(e.l, lay) == Need(e, lay)
    ensures GenExpr(e, lay, n) == GenExpr(e.l, lay, n) + [Neg(R0)]
  {
  }

  lemma NegateValue(e: Expr, lay: Layout, env: Env)
    requires e.Negate? && WellFormed(e, lay) && WellFormed(e.l, lay) && env.Keys == lay.Keys
    ensures var o := Eval(e.l, lay, env);
      Eval(e, lay, env) == if o.DivTrap? then DivTrap else Val(TypeOf(e, lay).Wrap(-o.v), o.env)
  {
  }

  lemma {:induction false} NegateOk(low: nat, p: Program, e: Expr, lay: Layout, n: nat, env: Env, m: Cpu)
    returns (c: Config)
    requires e.Negate? && WellFormed(e, lay) && CastsFit(e)
    requires Ready(low, p, GenExpr(e, lay, n), lay, env, m, Need(e, lay))
    ensures Runs(p, Running(m), c) && ExprDone(low, e, lay, n, env, m, c)
    decreases e, 0, 0
  {
    hide Runs, Models, Keeps, At, SubFlags, Repr, Ty.Wrap, TypeOf, UniqueLabels, GenExpr, Eval, Need, CastsFit,
      WellFormed;
    var l := e.l;
    ModelsTyped(lay, env, m);
    NegateParts(e, lay, n);
    NegateValue(e, lay, env);
    AtSplit(p, m.pc, GenExpr(l, lay, n), [Neg(R0)]);
    c := ExprOk(low, p, l, lay, n, env, m);
    if c.Running? {
      var m1, o := c.m, Eval(l, lay, env);
      AtIndex(p, m1.pc, [Neg(R0)], 0);
      c := NegStep(low, p, lay, o.env, m, m1, o.v);
      PromotedInt(e, lay);
      WrapRepr(TypeOf(e, lay), -o.v);
    }
  }

  lemma NegStep(low: nat, p: Program, lay: Layout, env: Env, m: Cpu, m1: Cpu, v: int) returns (c: Config)
    requires Reaches(p, Running(m), m1, Neg(R0)) && Models(lay, env, m1) && Keeps(low, lay, m, m1)
      && m1.regs.r0 == Repr(v)
    ensures Runs(p, Running(m), c) && Arrived(low, lay, m, c, m1.pc + 1, env) && c.m.regs.r0 == Repr(-v)
  {
    hide Runs, Models, Keeps, SubFlags, Repr;
    StepNeg(p, Running(m), m1, R0);
    var (r, f) := SubFlags(0, m1.regs.r0);
    c := SetRegFlags(m1, R0, r, f);
    ComplementRepr(v);
    ArrivedScratch(low, lay, env, m, m1, c.m);
  }

  lemma {:induction false} BitNotOk(low: nat, p: Program, e: Expr, lay: Layout, n: nat, env: Env, m: Cpu)
    returns (c: Config)
    requires e.BitNot? && WellFormed(e, lay) && CastsFit(e)
    requires Ready(low, p, GenExpr(e, lay, n), lay, env, m, Need(e, lay))
    ensures Runs(p, Running(m), c) && ExprDone(low, e, lay, n, env, m, c)
    decreases e, 0, 0
  {
    hide Runs, Models, Keeps, At, Bitwise, Repr, Ty.Wrap, TypeOf, UniqueLabels;
    var l := e.l;
    ModelsTyped(lay, env, m);
    AtSplit(p, m.pc, GenExpr(l, lay, n), [XorImm(R0, 0xFFFF_FFFF)]);
    c := ExprOk(low, p, l, lay, n, env, m);
    if c.Running? {
      var m1, o := c.m, Eval(l, lay, env);
      AtIndex(p, m1.pc, [XorImm(R0, 0xFFFF_FFFF)], 0);
      StepXorImm(p, Running(m), m1, R0, 0xFFFF_FFFF);
      c := SetReg(m1, R0, Bitwise(BitXor, m1.regs.r0, 0xFFFF_FFFF));
      ComplementRepr(o.v);
      PromotedInt(e, lay);
      WrapRepr(TypeOf(e, lay), -1 - o.v);
      ArrivedScratch(low, lay, o.env, m, m1, c.m);
    }
  }

  // ---- operators with two operands ----

  lemma {:induction false} BinOk(low: nat, p: Program, e: Expr, lay: Layout, n: nat, env: Env, m: Cpu)
    returns (c: Config)
    requires e.Bin? && WellFormed(e, lay) && CastsFit(e)
    requires Ready(low, p, GenExpr(e, lay, n), lay, env, m, Need(e, lay))
    ensures Runs(p, Running(m), c) && ExprDone(low, e, lay, n, env, m, c)
    decreases e, 0, 1
  {
    hide Runs, Slot, Disjoint, InSlot, At, AluResult, Apply, GenOperands;
    var op, l, r, t := e.op, e.l, e.r, TypeOf(e, lay);
    var instr := BinInstr(op, t.uns);
    AtSplit(p, m.pc, GenOperands(e, lay, n), [instr]);
    c := OperandsOk(low, p, e, lay, n, env, m);
    if c.Running? {
      var m1 := c.m;
      var a, env1 := Eval(l, lay, env).v, Eval(l, lay, env).env;
      var b, env2 := Eval(r, lay, env1).v, Eval(r, lay, env1).env;
      AtIndex(p, m1.pc, [instr], 0);
      c := BinStep(p, Running(m), m1, op, t, a, b);
      if c.Running? {
        ArrivedScratch(low, lay, env2, m, m1, c.m);
      }
    }
  }

  /** The instruction of binop, with the operands' patterns in R0 and R1. */
  lemma BinStep(p: Program, a: Config, m: Cpu, op: BinOp, t: Ty, x: int, y: int) returns (c: Config)
    requires t.CInt? && Reaches(p, a, m, BinInstr(op, t.uns))
    requires m.regs.r0 == Repr(x) && m.regs.r1 == Repr(y)
    ensures Runs(p, a, c)
    ensures match Apply(op, t, x, y)
      case None => c == Trapped(VEC_DIV)
      case Some(v) => c.Running? && Scratch(m, c.m) && c.m.pc == m.pc + 1 && c.m.regs == m.regs.(r0 := Repr(v))
  {
    hide Runs, AluResult, Apply;
    var i := BinInstr(op, t.uns);
    ApplyRepr(op, t, x, y, m.flags);
    StepAlu(p, a, m, i.op, R0, R1);
    match AluResult(i.op, m.regs.r0, m.regs.r1, m.flags)
    case AluOut(r, f) => c := SetRegFlags(m, R0, r, f);
    case DivError => c := Trapped(VEC_DIV);
  }

  /** Both operands evaluated left to right: the left one in R0, the right one in R1. */
  lemma {:induction false} OperandsOk(low: nat, p: Program, e: Expr, lay: Layout, n: nat, env: Env, m: Cpu)
    returns (c: Config)
    requires WellFormed(e, lay) && TwoOperands(e) && CastsFit(e)
    requires Ready(low, p, GenOperands(e, lay, n), lay, env, m, Need(e, lay))
    ensures Runs(p, Running(m), c) && OperandsDone(low, e, lay, n, env, m, c)
    decreases e, 0, 0
  {
    hide Runs, Slot, Disjoint, InSlot, At, Eval, GenExpr, GenR1, LabelsE;
    var l, r := e.l, e.r;
    var cl, nr := GenExpr(l, lay, n), n + LabelsE(l, lay);
    if SimpleRhs(r, lay) {
      AtSplit(p, m.pc, cl, [GenR1(r, lay)]);
    } else {
      AtSplit(p, m.pc, cl, [Push(R0)] + (GenExpr(r, lay, nr) + [Move(R1, R0), Pop(R0)]));
    }
    c := ExprOk(low, p, l, lay, n, env, m);
    if c.Running? {
      var m1, env1 := c.m, Eval(l, lay, env).env;
      if SimpleRhs(r, lay) {
        c := SimpleOk(low, p, r, lay, env1, m1);
      } else {
        c := PushedOk(low, p, r, lay, nr, env1, m1);
      }
      RunsTrans(p, Running(m), Running(m1), c);
      if c.Running? {
        ArrivedTrans(low, lay, m, m1, c, c.m.pc, Eval(r, lay, env1).env);
      }
    }
  }

  /** gen_r1 on a simple right operand whose cast, if any, changes nothing. */
  lemma SimpleOk(low: nat, p: Program, r: Expr, lay: Layout, env: Env, m: Cpu) returns (c: Config)
    requires WellFormed(r, lay) && SimpleRhs(r, lay) && CastFits(r)
    requires Models(lay, env, m) && At(p, m.pc, [GenR1(r, lay)])
    ensures Runs(p, Running(m), c) && Eval(r, lay, env).Val?
    ensures Arrived(low, lay, m, c, m.pc + 1, env) && c.m.regs.r0 == m.regs.r0
    ensures c.m.regs.r1 == Repr(Eval(r, lay, env).v) && Eval(r, lay, env).env == env
  {
    hide Runs, Slot, Disjoint, InSlot, Extend, Rd;
    AtIndex(p, m.pc, [GenR1(r, lay)], 0);
    RunsRefl(p, Running(m));
    KeepsSelf(low, lay, m);
    if r.Var? {
      c := SimpleVarOk(low, p, r, lay, env, m);
    } else {
      if r.Cast? {
        R1Exact(r, lay, env);
      } else {
        ReprSigned(r.val);
      }
      var k := GenR1(r, lay).imm;
      StepLoadImm(p, Running(m), m, R1, k);
      c := SetReg(m, R1, k);
      ArrivedScratch(low, lay, env, m, m, c.m);
    }
  }

  lemma SimpleVarOk(low: nat, p: Program, r: Expr, lay: Layout, env: Env, m: Cpu) returns (c: Config)
    requires r.Var? && WellFormed(r, lay) && SimpleRhs(r, lay)
    requires Models(lay, env, m) && Reaches(p, Running(m), m, GenR1(r, lay))
    ensures Runs(p, Running(m), c)
    ensures Arrived(low, lay, m, c, m.pc + 1, env) && c.m.regs == m.regs.(r1 := Repr(env[r.off]))
  {
    hide Runs, Disjoint, InSlot, Extend, Rd;
    var off := r.off;
    assert Slot(lay, env, m, off);
    SlotAddress(lay, env, m, off);
    LoadRepr(lay[off], env[off], Rd(m.mem, m.regs.r7 + off, 4));
    StepLoad(p, Running(m), m, W4, false, R1, R7, off);
    c := SetReg(m, R1, Repr(env[off]));
    KeepsSelf(low, lay, m);
    ArrivedScratch(low, lay, env, m, m, c.m);
  }

  /** R0 saved on the stack across the code of r. */
  lemma {:induction false} PushedOk(low: nat, p: Program, r: Expr, lay: Layout, n: nat, env: Env, m: Cpu)
    returns (c: Config)
    requires WellFormed(r, lay) && CastsFit(r) && UniqueLabels(p) && Models(lay, env, m)
    requires low + 4 * (1 + Need(r, lay)) <= m.sp
    requires At(p, m.pc, [Push(R0)] + (GenExpr(r, lay, n) + [Move(R1, R0), Pop(R0)]))
    ensures Runs(p, Running(m), c)
    ensures match Eval(r, lay, env)
      case DivTrap => c == Trapped(VEC_DIV)
      case Val(b, env') =>
        && Arrived(low, lay, m, c, m.pc + |GenExpr(r, lay, n)| + 3, env')
        && c.m.regs.r0 == m.regs.r0 && c.m.regs.r1 == Repr(b)
    decreases r, 3, 0
  {
    hide Runs, Slot, Disjoint, InSlot, At, Rd4, Wr, GenExpr, Eval, Need, CastsFit, WellFormed;
    var cr := GenExpr(r, lay, n);
    var tail := [Move(R1, R0), Pop(R0)];
    AtSplit(p, m.pc, [Push(R0)], cr + tail);
    AtSplit(p, m.pc + 1, cr, tail);
    AtIndex(p, m.pc, [Push(R0)], 0);
    RunsRefl(p, Running(m));
    PushR0(p, Running(m), m);
    PushModels(low, lay, env, m);
    var m1 := Pushed(m);
    c := ExprOk(low, p, r, lay, n, env, m1);
    RunsTrans(p, Running(m), Running(m1), c);
    if c.Running? {
      var m2 := c.m;
      PushedStays(low, lay, env, m, m1, m2, m1.sp);
      MoveAndPop(p, Running(m), m2);
      c := Running(Popped(m2));
      PopModels(low, lay, env, Eval(r, lay, env).env, m, m1, m2, c.m);
    }
  }

  // ---- assignments ----

  lemma {:induction false} AssignOk(low: nat, p: Program, e: Expr, lay: Layout, n: nat, env: Env, m: Cpu)
    returns (c: Config)
    requires e.Assign? && WellFormed(e, lay) && CastsFit(e)
    requires Ready(low, p, GenExpr(e, lay, n), lay, env, m, Need(e, lay))
    ensures Runs(p, Running(m), c) && ExprDone(low, e, lay, n, env, m, c)
    decreases e, 0, 0
  {
    hide Runs, Slot, Disjoint, InSlot, At, Convert, StoreTo;
    var off, r := e.off, e.r;
    var t := lay[off];
    var cr, cc, tail := GenExpr(r, lay, n), Convert(TypeOf(r, lay), t), [Lea(R1, R7, off), StoreTo(t)];
    AtSplit(p, m.pc, cr, cc + tail);
    AtSplit(p, m.pc + |cr|, cc, tail);
    c := ExprOk(low, p, r, lay, n, env, m);
    c := ThenConvert(low, p, Running(m), r, lay, n, env, m, c, t);
    if c.Running? {
      c := AssignStore(low, p, lay, Eval(r, lay, env).env, m, c.m, off, t.Wrap(Eval(r, lay, env).v));
    }
  }

  lemma AssignStore(low: nat, p: Program, lay: Layout, env1: Env, m: Cpu, m1: Cpu, off: int, v: int) returns (c: Config)
    requires low <= m.sp && off in lay && lay[off].Has(v) && Models(lay, env1, m1) && Keeps(low, lay, m, m1)
    requires Runs(p, Running(m), Running(m1)) && m1.regs.r0 == Repr(v)
    requires At(p, m1.pc, [Lea(R1, R7, off), StoreTo(lay[off])])
    ensures Runs(p, Running(m), c)
    ensures Arrived(low, lay, m, c, m1.pc + 2, env1[off := v]) && c.m.regs.r0 == Repr(v)
  {
    hide Runs, Slot, Disjoint, InSlot, At, StoreTo;
    var tail := [Lea(R1, R7, off), StoreTo(lay[off])];
    AtIndex(p, m1.pc, tail, 0);
    AtIndex(p, m1.pc, tail, 1);
    SlotAddress(lay, env1, m1, off);
    StepLea(p, Running(m), m1, R1, R7, off);
    var m2 := SetReg(m1, R1, m1.regs.r7 + off).m;
    ArrivedScratch(low, lay, env1, m, m1, m2);
    var m3 := StoreLocal(low, p, Running(m), lay, env1, m2, off, v);
    c := Running(m3);
    KeepsTrans(low, lay, m, m2, m3);
  }

  /** The four instructions that save the address and the old value of the local. */
  lemma OpAssignStart(low: nat, p: Program, lay: Layout, env: Env, m: Cpu, off: int) returns (m4: Cpu)
    requires Models(lay, env, m) && off in lay && low + 8 <= m.sp
    requires At(p, m.pc, [Lea(R0, R7, off), Push(R0), LoadFrom(lay[off], R0, 0), Push(R0)])
    ensures Runs(p, Running(m), Running(m4)) && m4.pc == m.pc + 4
    ensures Models(lay, env, m4) && m4.sp == m.sp - 8 && |m4.mem| == |m.mem|
    ensures m4.regs == m.regs.(r0 := m4.regs.r0)
    ensures Rd4(m4.mem, m.sp - 8) == Repr(env[off])
    ensures Rd4(m4.mem, m.sp - 4) == m.regs.r7 + off
    ensures forall a :: (m.sp <= a < |m.mem| || 0 <= a < low) ==> m4.mem[a] == m.mem[a]
  {
    hide Runs, Slot, Disjoint, InSlot, At, Rd4, Wr, LoadFrom;
    var code := [Lea(R0, R7, off), Push(R0), LoadFrom(lay[off], R0, 0), Push(R0)];
    AtIndex(p, m.pc, code, 0);
    AtIndex(p, m.pc, code, 1);
    AtIndex(p, m.pc, code, 2);
    AtIndex(p, m.pc, code, 3);
    SlotAddress(lay, env, m, off);
    RunsRefl(p, Running(m));
    KeepsSelf(low, lay, m);
    StepLea(p, Running(m), m, R0, R7, off);
    var m1 := SetReg(m, R0, m.regs.r7 + off).m;
    ArrivedScratch(low, lay, env, m, m, m1);
    var m2 := Pushed(m1);
    PushR0(p, Running(m), m1);
    PushModels(low, lay, env, m1);
    assert Ea(m2.regs.r0, 0) == m2.regs.r7 + off;
    LoadLocal(p, Running(m), lay, env, m2, off, R0, 0);
    var m3 := Next(m2).(regs := m2.regs.(r0 := Repr(env[off])));
    KeepsSelf(low, lay, m2);
    ArrivedScratch(low, lay, env, m2, m2, m3);
    m4 := Pushed(m3);
    PushR0(p, Running(m), m3);
    PushModels(low, lay, env, m3);
    SameRead4(m4.mem, m3.mem, m.sp - 4);
  }

  lemma SameRead4(m1: seq<Byte>, m2: seq<Byte>, a: nat)
    requires a + 4 <= |m1| && a + 4 <= |m2|
    requires forall i :: a <= i < a + 4 ==> m1[i] == m2[i]
    ensures Rd4(m1, a) == Rd4(m2, a)
  {
    SameRead(m1, m2, a, 4);
  }

  /** Operands into place, then the operator. */
  lemma OpAssignCompute(p: Program, op: BinOp, bt: Ty, a: Config, m5: Cpu, x: int, y: int) returns (c: Config)
    requires bt.CInt? && At(p, m5.pc, [Move(R1, R0), Pop(R0), BinInstr(op, bt.uns)])
    requires Runs(p, a, Running(m5)) && m5.sp + 4 <= |m5.mem| && m5.sp + 4 < WORD_MOD
    requires m5.regs.r0 == Repr(y) && Rd4(m5.mem, m5.sp) == Repr(x)
    ensures Runs(p, a, c)
    ensures match Apply(op, bt, x, y)
      case None => c == Trapped(VEC_DIV)
      case Some(v) =>
        && c.Running? && c.m.pc == m5.pc + 3 && c.m.mem == m5.mem && c.m.sp == m5.sp + 4
        && c.m.regs == m5.regs.(r0 := Repr(v), r1 := Repr(y))
  {
    hide Runs, At, Rd4, Apply, BinInstr;
    var mid := [Move(R1, R0), Pop(R0), BinInstr(op, bt.uns)];
    assert mid == [Move(R1, R0), Pop(R0)] + [BinInstr(op, bt.uns)];
    AtSplit(p, m5.pc, [Move(R1, R0), Pop(R0)], [BinInstr(op, bt.uns)]);
    MoveAndPop(p, a, m5);
    AtIndex(p, m5.pc, mid, 2);
    c := BinStep(p, a, Popped(m5), op, bt, x, y);
  }

  /** Convert, take the address back, store. */
  lemma OpAssignFinish(low: nat, p: Program, lay: Layout, env: Env, env1: Env, m: Cpu, m4: Cpu, m5: Cpu, m8: Cpu,
        off: int, x: int)
    returns (c: Config)
    requires off in lay && Models(lay, env, m) && Models(lay, env1, m5) && Keeps(low, lay, m4, m5)
    requires low + 8 <= m.sp && m4.sp == m.sp - 8 && |m4.mem| == |m.mem| && m4.regs == m.regs.(r0 := m4.regs.r0)
    requires forall a :: (m.sp <= a < |m.mem| || 0 <= a < low) ==> m4.mem[a] == m.mem[a]
    requires Runs(p, Running(m), Running(m8)) && m8.mem == m5.mem && m8.sp == m5.sp + 4
    requires m8.regs == m5.regs.(r0 := Repr(x), r1 := m8.regs.r1)
    requires Rd4(m8.mem, m8.sp) == m.regs.r7 + off
    requires At(p, m8.pc, Convert(CInt(false), lay[off]) + [Pop(R1), StoreTo(lay[off])])
    ensures Runs(p, Running(m), c)
    ensures Arrived(low, lay, m, c, m8.pc + |Convert(CInt(false), lay[off])| + 2, env1[off := lay[off].Wrap(x)])
    ensures c.m.regs.r0 == Repr(lay[off].Wrap(x))
  {
    hide Runs, Slot, Disjoint, InSlot, At, Rd4, Convert, StoreTo;
    var t := lay[off];
    var cc, tail := Convert(CInt(false), t), [Pop(R1), StoreTo(t)];
    AtSplit(p, m8.pc, cc, tail);
    var m9 := ConvertPattern(p, Running(m), t, m8, x);
    AtIndex(p, m9.pc, tail, 0);
    AtIndex(p, m9.pc, tail, 1);
    StepPop(p, Running(m), m9, R1);
    var m10 := Next(m9).(sp := m9.sp + 4, regs := m9.regs.(r1 := m.regs.r7 + off));
    PopModels(low, lay, env, env1, m, m4, m5, m10);
    var m11 := StoreLocal(low, p, Running(m), lay, env1, m10, off, t.Wrap(x));
    KeepsTrans(low, lay, m, m10, m11);
    c := Running(m11);
  }

  lemma {:induction false} OpAssignOk(low: nat, p: Program, e: Expr, lay: Layout, n: nat, env: Env, m: Cpu)
    returns (c: Config)
    requires e.OpAssign? && WellFormed(e, lay) && CastsFit(e)
    requires Ready(low, p, GenExpr(e, lay, n), lay, env, m, Need(e, lay))
    ensures Runs(p, Running(m), c) && ExprDone(low, e, lay, n, env, m, c)
    decreases e, 0, 0
  {
    hide Runs, Slot, Disjoint, InSlot, At, Rd4, Wr, Convert, Apply, LoadFrom, StoreTo, BinInstr;
    var op, off, r := e.op, e.off, e.r;
    var t := lay[off];
    var bt := BinType(op, t, TypeOf(r, lay));
    var head := [Lea(R0, R7, off), Push(R0), LoadFrom(t, R0, 0), Push(R0)];
    var cr, mid := GenExpr(r, lay, n), [Move(R1, R0), Pop(R0), BinInstr(op, bt.uns)];
    var rest := Convert(CInt(false), t) + [Pop(R1), StoreTo(t)];
    AtSplit(p, m.pc, head, cr + (mid + rest));
    AtSplit(p, m.pc + 4, cr, mid + rest);
    AtSplit(p, m.pc + 4 + |cr|, mid, rest);
    var m4 := OpAssignStart(low, p, lay, env, m, off);
    c := ExprOk(low, p, r, lay, n, env, m4);
    RunsTrans(p, Running(m), Running(m4), c);
    if c.Running? {
      c := OpAssignRest(low, p, lay, env, Eval(r, lay, env).env, m, m4, c.m, op, bt, off, Eval(r, lay, env).v);
    }
  }

  lemma OpAssignRest(low: nat, p: Program, lay: Layout, env: Env, env1: Env, m: Cpu, m4: Cpu, m5: Cpu, op: BinOp,
        bt: Ty, off: int, y: int)
    returns (c: Config)
    requires off in lay && bt.CInt? && Models(lay, env, m) && Models(lay, env1, m5) && Keeps(low, lay, m4, m5)
    requires low + 8 <= m.sp && m4.sp == m.sp - 8 && |m4.mem| == |m.mem| && m4.regs == m.regs.(r0 := m4.regs.r0)
    requires forall a :: (m.sp <= a < |m.mem| || 0 <= a < low) ==> m4.mem[a] == m.mem[a]
    requires Rd4(m4.mem, m.sp - 8) == Repr(env[off]) && Rd4(m4.mem, m.sp - 4) == m.regs.r7 + off
    requires Runs(p, Running(m), Running(m5)) && m5.regs.r0 == Repr(y)
    requires At(p, m5.pc, [Move(R1, R0), Pop(R0), BinInstr(op, bt.uns)])
    requires At(p, m5.pc + 3, Convert(CInt(false), lay[off]) + [Pop(R1), StoreTo(lay[off])])
    ensures Runs(p, Running(m), c)
    ensures match Apply(op, bt, env[off], y)
      case None => c == Trapped(VEC_DIV)
      case Some(x) =>
        && Arrived(low, lay, m, c, m5.pc + 3 + |Convert(CInt(false), lay[off])| + 2, env1[off := lay[off].Wrap(x)])
        && c.m.regs.r0 == Repr(lay[off].Wrap(x))
  {
    hide Runs, Slot, Disjoint, InSlot, At, Rd4, Convert, Apply, StoreTo, BinInstr;
    PushedStays(low, lay, env, m, m4, m5, m.sp - 8);
    PushedStays(low, lay, env, m, m4, m5, m.sp - 4);
    c := OpAssignCompute(p, op, bt, Running(m), m5, env[off], y);
    if c.Running? {
      c := OpAssignFinish(low, p, lay, env, env1, m, m4, m5, c.m, off, Apply(op, bt, env[off], y).value);
    }
  }

  // ---- increment and decrement ----

  /** Address into R2 (and R1), old value into R0. */
  lemma IncDecStart(low: nat, p: Program, lay: Layout, env: Env, m: Cpu, off: int) returns (m4: Cpu)
    requires Models(lay, env, m) && off in lay
    requires At(p, m.pc, [Lea(R0, R7, off), Move(R1, R0), Move(R2, R0), LoadFrom(lay[off], R0, 0)])
    ensures Runs(p, Running(m), Running(m4)) && m4.pc == m.pc + 4 && Scratch(m, m4)
    ensures m4.regs.r0 == Repr(env[off]) && m4.regs.r2 == m.regs.r7 + off
  {
    hide Runs, Slot, Disjoint, InSlot, At, LoadFrom;
    var code := [Lea(R0, R7, off), Move(R1, R0), Move(R2, R0), LoadFrom(lay[off], R0, 0)];
    AtIndex(p, m.pc, code, 0);
    AtIndex(p, m.pc, code, 1);
    AtIndex(p, m.pc, code, 2);
    AtIndex(p, m.pc, code, 3);
    SlotAddress(lay, env, m, off);
    RunsRefl(p, Running(m));
    KeepsSelf(low, lay, m);
    StepLea(p, Running(m), m, R0, R7, off);
    var m1 := SetReg(m, R0, m.regs.r7 + off).m;
    StepMove(p, Running(m), m1, R1, R0);
    var m2 := SetReg(m1, R1, m1.regs.r0).m;
    StepMove(p, Running(m), m2, R2, R0);
    var m3 := SetReg(m2, R2, m2.regs.r0).m;
    ArrivedScratch(low, lay, env, m, m, m3);
    assert Ea(m3.regs.r0, 0) == m3.regs.r7 + off;
    LoadLocal(p, Running(m), lay, env, m3, off, R0, 0);
    m4 := Next(m3).(regs := m3.regs.(r0 := Repr(env[off])));
  }

  function Bump(dec: bool, k: Word): Instr {
    if dec then SubImm(R0, k) else AddImm(R0, k)
  }

  function Bumped(dec: bool, k: Word, v: int): int {
    if dec then v - k else v + k
  }

  lemma BumpStep(p: Program, a: Config, m: Cpu, dec: bool, k: Word, v: int) returns (m1: Cpu)
    requires Reaches(p, a, m, Bump(dec, k)) && m.regs.r0 == Repr(v)
    ensures Runs(p, a, Running(m1)) && Scratch(m, m1) && m1.pc == m.pc + 1
    ensures m1.regs == m.regs.(r0 := Repr(Bumped(dec, k, v)))
  {
    hide Runs, Repr, Nzcv;
    ReprAdd(v, k);
    WordRepr(k);
    if dec {
      StepSubImm(p, a, m, R0, k);
      var (r, f) := SubFlags(m.regs.r0, k);
      m1 := SetRegFlags(m, R0, r, f.(v := false)).m;
    } else {
      StepAddImm(p, a, m, R0, k);
      var (r, f) := AddFlags(m.regs.r0, k);
      m1 := SetRegFlags(m, R0, r, f.(v := false)).m;
    }
  }

  /** Add or subtract, convert, store. */
  lemma BumpOk(low: nat, p: Program, a: Config, lay: Layout, env: Env, m: Cpu, off: int, dec: bool, k: Word)
    returns (m': Cpu)
    requires Runs(p, a, Running(m)) && Models(lay, env, m) && low <= m.sp && off in lay
    requires m.regs.r0 == Repr(env[off]) && m.regs.r2 == m.regs.r7 + off
    requires At(p, m.pc, [Bump(dec, k)] + (Convert(CInt(false), lay[off]) + [Move(R1, R2), StoreTo(lay[off])]))
    ensures var v := lay[off].Wrap(Bumped(dec, k, env[off]));
      && Runs(p, a, Running(m')) && m'.pc == m.pc + 3 + |Convert(CInt(false), lay[off])|
      && Models(lay, env[off := v], m') && Keeps(low, lay, m, m')
      && m'.regs == m.regs.(r0 := Repr(v), r1 := m.regs.r2)
  {
    hide Runs, Slot, Disjoint, InSlot, At, Convert, StoreTo, Bump;
    var t := lay[off];
    var x := Bumped(dec, k, env[off]);
    var cc, tail := Convert(CInt(false), t), [Move(R1, R2), StoreTo(t)];
    AtSplit(p, m.pc, [Bump(dec, k)], cc + tail);
    AtSplit(p, m.pc + 1, cc, tail);
    AtIndex(p, m.pc, [Bump(dec, k)], 0);
    var m1 := BumpStep(p, a, m, dec, k, env[off]);
    var m2 := ConvertPattern(p, a, t, m1, x);
    AtIndex(p, m2.pc, tail, 0);
    AtIndex(p, m2.pc, tail, 1);
    StepMove(p, a, m2, R1, R2);
    var m3 := SetReg(m2, R1, m2.regs.r2).m;
    KeepsSelf(low, lay, m);
    ArrivedScratch(low, lay, env, m, m, m3);
    m' := StoreLocal(low, p, a, lay, env, m3, off, t.Wrap(x));
    KeepsTrans(low, lay, m, m3, m');
  }

  lemma IncDecOk(low: nat, p: Program, e: Expr, lay: Layout, n: nat, env: Env, m: Cpu) returns (c: Config)
    requires e.IncDec? && WellFormed(e, lay)
    requires Ready(low, p, GenExpr(e, lay, n), lay, env, m, Need(e, lay))
    ensures Runs(p, Running(m), c) && ExprDone(low, e, lay, n, env, m, c)
  {
    hide Runs, Slot, Disjoint, InSlot, At, Convert, StoreTo, LoadFrom;
    var off, dec, k := e.off, e.dec, e.amount;
    var t := lay[off];
    var head := [Lea(R0, R7, off), Move(R1, R0), Move(R2, R0), LoadFrom(t, R0, 0)];
    var op, cc, st := [Bump(dec, k)], Convert(CInt(false), t), [Move(R1, R2), StoreTo(t)];
    if e.post {
      assert GenExpr(e, lay, n) == head + ([Push(R0)] + ((op + (cc + st)) + [Pop(R0)]));
      c := PostOk(low, p, lay, env, m, off, dec, k);
    } else {
      assert GenExpr(e, lay, n) == head + (op + (cc + st));
      AtSplit(p, m.pc, head, op + (cc + st));
      var m4 := IncDecStart(low, p, lay, env, m, off);
      KeepsSelf(low, lay, m);
      ArrivedScratch(low, lay, env, m, m, m4);
      var m5 := BumpOk(low, p, Running(m), lay, env, m4, off, dec, k);
      KeepsTrans(low, lay, m, m4, m5);
      c := Running(m5);
    }
  }

  lemma PostOk(low: nat, p: Program, lay: Layout, env: Env, m: Cpu, off: int, dec: bool, k: Word) returns (c: Config)
    requires Models(lay, env, m) && off in lay && low + 4 <= m.sp
    requires At(p, m.pc, [Lea(R0, R7, off), Move(R1, R0), Move(R2, R0), LoadFrom(lay[off], R0, 0)]
                         + ([Push(R0)]
                            + (([Bump(dec, k)] + (Convert(CInt(false), lay[off]) + [Move(R1, R2), StoreTo(lay[off])]))
                               + [Pop(R0)])))
    ensures Runs(p, Running(m), c)
    ensures Arrived(low, lay, m, c, m.pc + 9 + |Convert(CInt(false), lay[off])|,
      env[off := lay[off].Wrap(Bumped(dec, k, env[off]))])
    ensures c.m.regs.r0 == Repr(env[off])
  {
    hide Runs, Slot, Disjoint, InSlot, At, Convert, StoreTo, LoadFrom, Bump, Rd4, Wr;
    var t := lay[off];
    var head := [Lea(R0, R7, off), Move(R1, R0), Move(R2, R0), LoadFrom(t, R0, 0)];
    var body := [Bump(dec, k)] + (Convert(CInt(false), t) + [Move(R1, R2), StoreTo(t)]);
    AtSplit(p, m.pc, head, [Push(R0)] + (body + [Pop(R0)]));
    AtSplit(p, m.pc + 4, [Push(R0)], body + [Pop(R0)]);
    AtSplit(p, m.pc + 5, body, [Pop(R0)]);
    var m4 := IncDecStart(low, p, lay, env, m, off);
    KeepsSelf(low, lay, m);
    ArrivedScratch(low, lay, env, m, m, m4);
    AtIndex(p, m4.pc, [Push(R0)], 0);
    PushR0(p, Running(m), m4);
    PushModels(low, lay, env, m4);
    var m5 := Pushed(m4);
    var m6 := BumpOk(low, p, Running(m), lay, env, m5, off, dec, k);
    PushedStays(low, lay, env, m, m5, m6, m5.sp);
    AtIndex(p, m6.pc, [Pop(R0)], 0);
    StepPop(p, Running(m), m6, R0);
    c := Running(Next(m6).(sp := m6.sp + 4, regs := m6.regs.Set(R0, Rd4(m6.mem, m6.sp))));
    PopModels(low, lay, env, env[off := t.Wrap(Bumped(dec, k, env[off]))], m, m5, m6, c.m);
  }

  // ---- control flow ----

  /** A label is a no-op. */
  lemma OverLabel(low: nat, p: Program, lay: Layout, env: Env, m: Cpu, m1: Cpu) returns (c: Config)
    requires Runs(p, Running(m), Running(m1)) && m1.pc < |p| && p[m1.pc].Label?
    requires Models(lay, env, m1) && Keeps(low, lay, m, m1)
    ensures c == Running(Next(m1)) && Runs(p, Running(m), c) && Arrived(low, lay, m, c, m1.pc + 1, env)
  {
    hide Runs, Slot, Disjoint, InSlot;
    StepLabel(p, Running(m), m1, p[m1.pc].id);
    c := Running(Next(m1));
    ArrivedScratch(low, lay, env, m, m1, c.m);
  }

  /** A jump to the label at index i, and over it. */
  lemma JumpOver(low: nat, p: Program, lay: Layout, env: Env, m: Cpu, m1: Cpu, l: nat, i: nat) returns (c: Config)
    requires UniqueLabels(p) && Reaches(p, Running(m), m1, Jump(l))
    requires i < |p| && p[i] == Label(l)
    requires Models(lay, env, m1) && Keeps(low, lay, m, m1)
    ensures c == Running(m1.(pc := i + 1)) && Runs(p, Running(m), c) && Arrived(low, lay, m, c, i + 1, env)
  {
    hide Runs, Slot, Disjoint, InSlot, UniqueLabels;
    FindUnique(p, l, i);
    StepJump(p, Running(m), m1, l);
    var m2 := m1.(pc := i);
    ArrivedScratch(low, lay, env, m, m1, m2);
    c := OverLabel(low, p, lay, env, m, m2);
  }

  function ArmCode(l: Expr, lay: Layout, n: nat, t: Ty): Code
    requires WellFormed(l, lay)
  {
    GenExpr(l, lay, n) + Convert(TypeOf(l, lay), t)
  }

  /** What GenExpr, Need and CastsFit say about ?:. */
  lemma TernaryParts(e: Expr, lay: Layout, n: nat)
    requires e.Ternary? && WellFormed(e, lay) && CastsFit(e)
    ensures WellFormed(e.c, lay) && WellFormed(e.l, lay) && WellFormed(e.r, lay)
    ensures CastsFit(e.c) && CastsFit(e.l) && CastsFit(e.r)
    ensures Need(e.c, lay) <= Need(e, lay) && Need(e.l, lay) <= Need(e, lay) && Need(e.r, lay) <= Need(e, lay)
    ensures
      var t, nl := TypeOf(e, lay), n + 2 + LabelsB(e.c, lay, false);
      GenExpr(e, lay, n)
      == GenBranch(e.c, lay, n + 2, n, false)
         + (ArmCode(e.l, lay, nl, t)
            + ([Jump(n + 1), Label(n)] + (ArmCode(e.r, lay, nl + LabelsE(e.l, lay), t) + [Label(n + 1)])))
  {
    hide GenExpr, GenBranch, LabelsE, LabelsB, TypeOf, Convert;
    TernaryCode(e, lay, n);
  }

  lemma TernaryValue(e: Expr, lay: Layout, env: Env)
    requires e.Ternary? && WellFormed(e, lay) && env.Keys == lay.Keys
    ensures Eval(e, lay, env) ==
      match Eval(e.c, lay, env)
      case DivTrap => DivTrap
      case Val(a, env1) =>
        match Eval(if a != 0 then e.l else e.r, lay, env1)
        case DivTrap => DivTrap
        case Val(b, env2) => Val(TypeOf(e, lay).Wrap(b), env2)
  {
  }

  lemma {:induction false} TernaryOk(low: nat, p: Program, e: Expr, lay: Layout, n: nat, env: Env, m: Cpu)
    returns (c: Config)
    requires e.Ternary? && WellFormed(e, lay) && CastsFit(e)
    requires Ready(low, p, GenExpr(e, lay, n), lay, env, m, Need(e, lay))
    ensures Runs(p, Running(m), c) && ExprDone(low, e, lay, n, env, m, c)
    decreases e, 0, 1
  {
    hide Runs, Models, Keeps, At, UniqueLabels, Convert, GenExpr, GenBranch, LabelsE, LabelsB, Need, CastsFit,
      WellFormed, TypeOf, Eval, ArmCode;
    var q, l, r, t := e.c, e.l, e.r, TypeOf(e, lay);
    ModelsTyped(lay, env, m);
    TernaryParts(e, lay, n);
    TernaryValue(e, lay, env);
    var nl := n + 2 + LabelsB(q, lay, false);
    var nr := nl + LabelsE(l, lay);
    var cq, tl, tr := GenBranch(q, lay, n + 2, n, false), ArmCode(l, lay, nl, t), ArmCode(r, lay, nr, t);
    var i1, i2 := TernaryPlaces(p, m.pc, n, cq, tl, tr);
    c := BranchOk(low, p, q, lay, n + 2, n, false, env, m);
    if c.Running? {
      var env1 := Eval(q, lay, env).env;
      if Eval(q, lay, env).v != 0 {
        ArrivedReady(low, p, tl, lay, m, c, m.pc + |cq|, env1, Need(l, lay));
        c := ArmOk(low, p, e, l, lay, nl, env1, m, c.m, t);
        if c.Running? {
          c := JumpOver(low, p, lay, Eval(l, lay, env1).env, m, c.m, n + 1, i2);
        }
      } else {
        c := OverLabel(low, p, lay, env1, m, c.m);
        ArrivedReady(low, p, tr, lay, m, c, i1 + 2, env1, Need(r, lay));
        c := ArmOk(low, p, e, r, lay, nr, env1, m, c.m, t);
        if c.Running? {
          c := OverLabel(low, p, lay, Eval(r, lay, env1).env, m, c.m);
        }
      }
    }
  }

  lemma TernaryPlaces(p: Program, base: nat, n: nat, cq: Code, tl: Code, tr: Code) returns (i1: nat, i2: nat)
    requires UniqueLabels(p) && At(p, base, cq + (tl + ([Jump(n + 1), Label(n)] + (tr + [Label(n + 1)]))))
    ensures i1 == base + |cq| + |tl| && i2 == i1 + 2 + |tr|
    ensures At(p, base, cq) && At(p, base + |cq|, tl) && At(p, i1 + 2, tr)
    ensures i1 < |p| && p[i1] == Jump(n + 1) && LabelAt(p, i1 + 1, n) && LabelAt(p, i2, n + 1)
  {
    hide UniqueLabels, At, Find;
    var mid := [Jump(n + 1), Label(n)];
    i1 := base + |cq| + |tl|;
    i2 := i1 + 2 + |tr|;
    AtSplit(p, base, cq, tl + (mid + (tr + [Label(n + 1)])));
    AtSplit(p, base + |cq|, tl, mid + (tr + [Label(n + 1)]));
    AtSplit(p, i1, mid, tr + [Label(n + 1)]);
    AtSplit(p, i1 + 2, tr, [Label(n + 1)]);
    AtIndex(p, i1, mid, 0);
    AtIndex(p, i1, mid, 1);
    AtIndex(p, i2, [Label(n + 1)], 0);
    FindUnique(p, n, i1 + 1);
    FindUnique(p, n + 1, i2);
  }

  /** One arm of ?:, converted to the common type. */
  lemma {:induction false} ArmOk(low: nat, p: Program, e: Expr, l: Expr, lay: Layout, n: nat, env1: Env, m: Cpu,
        m1: Cpu, t: Ty)
    returns (c: Config)
    requires l < e && WellFormed(l, lay) && CastsFit(l)
    requires Runs(p, Running(m), Running(m1)) && Keeps(low, lay, m, m1)
    requires Ready(low, p, ArmCode(l, lay, n, t), lay, env1, m1, Need(l, lay))
    ensures Runs(p, Running(m), c)
    ensures match Eval(l, lay, env1)
      case DivTrap => c == Trapped(VEC_DIV)
      case Val(v, env') =>
        && Arrived(low, lay, m, c, m1.pc + |ArmCode(l, lay, n, t)|, env')
        && c.m.regs.r0 == Repr(t.Wrap(v))
    decreases e, 0, 0
  {
    hide Runs, Slot, Disjoint, InSlot, At, UniqueLabels, Convert, Eval, GenExpr, Need, CastsFit, WellFormed, TypeOf;
    AtSplit(p, m1.pc, GenExpr(l, lay, n), Convert(TypeOf(l, lay), t));
    c := ExprOk(low, p, l, lay, n, env1, m1);
    RunsTrans(p, Running(m), Running(m1), c);
    c := ThenConvert(low, p, Running(m), l, lay, n, env1, m1, c, t);
    if c.Running? {
      ArrivedTrans(low, lay, m, m1, c, c.m.pc, Eval(l, lay, env1).env);
    }
  }

  lemma BoolValue(e: Expr, lay: Layout, env: Env)
    requires WellFormed(e, lay) && env.Keys == lay.Keys && IsBool(e) && Eval(e, lay, env).Val?
    ensures Eval(e, lay, env).v == 0 || Eval(e, lay, env).v == 1
  {
  }

  lemma BoolCode(e: Expr, lay: Layout, n: nat)
    requires WellFormed(e, lay) && IsBool(e)
    ensures GenExpr(e, lay, n)
            == GenBranch(e, lay, n + 2, n, true) + [LoadImm(R0, 0), Jump(n + 1), Label(n), LoadImm(R0, 1), Label(n + 1)]
    ensures Rank(e, true) < Rank(e, false)
  {
  }

  /** The value form of a condition: branch, then 0 or 1 in R0. */
  lemma {:induction false} BoolOk(low: nat, p: Program, e: Expr, lay: Layout, n: nat, env: Env, m: Cpu)
    returns (c: Config)
    requires IsBool(e) && WellFormed(e, lay) && CastsFit(e)
    requires Ready(low, p, GenExpr(e, lay, n), lay, env, m, Need(e, lay))
    ensures Runs(p, Running(m), c) && ExprDone(low, e, lay, n, env, m, c)
    decreases e, Rank(e, true), 1
  {
    hide Runs, Slot, Disjoint, InSlot, At, UniqueLabels, Eval, GenExpr, GenBranch, Need, CastsFit, WellFormed;
    var cq := GenBranch(e, lay, n + 2, n, true);
    var tail := [LoadImm(R0, 0), Jump(n + 1), Label(n), LoadImm(R0, 1), Label(n + 1)];
    BoolCode(e, lay, n);
    AtSplit(p, m.pc, cq, tail);
    var i := m.pc + |cq|;
    AtIndex(p, i, tail, 2);
    FindUnique(p, n, i + 2);
    c := BranchOk(low, p, e, lay, n + 2, n, true, env, m);
    if c.Running? {
      BoolValue(e, lay, env);
      c := BoolTail(low, p, lay, Eval(e, lay, env).env, n, m, c.m, i, Eval(e, lay, env).v);
    }
  }

  lemma BoolTail(low: nat, p: Program, lay: Layout, env1: Env, n: nat, m: Cpu, m1: Cpu, i: nat, v: int)
    returns (c: Config)
    requires UniqueLabels(p) && Runs(p, Running(m), Running(m1)) && Models(lay, env1, m1) && Keeps(low, lay, m, m1)
    requires At(p, i, [LoadImm(R0, 0), Jump(n + 1), Label(n), LoadImm(R0, 1), Label(n + 1)])
    requires v == 0 || v == 1
    requires m1.pc == if v == 0 then i else i + 2
    ensures Runs(p, Running(m), c) && Arrived(low, lay, m, c, i + 5, env1) && c.m.regs.r0 == Repr(v)
  {
    hide Runs, Slot, Disjoint, InSlot, At, UniqueLabels;
    var tail := [LoadImm(R0, 0), Jump(n + 1), Label(n), LoadImm(R0, 1), Label(n + 1)];
    AtIndex(p, i, tail, 0);
    AtIndex(p, i, tail, 1);
    AtIndex(p, i, tail, 2);
    AtIndex(p, i, tail, 3);
    AtIndex(p, i, tail, 4);
    if v == 0 {
      StepLoadImm(p, Running(m), m1, R0, 0);
      var m2 := SetReg(m1, R0, 0).m;
      ArrivedScratch(low, lay, env1, m, m1, m2);
      c := JumpOver(low, p, lay, env1, m, m2, n + 1, i + 4);
    } else {
      c := OverLabel(low, p, lay, env1, m, m1);
      var m2 := c.m;
      StepLoadImm(p, Running(m), m2, R0, 1);
      var m3 := SetReg(m2, R0, 1).m;
      ArrivedScratch(low, lay, env1, m, m2, m3);
      c := OverLabel(low, p, lay, env1, m, m3);
    }
  }

  // ---- conditions ----

  lemma {:induction false} BranchOk(low: nat, p: Program, e: Expr, lay: Layout, n: nat, lab: nat, when: bool,
        env: Env, m: Cpu)
    returns (c: Config)
    requires WellFormed(e, lay) && CastsFit(e)
    requires Ready(low, p, GenBranch(e, lay, n, lab, when), lay, env, m, Need(e, lay))
    ensures Runs(p, Running(m), c) && BranchDone(low, p, e, lay, n, lab, when, env, m, c)
    decreases e, Rank(e, true), 0
  {
    hide Runs, Models, At, UniqueLabels, Eval, GenBranch, Need, CastsFit, WellFormed, Arrived;
    match e
    case Compare(_, _, _) => c := CompareOk(low, p, e, lay, n, lab, when, env, m);
    case Not(_) => c := NotOk(low, p, e, lay, n, lab, when, env, m);
    case LogAnd(_, _) => c := LogicalOk(low, p, e, lay, n, lab, when, env, m);
    case LogOr(_, _) => c := LogicalOk(low, p, e, lay, n, lab, when, env, m);
    case _ => c := TestOk(low, p, e, lay, n, lab, when, env, m);
  }

  lemma {:induction false} NotOk(low: nat, p: Program, e: Expr, lay: Layout, n: nat, lab: nat, when: bool, env: Env,
        m: Cpu)
    returns (c: Config)
    requires e.Not? && WellFormed(e, lay) && CastsFit(e)
    requires Ready(low, p, GenBranch(e, lay, n, lab, when), lay, env, m, Need(e, lay))
    ensures Runs(p, Running(m), c) && BranchDone(low, p, e, lay, n, lab, when, env, m, c)
    decreases e, 0, 0
  {
    hide Runs, Models, At, UniqueLabels, Keeps;
    c := BranchOk(low, p, e.l, lay, n, lab, !when, env, m);
  }

  lemma TestCode(e: Expr, lay: Layout, n: nat, lab: nat, when: bool)
    requires WellFormed(e, lay) && !IsBool(e)
    ensures GenBranch(e, lay, n, lab, when) == GenExpr(e, lay, n) + [Test(R0, R0), Branch(if when then Ne else Eq, lab)]
    ensures Rank(e, false) < Rank(e, true)
  {
  }

  /** Any other expression: its value is compared with zero. */
  lemma {:induction false} TestOk(low: nat, p: Program, e: Expr, lay: Layout, n: nat, lab: nat, when: bool, env: Env,
        m: Cpu)
    returns (c: Config)
    requires !IsBool(e) && WellFormed(e, lay) && CastsFit(e)
    requires Ready(low, p, GenBranch(e, lay, n, lab, when), lay, env, m, Need(e, lay))
    ensures Runs(p, Running(m), c) && BranchDone(low, p, e, lay, n, lab, when, env, m, c)
    decreases e, Rank(e, false), 1
  {
    hide Runs, Models, Keeps, At, UniqueLabels, Eval, GenExpr, GenBranch, Need, CastsFit, WellFormed, TypeOf,
      Bitwise, Bits, Repr;
    var tail := [Test(R0, R0), Branch(if when then Ne else Eq, lab)];
    ModelsTyped(lay, env, m);
    TestCode(e, lay, n, lab, when);
    AtSplit(p, m.pc, GenExpr(e, lay, n), tail);
    c := ExprOk(low, p, e, lay, n, env, m);
    if c.Running? {
      var o := Eval(e, lay, env);
      EvalTyped(e, lay, env);
      ReprZero(TypeOf(e, lay), o.v);
      c := TestTail(low, p, lay, o.env, m, c.m, lab, when);
    }
  }

  /** The test of R0 and the branch behind it. */
  lemma TestTail(low: nat, p: Program, lay: Layout, env: Env, m: Cpu, m1: Cpu, lab: nat, when: bool) returns (c: Config)
    requires Runs(p, Running(m), Running(m1)) && Models(lay, env, m1) && Keeps(low, lay, m, m1)
    requires At(p, m1.pc, [Test(R0, R0), Branch(if when then Ne else Eq, lab)])
    ensures Runs(p, Running(m), c)
    ensures Arrived(low, lay, m, c, if (m1.regs.r0 != 0) == when then Find(p, lab) else m1.pc + 2, env)
  {
    hide Runs, Models, Keeps, At, Bitwise, Find;
    var tail := [Test(R0, R0), Branch(if when then Ne else Eq, lab)];
    AtIndex(p, m1.pc, tail, 0);
    AtIndex(p, m1.pc, tail, 1);
    TestSelf(m1.regs.r0);
    StepTest(p, Running(m), m1, R0, R0);
    var m2 := Next(m1).(flags := Nzcv(m1.regs.r0, false, false));
    StepBranch(p, Running(m), m2, if when then Ne else Eq, lab);
    c := Running(if Holds(if when then Ne else Eq, m2.flags) then m2.(pc := Find(p, lab)) else Next(m2));
    ArrivedScratch(low, lay, env, m, m1, c.m);
  }

  lemma TestSelf(w: Word)
    ensures Bitwise(BitAnd, w, w) == w
  {
    Pow2Of32();
    AndSelf(w, WORD_BITS);
  }

  lemma {:induction false} CompareOk(low: nat, p: Program, e: Expr, lay: Layout, n: nat, lab: nat, when: bool,
        env: Env, m: Cpu)
    returns (c: Config)
    requires e.Compare? && WellFormed(e, lay) && CastsFit(e)
    requires Ready(low, p, GenBranch(e, lay, n, lab, when), lay, env, m, Need(e, lay))
    ensures Runs(p, Running(m), c) && BranchDone(low, p, e, lay, n, lab, when, env, m, c)
    decreases e, 0, 1
  {
    hide Runs, Models, Keeps, At, UniqueLabels, GenOperands, Holds, CmpBranch, Related, Eval, TypeOf, Need, CastsFit,
      WellFormed, GenBranch, ArithConv, Ty.Wrap;
    ModelsTyped(lay, env, m);
    CompareParts(e, lay, n, lab, when);
    CompareValue(e, lay, env);
    var l, r := e.l, e.r;
    var t := ArithConv(TypeOf(l, lay), TypeOf(r, lay));
    var cond := CmpBranch(e.rel, t.uns, !when);
    var tail := [Cmp(R0, R1), Branch(cond, lab)];
    AtSplit(p, m.pc, GenOperands(e, lay, n), tail);
    c := OperandsOk(low, p, e, lay, n, env, m);
    if c.Running? {
      var m1 := c.m;
      var a, env1 := Eval(l, lay, env).v, Eval(l, lay, env).env;
      var b, env2 := Eval(r, lay, env1).v, Eval(r, lay, env1).env;
      AtIndex(p, m1.pc, tail, 0);
      AtIndex(p, m1.pc, tail, 1);
      c := CompareStep(low, p, lay, env2, m, m1, e.rel, t, a, b, lab, when);
    }
  }

  lemma CompareParts(e: Expr, lay: Layout, n: nat, lab: nat, when: bool)
    requires e.Compare? && WellFormed(e, lay) && CastsFit(e)
    ensures WellFormed(e.l, lay) && WellFormed(e.r, lay) && ArithConv(TypeOf(e.l, lay), TypeOf(e.r, lay)).CInt?
    ensures GenBranch(e, lay, n, lab, when) == GenOperands(e, lay, n)
      + [Cmp(R0, R1), Branch(CmpBranch(e.rel, ArithConv(TypeOf(e.l, lay), TypeOf(e.r, lay)).uns, !when), lab)]
  {
    hide GenOperands, CmpBranch;
  }

  lemma CompareValue(e: Expr, lay: Layout, env: Env)
    requires e.Compare? && WellFormed(e, lay) && WellFormed(e.l, lay) && WellFormed(e.r, lay) && Typed(lay, env)
    ensures Eval(e.l, lay, env).Val? ==> Eval(e.l, lay, env).env.Keys == lay.Keys
    ensures var t, o := ArithConv(TypeOf(e.l, lay), TypeOf(e.r, lay)), Eval(e.l, lay, env);
      Eval(e, lay, env) == if o.DivTrap? then DivTrap else
        var q := Eval(e.r, lay, o.env);
        if q.DivTrap? then DivTrap else Val(if Related(e.rel, t.Wrap(o.v), t.Wrap(q.v)) then 1 else 0, q.env)
  {
    hide TypeOf, Related, ArithConv, Ty.Wrap;
  }

  lemma CompareStep(low: nat, p: Program, lay: Layout, env: Env, m: Cpu, m1: Cpu, rel: Rel, t: Ty, a: int, b: int,
        lab: nat, when: bool)
    returns (c: Config)
    requires t.CInt? && Reaches(p, Running(m), m1, Cmp(R0, R1)) && Models(lay, env, m1) && Keeps(low, lay, m, m1)
    requires m1.pc + 1 < |p| && p[m1.pc + 1] == Branch(CmpBranch(rel, t.uns, !when), lab)
    requires m1.regs.r0 == Repr(a) && m1.regs.r1 == Repr(b)
    ensures Runs(p, Running(m), c)
    ensures Arrived(low, lay, m, c, if Related(rel, t.Wrap(a), t.Wrap(b)) == when then Find(p, lab) else m1.pc + 2, env)
  {
    hide Runs, Models, Keeps, SubFlags, Holds, CmpBranch, Related, Find, Repr, Ty.Wrap;
    var cond := CmpBranch(rel, t.uns, !when);
    CompareRepr(rel, t, a, b, !when);
    StepCmp(p, Running(m), m1, R0, R1);
    var m2 := Next(m1).(flags := SubFlags(m1.regs.r0, m1.regs.r1).1);
    StepBranch(p, Running(m), m2, cond, lab);
    c := Running(if Holds(cond, m2.flags) then m2.(pc := Find(p, lab)) else Next(m2));
    ArrivedScratch(low, lay, env, m, m1, c.m);
  }

  /** The truth of the left operand that decides && or ||. */
  predicate Decider(e: Expr)
    requires e.LogAnd? || e.LogOr?
  {
    e.LogOr?
  }

  /** && and ||, with and without the skip label. */
  lemma LogicalParts(e: Expr, lay: Layout, n: nat, lab: nat, when: bool)
    requires (e.LogAnd? || e.LogOr?) && WellFormed(e, lay) && CastsFit(e)
    ensures WellFormed(e.l, lay) && WellFormed(e.r, lay) && CastsFit(e.l) && CastsFit(e.r)
    ensures Need(e.l, lay) <= Need(e, lay) && Need(e.r, lay) <= Need(e, lay)
    ensures var stop := Decider(e); var skip := when != stop;
      var nl, ll := if skip then n + 1 else n, if skip then n else lab;
      GenBranch(e, lay, n, lab, when)
      == GenBranch(e.l, lay, nl, ll, stop)
         + (GenBranch(e.r, lay, nl + LabelsB(e.l, lay, stop), lab, when) + (if skip then [Label(n)] else []))
  {
    LogicalShape(e, lay, n, lab, when);
  }

  lemma LogicalValue(e: Expr, lay: Layout, env: Env)
    requires (e.LogAnd? || e.LogOr?) && WellFormed(e, lay) && env.Keys == lay.Keys
    ensures
      match Eval(e.l, lay, env)
      case DivTrap => Eval(e, lay, env) == DivTrap
      case Val(a, env1) =>
        if (a != 0) == Decider(e) then Eval(e, lay, env) == Val(Truth(Decider(e)), env1)
        else
          match Eval(e.r, lay, env1)
          case DivTrap => Eval(e, lay, env) == DivTrap
          case Val(b, env2) => Eval(e, lay, env) == Val(Truth(b != 0), env2)
  {
  }

  lemma LogicalPlaces(p: Program, base: nat, cl: Code, cr: Code, n: nat, skip: bool)
    requires UniqueLabels(p) && At(p, base, cl + (cr + if skip then [Label(n)] else []))
    ensures At(p, base, cl) && At(p, base + |cl|, cr) && (skip ==> LabelAt(p, base + |cl| + |cr|, n))
  {
    hide UniqueLabels, At;
    var tail: Code := if skip then [Label(n)] else [];
    AtThree(p, base, cl, cr, tail);
    if skip {
      AtIndex(p, base + |cl| + |cr|, tail, 0);
      FindUnique(p, n, base + |cl| + |cr|);
    }
  }

  lemma {:induction false} LogicalOk(low: nat, p: Program, e: Expr, lay: Layout, n: nat, lab: nat, when: bool,
        env: Env, m: Cpu)
    returns (c: Config)
    requires (e.LogAnd? || e.LogOr?) && WellFormed(e, lay) && CastsFit(e)
    requires Ready(low, p, GenBranch(e, lay, n, lab, when), lay, env, m, Need(e, lay))
    ensures Runs(p, Running(m), c) && BranchDone(low, p, e, lay, n, lab, when, env, m, c)
    decreases e, 0, 1
  {
    hide Runs, Models, Keeps, At, UniqueLabels, GenBranch, LabelsB, Need, CastsFit, WellFormed, Eval, Decider, Find,
      LabelsE, GenExpr, TypeOf;
    var l, r, stop := e.l, e.r, Decider(e);
    var skip := when != stop;
    ModelsTyped(lay, env, m);
    LogicalParts(e, lay, n, lab, when);
    LogicalValue(e, lay, env);
    var nl, ll := if skip then n + 1 else n, if skip then n else lab;
    var nr := nl + LabelsB(l, lay, stop);
    var cl, cr := GenBranch(l, lay, nl, ll, stop), GenBranch(r, lay, nr, lab, when);
    var i := m.pc + |cl| + |cr|;
    LogicalPlaces(p, m.pc, cl, cr, n, skip);
    c := BranchOk(low, p, l, lay, nl, ll, stop, env, m);
    if c.Running? {
      var m1, env1 := c.m, Eval(l, lay, env).env;
      if (Eval(l, lay, env).v != 0) == stop {
        if skip {
          c := OverLabel(low, p, lay, env1, m, m1);
        }
      } else {
        c := RightOk(low, p, r, lay, nr, lab, when, env1, m, c, if skip then i + 1 else i);
      }
    }
  }

  /** The right operand of && or ||, after the left one arrived at its code; it goes on at after. */
  lemma {:induction false} RightOk(low: nat, p: Program, r: Expr, lay: Layout, nr: nat, lab: nat, when: bool,
        env1: Env, m: Cpu, c1: Config, after: nat)
    returns (c: Config)
    requires WellFormed(r, lay) && CastsFit(r) && c1.Running? && Runs(p, Running(m), c1)
    requires Arrived(low, lay, m, c1, c1.m.pc, env1) && UniqueLabels(p) && low + 4 * Need(r, lay) <= m.sp
    requires At(p, c1.m.pc, GenBranch(r, lay, nr, lab, when))
    requires var i := c1.m.pc + |GenBranch(r, lay, nr, lab, when)|;
      after == i || (after == i + 1 && i < |p| && p[i].Label?)
    ensures Runs(p, Running(m), c)
    ensures match Eval(r, lay, env1)
      case DivTrap => c == Trapped(VEC_DIV)
      case Val(b, env2) => Arrived(low, lay, m, c, if (b != 0) == when then Find(p, lab) else after, env2)
    decreases r, 3, 0
  {
    hide Runs, Models, Keeps, At, UniqueLabels, GenBranch, Need, CastsFit, WellFormed, Eval;
    var m1 := c1.m;
    ArrivedReady(low, p, GenBranch(r, lay, nr, lab, when), lay, m, c1, m1.pc, env1, Need(r, lay));
    ModelsTyped(lay, env1, m1);
    c := BranchOk(low, p, r, lay, nr, lab, when, env1, m1);
    RunsTrans(p, Running(m), Running(m1), c);
    if c.Running? {
      var env2 := Eval(r, lay, env1).env;
      ArrivedTrans(low, lay, m, m1, c, c.m.pc, env2);
      if (Eval(r, lay, env1).v != 0) != when && after != c.m.pc {
        c := OverLabel(low, p, lay, env2, m, c.m);
      }
    }
  }
}
