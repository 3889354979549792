/** A whole compiled function: frame set-up, body, and return to the caller. */
module Functions {
  import opened Wrappers
  import opened Words
  import opened Machine
  import opened CLang
  import opened CodeGen
  import opened Values
  import opened Frames
  import opened CompileExpr
  import opened Statements
  import opened CompileStmt
  import opened Labels

  datatype Func = Func(body: Stmt, lay: Layout, ret: Ty, frame: nat, isMain: bool)

  /** Locals lie in the frame below R7; parameters lie above the saved R7 and the return address. */
  ghost predicate FuncOk(f: Func, n: nat) {
    && StmtOk(f.body, f.lay) && Disjoint(f.lay)
    && TreeDistinct(f.body) && Below(TreeLabels(f.body), n)
    && forall off :: off in f.lay ==> (0 <= off + f.frame && off + f.lay[off].Size() <= 0) || 8 <= off
  }

  function Prologue(f: Func): Code {
    [Push(R7), MovSp(R7)] + if f.frame > 0 then [AddSp(0 - f.frame)] else []
  }

  function Epilogue(f: Func, n: nat): Code {
    (if f.isMain then [LoadImm(R0, 0)] else []) + [Label(n), SetSp(R7), Pop(R7), Ret]
  }

  function GenFunc(f: Func, n: nat): Code
    requires StmtOk(f.body, f.lay)
  {
    Prologue(f) + (GenStmt(f.body, Context(f.lay, f.ret, n), n + 1) + Epilogue(f, n))
  }

  /** No label of a function is defined twice. */
  lemma FuncLabels(f: Func, n: nat)
    requires FuncOk(f, n)
    ensures UniqueLabels(GenFunc(f, n))
  {
    hide Range, GenStmt, LabelsS;
    var x := Context(f.lay, f.ret, n);
    var ids := TreeLabels(f.body) + Range(n + 1, n + 1 + LabelsS(f.body, f.lay));
    StmtLabels(f.body, x, n + 1);
    assert Owns(Epilogue(f, n), {n});
    OwnsConcat(GenStmt(f.body, x, n + 1), Epilogue(f, n), ids, {n});
    OwnsPlain(GenStmt(f.body, x, n + 1) + Epilogue(f, n), Prologue(f), ids + {n});
  }

  /** The value a local of type t has when its bytes read as w. */
  lemma Decoded(t: Ty, w: nat)
    requires w < Pow2(8 * t.Size())
    ensures t.Wrap(w) % Pow2(8 * t.Size()) == w
  {
    CardIsPow2(t);
  }

  /** On entry: the caller's stack pointer at the return address, RAM below it for the frame. */
  ghost predicate Entry(f: Func, n: nat, m: Cpu) {
    && FuncOk(f, n)
    && 4 + f.frame + 4 * NeedS(f.body, f.lay) <= m.sp && m.sp + 4 < WORD_MOD
    && m.sp + 4 <= |m.mem| <= WORD_MOD
    && forall off :: off in f.lay ==> m.sp - 4 + off + f.lay[off].Size() <= |m.mem|
  }

  /** The locals on entry: parameters from the caller, the rest whatever the stack held. */
  function EntryEnv(f: Func, n: nat, m: Cpu): (env: Env)
    requires Entry(f, n, m)
    ensures env.Keys == f.lay.Keys
  {
    map off | off in f.lay :: f.lay[off].Wrap(Rd(m.mem, m.sp - 4 + off, f.lay[off].Size()))
  }

  function Saved(f: Func, m: Cpu): Cpu
    requires 4 + f.frame <= m.sp <= |m.mem|
  {
    m.(pc := m.pc + |Prologue(f)|, sp := m.sp - 4 - f.frame, mem := Wr(m.mem, m.sp - 4, m.regs.r7, 4),
       regs := m.regs.(r7 := m.sp - 4))
  }

  lemma PrologueRuns(p: Program, f: Func, m: Cpu)
    requires 4 + f.frame <= m.sp <= |m.mem| && At(p, m.pc, Prologue(f))
    ensures Runs(p, Running(m), Running(Saved(f, m)))
  {
    hide Runs, Wr, At;
    var a := Running(m);
    RunsRefl(p, a);
    AtIndex(p, m.pc, Prologue(f), 0);
    AtIndex(p, m.pc, Prologue(f), 1);
    StepPush(p, a, m, R7);
    var m1 := Next(m).(sp := m.sp - 4, mem := Wr(m.mem, m.sp - 4, m.regs.r7, 4));
    StepMovSp(p, a, m1, R7);
    var m2 := Next(m1).(regs := m1.regs.(r7 := m1.sp));
    if f.frame > 0 {
      AtIndex(p, m.pc, Prologue(f), 2);
      StepAddSp(p, a, m2, 0 - f.frame);
      assert Repr(m2.sp - f.frame) == m2.sp - f.frame;
    }
  }

  lemma StepMovSp(p: Program, a: Config, m: Cpu, d: Reg)
    requires Reaches(p, a, m, MovSp(d))
    ensures Runs(p, a, SetReg(m, d, m.sp))
  {
    One(p, a, m);
  }

  lemma StepAddSp(p: Program, a: Config, m: Cpu, k: int)
    requires Reaches(p, a, m, AddSp(k))
    ensures Runs(p, a, Running(Next(m).(sp := Repr(m.sp + k))))
  {
    One(p, a, m);
  }

  lemma StepSetSp(p: Program, a: Config, m: Cpu, s: Reg)
    requires Reaches(p, a, m, SetSp(s))
    ensures Runs(p, a, Running(Next(m).(sp := m.regs.Get(s))))
  {
    One(p, a, m);
  }

  lemma StepRet(p: Program, a: Config, m: Cpu)
    requires Reaches(p, a, m, Ret) && m.sp + 4 <= |m.mem| && m.sp + 4 < WORD_MOD
    ensures Runs(p, a, Left(m.(pc := Rd4(m.mem, m.sp), sp := m.sp + 4)))
  {
    hide Runs, Rd4;
    assert Repr(m.sp + 4) == m.sp + 4;
    One(p, a, m);
  }

  /** After the prologue the frame holds the entry values of all locals. */
  lemma EntryModels(f: Func, n: nat, m: Cpu)
    requires Entry(f, n, m)
    ensures Models(f.lay, EntryEnv(f, n, m), Saved(f, m))
    ensures Rd4(Saved(f, m).mem, m.sp - 4) == m.regs.r7
    ensures forall a :: (m.sp <= a < |m.mem| || 0 <= a < m.sp - 4) ==> Saved(f, m).mem[a] == m.mem[a]
  {
    hide Rd, Rd4, StmtOk, TreeDistinct, TreeLabels, NeedS, Slot, Disjoint, Prologue;
    var env, m1 := EntryEnv(f, n, m), Saved(f, m);
    ReadBack4(m.mem, m.sp - 4, m.regs.r7);
    forall off | off in f.lay
      ensures Slot(f.lay, env, m1, off)
    {
      EntrySlot(f, n, m, off);
    }
  }

  lemma EntrySlot(f: Func, n: nat, m: Cpu, off: int)
    requires Entry(f, n, m) && off in f.lay
    ensures Slot(f.lay, EntryEnv(f, n, m), Saved(f, m), off)
  {
    hide Rd, StmtOk, TreeDistinct, TreeLabels, NeedS, Prologue, Disjoint;
    var t := f.lay[off];
    SameRead(m.mem, Saved(f, m).mem, m.sp - 4 + off, t.Size());
    Decoded(t, Rd(m.mem, m.sp - 4 + off, t.Size()));
  }

  /** The two words between locals and parameters belong to no local. */
  lemma Linkage(f: Func, n: nat, r7: Word, a: int)
    requires FuncOk(f, n) && r7 <= a < r7 + 8
    ensures !InSlot(f.lay, r7, a)
  {
  }

  /** The stack has room for the return address, the frame and the scratch stack. */
  predicate HasRoom(f: Func, m: Cpu) {
    StmtOk(f.body, f.lay) && 4 + f.frame + 4 * NeedS(f.body, f.lay) <= m.sp && m.sp + 4 <= |m.mem|
  }

  /** Below this the function writes nothing: its frame and its scratch stack end here. */
  function Floor(f: Func, m: Cpu): (low: nat)
    requires HasRoom(f, m)
  {
    m.sp - 4 - f.frame - 4 * NeedS(f.body, f.lay)
  }

  /** Return to the caller: the stack popped, R7 and the other registers as before the call, and
      every byte outside the parameters and the function's own stack untouched. */
  ghost predicate BackHome(f: Func, m: Cpu, m': Cpu)
    requires HasRoom(f, m)
  {
    && m'.pc == Rd4(m.mem, m.sp) && m'.sp == m.sp + 4
    && m'.regs.r3 == m.regs.r3 && m'.regs.r4 == m.regs.r4 && m'.regs.r5 == m.regs.r5
    && m'.regs.r6 == m.regs.r6 && m'.regs.r7 == m.regs.r7
    && |m'.mem| == |m.mem|
    && (forall a :: m.sp <= a < |m.mem| && !InSlot(f.lay, m.sp - 4, a) ==> m'.mem[a] == m.mem[a])
    && (forall a :: 0 <= a < Floor(f, m) ==> m'.mem[a] == m.mem[a])
  }

  lemma EpilogueRuns(p: Program, f: Func, n: nat, m: Cpu, m2: Cpu, env': Env) returns (m': Cpu)
    requires Entry(f, n, m) && Runs(p, Running(m), Running(m2))
    requires Models(f.lay, env', m2) && Keeps(Floor(f, m), f.lay, Saved(f, m), m2)
    requires At(p, m2.pc, [Label(n), SetSp(R7), Pop(R7), Ret])
    ensures Runs(p, Running(m), Left(m')) && BackHome(f, m, m') && m'.regs.r0 == m2.regs.r0
  {
    hide Runs, Rd4, At, Slot, Disjoint, InSlot, StmtOk, TreeDistinct, TreeLabels, NeedS, Prologue;
    var a, code, m1 := Running(m), [Label(n), SetSp(R7), Pop(R7), Ret], Saved(f, m);
    AtIndex(p, m2.pc, code, 0);
    AtIndex(p, m2.pc, code, 1);
    AtIndex(p, m2.pc, code, 2);
    AtIndex(p, m2.pc, code, 3);
    EntryModels(f, n, m);
    LinkageStays(Floor(f, m), f, n, m, m2);
    StepLabel(p, a, m2, n);
    StepSetSp(p, a, Next(m2), R7);
    var m3 := m2.(pc := m2.pc + 2, sp := m2.regs.r7);
    StepPop(p, a, m3, R7);
    var m4 := m3.(pc := m3.pc + 1, sp := m3.sp + 4, regs := m3.regs.(r7 := m.regs.r7));
    StepRet(p, a, m4);
    m' := m4.(pc := Rd4(m4.mem, m4.sp), sp := m4.sp + 4);
  }

  /** The saved R7 and the return address survive the body. */
  lemma LinkageStays(low: nat, f: Func, n: nat, m: Cpu, m2: Cpu)
    requires Entry(f, n, m) && Keeps(low, f.lay, Saved(f, m), m2)
    ensures |m2.mem| == |m.mem| && Rd4(m2.mem, m.sp - 4) == m.regs.r7 && Rd4(m2.mem, m.sp) == Rd4(m.mem, m.sp)
  {
    hide Rd4, StmtOk, TreeDistinct, TreeLabels, NeedS, Models, InSlot, Prologue;
    var m1 := Saved(f, m);
    EntryModels(f, n, m);
    forall a | m.sp - 4 <= a < m.sp + 4
      ensures m2.mem[a] == m1.mem[a]
    {
      Linkage(f, n, m1.regs.r7, a);
    }
    SameRead4(m2.mem, m1.mem, m.sp - 4);
    SameRead4(m2.mem, m1.mem, m.sp);
    SameRead4(m1.mem, m.mem, m.sp);
  }

  /** The result of a call: the value returned, zero when main falls off its end. */
  ghost predicate CallDone(f: Func, r: Result, m: Cpu, c: Config)
    requires HasRoom(f, m)
  {
    match r
    case Trap => c == Trapped(VEC_DIV)
    case Returned(v, _) => c.Left? && BackHome(f, m, c.m) && (v.Some? ==> c.m.regs.r0 == Repr(v.value))
    case Normal(_) => c.Left? && BackHome(f, m, c.m) && (f.isMain ==> c.m.regs.r0 == 0)
    case Went(_, _) => true
    case Timeout => true
  }

  /** A compiled function, called, computes what its body means and returns to its caller. */
  lemma CallOk(f: Func, n: nat, m: Cpu, fuel: nat) returns (c: Config)
    requires Entry(f, n, m) && m.pc == 0
    ensures Runs(GenFunc(f, n), Running(m), c)
    ensures CallDone(f, Exec(f.body, f.lay, f.ret, EntryEnv(f, n, m), fuel), m, c)
  {
    hide Runs, Models, Keeps, At, UniqueLabels, Owns, StmtOk, TreeDistinct, TreeLabels, GenStmt, NeedS, Exec, Prologue,
      EntryEnv, BackHome, Rd4;
    var p := GenFunc(f, n);
    var x := Context(f.lay, f.ret, n);
    var m1, env := Saved(f, m), EntryEnv(f, n, m);
    var body, tail := GenStmt(f.body, x, n + 1), Epilogue(f, n);
    FuncLabels(f, n);
    WholeAt(p);
    AtSplit(p, 0, Prologue(f), body + tail);
    AtSplit(p, |Prologue(f)|, body, tail);
    PrologueRuns(p, f, m);
    EntryModels(f, n, m);
    c := RunStmt(Floor(f, m), p, f.body, x, n + 1, env, m1, fuel);
    RunsTrans(p, Running(m), Running(m1), c);
    var r := Exec(f.body, f.lay, f.ret, env, fuel);
    if r.Normal? || r.Returned? {
      c := Finish(p, f, n, m, c, |Prologue(f)| + |body|, r);
    }
  }

  lemma WholeAt(p: Program)
    ensures At(p, 0, p)
  {
  }

  /** From the end of the body, or from a return statement, through the epilogue. */
  lemma Finish(p: Program, f: Func, n: nat, m: Cpu, c1: Config, end: nat, r: Result) returns (c: Config)
    requires Entry(f, n, m) && (r.Normal? || r.Returned?) && UniqueLabels(p) && At(p, end, Epilogue(f, n))
    requires Runs(p, Running(m), c1) && StmtDone(Floor(f, m), p, r, Context(f.lay, f.ret, n), Saved(f, m), c1, end)
    ensures Runs(p, Running(m), c) && CallDone(f, r, m, c)
  {
    hide Runs, Models, At, UniqueLabels, StmtOk, TreeDistinct, TreeLabels, NeedS, Prologue, InSlot, BackHome, Rd4;
    var head: Code := if f.isMain then [LoadImm(R0, 0)] else [];
    var tail := [Label(n), SetSp(R7), Pop(R7), Ret];
    AtSplit(p, end, head, tail);
    AtIndex(p, end + |head|, tail, 0);
    FindUnique(p, n, end + |head|);
    var m2, env' := c1.m, r.env;
    if r.Normal? && f.isMain {
      AtIndex(p, end, head, 0);
      StepLoadImm(p, Running(m), m2, R0, 0);
      var m3 := SetReg(m2, R0, 0).m;
      ArrivedScratch(Floor(f, m), f.lay, env', Saved(f, m), m2, m3);
      m2 := m3;
    }
    var m' := EpilogueRuns(p, f, n, m, m2, env');
    c := Left(m');
  }

  // ---- where the compiler is wrong ----

  lemma ReprCancel(a: int, b: int, k: int)
    ensures Repr(a + b) == Repr(a + k) <==> Repr(b) == Repr(k)
    ensures Repr(a - b) == Repr(a - k) <==> Repr(b) == Repr(k)
  {
    ReprAdd(a + b, a);
    ReprAdd(a + k, a);
    ReprAdd(a, b);
    ReprAdd(a, k);
    ReprAdd(a, a - b);
    ReprAdd(a, a - k);
  }

  /** For sums and differences the dropped cast is the whole story: the code of l + (t)k or
      l - (t)k computes the C value if and only if the cast does not change the constant. */
  lemma CastDropExact(low: nat, p: Program, e: Expr, lay: Layout, n: nat, env: Env, m: Cpu) returns (c: Config)
    requires WellFormed(e, lay) && e.Bin? && (e.op.OAdd? || e.op.OSub?) && e.r.Cast? && e.r.l.Num? && CastsFit(e.l)
    requires Ready(low, p, GenExpr(e, lay, n), lay, env, m, Need(e, lay))
    requires Typed(lay, env) && Eval(e.l, lay, env).Val?
    ensures Runs(p, Running(m), c) && (ExprDone(low, e, lay, n, env, m, c) <==> CastFits(e.r))
  {
    hide Runs, Models, Keeps, At, Repr, Ty.Wrap, UniqueLabels, AddFlags, SubFlags, GenExpr, Eval, Need, TypeOf,
      BinInstr, CastFits, WellFormed, CastsFit;
    SumShape(e, lay, n);
    var l, r, op := e.l, e.r, e.op;
    var cl, tail := GenExpr(l, lay, n), [LoadImm(R1, r.l.val), BinInstr(op, TypeOf(e, lay).uns)];
    AtSplit(p, m.pc, cl, tail);
    c := ExprOk(low, p, l, lay, n, env, m);
    var m1, a, env1 := c.m, Eval(l, lay, env).v, Eval(l, lay, env).env;
    AtIndex(p, m1.pc, tail, 0);
    AtIndex(p, m1.pc, tail, 1);
    StepLoadImm(p, Running(m), m1, R1, r.l.val);
    var m2 := SetReg(m1, R1, r.l.val).m;
    c := SumStep(p, Running(m), m2, op, TypeOf(e, lay), a, r.l.val);
    ArrivedScratch(low, lay, env1, m, m1, c.m);
    SumExact(e, lay, env);
  }

  lemma SumStep(p: Program, a: Config, m: Cpu, op: BinOp, t: Ty, x: int, k: Word) returns (c: Config)
    requires (op.OAdd? || op.OSub?) && Reaches(p, a, m, BinInstr(op, t.uns)) && m.regs.r0 == Repr(x) && m.regs.r1 == k
    ensures Runs(p, a, c) && c.Running? && c.m.pc == m.pc + 1
    ensures Scratch(m, c.m) && c.m.regs.r0 == Repr(if op.OAdd? then x + k else x - k)
  {
    hide Runs, Repr, Nzcv;
    StepAlu(p, a, m, BinInstr(op, t.uns).op, R0, R1);
    ReprAdd(x, k);
    WordRepr(k);
    var (r, f) := if op.OAdd? then AddFlags(m.regs.r0, k) else SubFlags(m.regs.r0, k);
    c := SetRegFlags(m, R0, r, f);
  }

  lemma SumShape(e: Expr, lay: Layout, n: nat)
    requires WellFormed(e, lay) && e.Bin? && (e.op.OAdd? || e.op.OSub?) && e.r.Cast? && e.r.l.Num?
    ensures WellFormed(e.l, lay) && Need(e.l, lay) <= Need(e, lay)
    ensures GenExpr(e, lay, n)
         == GenExpr(e.l, lay, n) + [LoadImm(R1, e.r.l.val), BinInstr(e.op, TypeOf(e, lay).uns)]
  {
    hide TypeOf, BinInstr;
  }

  lemma SumExact(e: Expr, lay: Layout, env: Env)
    requires WellFormed(e, lay) && e.Bin? && (e.op.OAdd? || e.op.OSub?) && e.r.Cast? && e.r.l.Num?
    requires Typed(lay, env) && Eval(e.l, lay, env).Val?
    ensures Eval(e, lay, env).Val? && Eval(e, lay, env).env == Eval(e.l, lay, env).env
    ensures
      var a, k := Eval(e.l, lay, env).v, e.r.l.val;
      Repr(Eval(e, lay, env).v) == Repr(if e.op.OAdd? then a + k else a - k) <==> CastFits(e.r)
  {
    hide Repr, Ty.Wrap, GenExpr;
    EvalTyped(e.l, lay, env);
    var a, env1, t := Eval(e.l, lay, env).v, Eval(e.l, lay, env).env, TypeOf(e, lay);
    R1Exact(e.r, lay, env1);
    var b := Eval(e.r, lay, env1).v;
    var x, y := t.Wrap(a), t.Wrap(b);
    WrapRepr(t, a);
    WrapRepr(t, b);
    WrapRepr(t, x + y);
    WrapRepr(t, x - y);
    ReprAdd(x, y);
    ReprAdd(a, b);
    ReprCancel(a, b, e.r.l.val);
    WordRepr(e.r.l.val);
  }

  /** 0 + (char)300 */
  const LOSSY: Expr := Bin(OAdd, Num(0, false), Cast(CChar(false), Num(300, false)))

  lemma LossyValue()
    ensures WellFormed(LOSSY, map[]) && !CastsFit(LOSSY)
    ensures Eval(LOSSY, map[], map[]) == Val(44, map[])
  {
    hide Bitwise, TruncDiv, Pow2, GenExpr, Apply, Ty.Wrap;
    Narrowed();
    var l, r := LOSSY.l, LOSSY.r;
    assert WellFormed(l, map[]) && WellFormed(r, map[]);
    assert Eval(l, map[], map[]) == Val(0, map[]);
    assert Eval(r.l, map[], map[]) == Val(300, map[]);
    assert Eval(r, map[], map[]) == Val(44, map[]);
    assert TypeOf(LOSSY, map[]) == CInt(false);
  }

  lemma Narrowed()
    ensures CChar(false).Wrap(300) == 44 && Apply(OAdd, CInt(false), 0, 44) == Some(44)
  {
    hide Bitwise, TruncDiv, Pow2;
  }

  /** The code for a sum of zero and a cast constant. */
  lemma CastSumCode(e: Expr, lay: Layout, n: nat)
    requires e.Bin? && e.op.OAdd? && e.l.Num? && e.r.Cast? && e.r.l.Num?
    ensures WellFormed(e, lay) && GenExpr(e, lay, n) == [LoadImm(R0, e.l.val), LoadImm(R1, e.r.l.val), Alu(Add, R0, R1)]
  {
    assert WellFormed(e.r.l, lay) && WellFormed(e.r, lay);
    assert GenExpr(e.l, lay, n) == [LoadImm(R0, e.l.val)];
    assert GenOperands(e, lay, n) == [LoadImm(R0, e.l.val), LoadImm(R1, e.r.l.val)];
  }

  /** A constant narrowed by a cast in a right operand loses the cast: 0 + (char)300 is 44 in C,
      the code computes 300. */
  lemma LossyCast(m: Cpu) returns (m': Cpu)
    requires m.pc == 0
    ensures WellFormed(LOSSY, map[]) && Eval(LOSSY, map[], map[]) == Val(44, map[])
    ensures Runs(GenExpr(LOSSY, map[], 0), Running(m), Running(m'))
    ensures m'.pc == |GenExpr(LOSSY, map[], 0)| && m'.regs.r0 == 300
  {
    hide Runs, GenExpr, Eval, WellFormed;
    LossyValue();
    CastSumCode(LOSSY, map[], 0);
    var p, a := GenExpr(LOSSY, map[], 0), Running(m);
    RunsRefl(p, a);
    StepLoadImm(p, a, m, R0, 0);
    var m1 := SetReg(m, R0, 0).m;
    StepLoadImm(p, a, m1, R1, 300);
    var m2 := SetReg(m1, R1, 300).m;
    StepAlu(p, a, m2, Add, R0, R1);
    var (r, g) := AddFlags(0, 300);
    m' := SetRegFlags(m2, R0, r, g).m;
  }
}
