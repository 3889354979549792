/** Running the code of a statement does what the statement means: loops, break, continue and
    return included. */
module CompileStmt {
  import opened Wrappers
  import opened Words
  import opened Machine
  import opened CLang
  import opened CodeGen
  import opened Frames
  import opened CompileExpr
  import opened Statements

  ghost predicate ReadyS(low: nat, p: Program, s: Stmt, x: Context, n: nat, env: Env, m: Cpu)
    requires StmtOk(s, x.lay)
  {
    Ready(low, p, GenStmt(s, x, n), x.lay, env, m, NeedS(s, x.lay))
  }

  /** Control stands behind the code, at the label gone to, or at the epilogue with the value in R0. */
  ghost predicate StmtDone(low: nat, p: Program, r: Result, x: Context, m: Cpu, c: Config, end: nat) {
    match r
    case Timeout => true
    case Trap => c == Trapped(VEC_DIV)
    case Normal(env') => Arrived(low, x.lay, m, c, end, env')
    case Went(l, env') => Arrived(low, x.lay, m, c, Find(p, l), env')
    case Returned(v, env') =>
      Arrived(low, x.lay, m, c, Find(p, x.retLab), env') && (v.Some? ==> c.m.regs.r0 == Repr(v.value))
  }

  lemma DoneTrans(low: nat, p: Program, r: Result, x: Context, m: Cpu, m1: Cpu, c: Config, end: nat)
    requires Keeps(low, x.lay, m, m1) && StmtDone(low, p, r, x, m1, c, end)
    ensures StmtDone(low, p, r, x, m, c, end)
  {
    hide Models, InSlot;
    if c.Running? && !r.Timeout? && !r.Trap? {
      KeepsTrans(low, x.lay, m, m1, c.m);
    }
  }

  /** A statement run from a state already reached. */
  lemma {:induction false} StmtFrom(low: nat, p: Program, s: Stmt, x: Context, n: nat, env1: Env, m: Cpu, m1: Cpu,
        fuel: nat)
    returns (c: Config)
    requires StmtOk(s, x.lay) && ReadyS(low, p, s, x, n, env1, m1)
    requires Runs(p, Running(m), Running(m1)) && Keeps(low, x.lay, m, m1)
    ensures Runs(p, Running(m), c)
    ensures StmtDone(low, p, Exec(s, x.lay, x.ret, env1, fuel), x, m, c, m1.pc + |GenStmt(s, x, n)|)
    decreases fuel, s, 2
  {
    hide Runs, Models, At, UniqueLabels, Keeps, Exec, GenStmt, NeedS, StmtOk, StmtDone;
    c := RunStmt(low, p, s, x, n, env1, m1, fuel);
    RunsTrans(p, Running(m), Running(m1), c);
    assert Typed(x.lay, env1) by { ModelsTyped(x.lay, env1, m1); }
    DoneTrans(low, p, Exec(s, x.lay, x.ret, env1, fuel), x, m, m1, c, m1.pc + |GenStmt(s, x, n)|);
  }

  lemma {:induction false} RunStmt(low: nat, p: Program, s: Stmt, x: Context, n: nat, env: Env, m: Cpu, fuel: nat)
    returns (c: Config)
    requires StmtOk(s, x.lay) && ReadyS(low, p, s, x, n, env, m)
    ensures Runs(p, Running(m), c) && env.Keys == x.lay.Keys
    ensures StmtDone(low, p, Exec(s, x.lay, x.ret, env, fuel), x, m, c, m.pc + |GenStmt(s, x, n)|)
    decreases fuel, s, 1
  {
    hide Runs, Models, At, UniqueLabels, Keeps, Exec, GenStmt, NeedS, StmtOk, StmtDone;
    ModelsTyped(x.lay, env, m);
    match s
    case Null => c := SimpleStmt(low, p, s, x, n, env, m, fuel);
    case Do(_) => c := SimpleStmt(low, p, s, x, n, env, m, fuel);
    case Goto(_) => c := SimpleStmt(low, p, s, x, n, env, m, fuel);
    case Return(_) => c := ReturnStmt(low, p, s, x, n, env, m, fuel);
    case Then(_, _) => c := ThenStmt(low, p, s, x, n, env, m, fuel);
    case IfThen(_, _) => c := IfThenStmt(low, p, s, x, n, env, m, fuel);
    case IfElse(_, _, _) => c := IfElseStmt(low, p, s, x, n, env, m, fuel);
    case While(_, _, _, _) => c := WhileStmt(low, p, s, x, n, env, m, fuel);
    case DoWhile(_, _, _, _) => c := DoWhileStmt(low, p, s, x, n, env, m, fuel);
    case For(_, _, _, _, _, _) => c := ForStmt(low, p, s, x, n, env, m, fuel);
    case Labelled(_, _) => c := LabelledStmt(low, p, s, x, n, env, m, fuel);
    case Switch(_, _, _, _, _) => c := SwitchStmt(low, p, s, x, n, env, m, fuel);
  }

  // ---- statements without substatements ----

  /** A jump to a label defined elsewhere. */
  lemma GoTo(low: nat, p: Program, lay: Layout, env: Env, m: Cpu, m1: Cpu, l: nat) returns (c: Config)
    requires Reaches(p, Running(m), m1, Jump(l)) && Models(lay, env, m1) && Keeps(low, lay, m, m1)
    ensures Runs(p, Running(m), c) && Arrived(low, lay, m, c, Find(p, l), env) && c.m.regs == m1.regs
  {
    hide Runs, Slot, Disjoint, InSlot;
    StepJump(p, Running(m), m1, l);
    c := Running(m1.(pc := Find(p, l)));
    ArrivedScratch(low, lay, env, m, m1, c.m);
  }

  lemma SimpleStmt(low: nat, p: Program, s: Stmt, x: Context, n: nat, env: Env, m: Cpu, fuel: nat) returns (c: Config)
    requires s.Null? || s.Do? || s.Goto?
    requires StmtOk(s, x.lay) && ReadyS(low, p, s, x, n, env, m)
    ensures Runs(p, Running(m), c)
    ensures StmtDone(low, p, Exec(s, x.lay, x.ret, env, fuel), x, m, c, m.pc + |GenStmt(s, x, n)|)
  {
    hide Runs, Slot, Disjoint, InSlot, UniqueLabels, GenExpr, Eval, Need, At;
    RunsRefl(p, Running(m));
    KeepsSelf(low, x.lay, m);
    match s
    case Null => c := Running(m);
    case Do(e) => c := ExprOk(low, p, e, x.lay, n, env, m);
    case Goto(l) =>
      AtIndex(p, m.pc, [Jump(l)], 0);
      c := GoTo(low, p, x.lay, env, m, m, l);
  }

  lemma ReturnStmt(low: nat, p: Program, s: Stmt, x: Context, n: nat, env: Env, m: Cpu, fuel: nat) returns (c: Config)
    requires s.Return? && StmtOk(s, x.lay) && ReadyS(low, p, s, x, n, env, m)
    ensures Runs(p, Running(m), c)
    ensures StmtDone(low, p, Exec(s, x.lay, x.ret, env, fuel), x, m, c, m.pc + |GenStmt(s, x, n)|)
  {
    hide Runs, Slot, Disjoint, InSlot, UniqueLabels, GenExpr, Eval, Need, At, Convert, TypeOf;
    RunsRefl(p, Running(m));
    KeepsSelf(low, x.lay, m);
    if s.value.None? {
      AtIndex(p, m.pc, [Jump(x.retLab)], 0);
      c := GoTo(low, p, x.lay, env, m, m, x.retLab);
    } else {
      var e := s.value.value;
      var ce, cc := GenExpr(e, x.lay, n), Convert(TypeOf(e, x.lay), x.ret);
      AtSplit(p, m.pc, ce, cc + [Jump(x.retLab)]);
      AtSplit(p, m.pc + |ce|, cc, [Jump(x.retLab)]);
      c := ExprOk(low, p, e, x.lay, n, env, m);
      c := ThenConvert(low, p, Running(m), e, x.lay, n, env, m, c, x.ret);
      if c.Running? {
        AtIndex(p, c.m.pc, [Jump(x.retLab)], 0);
        c := GoTo(low, p, x.lay, Eval(e, x.lay, env).env, m, c.m, x.retLab);
      }
    }
  }

  // ---- sequences and conditionals ----

  lemma {:induction false} ThenStmt(low: nat, p: Program, s: Stmt, x: Context, n: nat, env: Env, m: Cpu, fuel: nat)
    returns (c: Config)
    requires s.Then? && StmtOk(s, x.lay) && ReadyS(low, p, s, x, n, env, m)
    ensures Runs(p, Running(m), c)
    ensures StmtDone(low, p, Exec(s, x.lay, x.ret, env, fuel), x, m, c, m.pc + |GenStmt(s, x, n)|)
    decreases fuel, s, 0
  {
    hide Runs, Slot, Disjoint, InSlot, UniqueLabels, At;
    var nb := n + LabelsS(s.first, x.lay);
    AtSplit(p, m.pc, GenStmt(s.first, x, n), GenStmt(s.second, x, nb));
    c := RunStmt(low, p, s.first, x, n, env, m, fuel);
    var r := Exec(s.first, x.lay, x.ret, env, fuel);
    if r.Normal? {
      c := StmtFrom(low, p, s.second, x, nb, r.env, m, c.m, fuel);
    }
  }

  lemma IfParts(s: Stmt, x: Context, n: nat)
    requires (s.IfThen? || s.IfElse?) && StmtOk(s, x.lay)
    ensures WellFormed(s.c, x.lay) && CastsFit(s.c) && StmtOk(s.yes, x.lay) && (s.IfElse? ==> StmtOk(s.no, x.lay))
    ensures Need(s.c, x.lay) <= NeedS(s, x.lay) && NeedS(s.yes, x.lay) <= NeedS(s, x.lay)
    ensures s.IfElse? ==> NeedS(s.no, x.lay) <= NeedS(s, x.lay)
    ensures
      var na := n + 1 + LabelsB(s.c, x.lay, false);
      var l2 := na + LabelsS(s.yes, x.lay);
      GenStmt(s, x, n)
      == GenBranch(s.c, x.lay, n + 1, n, false)
         + (GenStmt(s.yes, x, na)
            + if s.IfThen? then [Label(n)] else [Jump(l2), Label(n)] + (GenStmt(s.no, x, l2 + 1) + [Label(l2)]))
  {
    hide GenBranch, LabelsB, WellFormed, CastsFit, Need;
  }

  lemma IfValue(s: Stmt, x: Context, env: Env, fuel: nat)
    requires (s.IfThen? || s.IfElse?) && StmtOk(s, x.lay) && env.Keys == x.lay.Keys
    ensures var o := Eval(s.c, x.lay, env); var r := Exec(s, x.lay, x.ret, env, fuel);
      && (o.DivTrap? ==> r == Trap)
      && (o.Val? && o.v != 0 ==> r == Exec(s.yes, x.lay, x.ret, o.env, fuel))
      && (o.Val? && o.v == 0 && s.IfThen? ==> r == Normal(o.env))
      && (o.Val? && o.v == 0 && s.IfElse? ==> r == Exec(s.no, x.lay, x.ret, o.env, fuel))
  {
  }

  lemma {:induction false} IfThenStmt(low: nat, p: Program, s: Stmt, x: Context, n: nat, env: Env, m: Cpu, fuel: nat)
    returns (c: Config)
    requires s.IfThen? && StmtOk(s, x.lay) && ReadyS(low, p, s, x, n, env, m)
    ensures Runs(p, Running(m), c)
    ensures StmtDone(low, p, Exec(s, x.lay, x.ret, env, fuel), x, m, c, m.pc + |GenStmt(s, x, n)|)
    decreases fuel, s, 0
  {
    hide Runs, Slot, Disjoint, InSlot, UniqueLabels, At, GenStmt, LabelsS, LabelsB, GenBranch, Eval, Exec, NeedS, Need,
      StmtOk, WellFormed, CastsFit;
    IfParts(s, x, n);
    IfValue(s, x, env, fuel);
    var na := n + 1 + LabelsB(s.c, x.lay, false);
    var cq, ca := GenBranch(s.c, x.lay, n + 1, n, false), GenStmt(s.yes, x, na);
    AtSplit(p, m.pc, cq, ca + [Label(n)]);
    AtSplit(p, m.pc + |cq|, ca, [Label(n)]);
    var i := m.pc + |cq| + |ca|;
    AtIndex(p, i, [Label(n)], 0);
    FindUnique(p, n, i);
    c := BranchOk(low, p, s.c, x.lay, n + 1, n, false, env, m);
    var o := Eval(s.c, x.lay, env);
    if o.Val? {
      if o.v != 0 {
        c := StmtFrom(low, p, s.yes, x, na, o.env, m, c.m, fuel);
        var r := Exec(s.yes, x.lay, x.ret, o.env, fuel);
        if r.Normal? {
          c := OverLabel(low, p, x.lay, r.env, m, c.m);
        }
      } else {
        c := OverLabel(low, p, x.lay, o.env, m, c.m);
      }
    }
  }

  lemma IfElseLayout(p: Program, s: Stmt, x: Context, n: nat, base: nat)
    requires s.IfElse? && StmtOk(s, x.lay) && UniqueLabels(p) && At(p, base, GenStmt(s, x, n))
    ensures
      var na := n + 1 + LabelsB(s.c, x.lay, false);
      var l2 := na + LabelsS(s.yes, x.lay);
      var cq, ca, cb := GenBranch(s.c, x.lay, n + 1, n, false), GenStmt(s.yes, x, na), GenStmt(s.no, x, l2 + 1);
      var i := base + |cq| + |ca|;
      && At(p, base, cq) && At(p, base + |cq|, ca) && At(p, i + 2, cb) && i < |p| && p[i] == Jump(l2)
      && LabelAt(p, i + 1, n) && LabelAt(p, i + 2 + |cb|, l2) && i + 3 + |cb| == base + |GenStmt(s, x, n)|
  {
    hide UniqueLabels, At, GenStmt, LabelsS, LabelsB, GenBranch, StmtOk, WellFormed, CastsFit, Need, NeedS;
    IfParts(s, x, n);
    var na := n + 1 + LabelsB(s.c, x.lay, false);
    var l2 := na + LabelsS(s.yes, x.lay);
    var cq, ca, cb := GenBranch(s.c, x.lay, n + 1, n, false), GenStmt(s.yes, x, na), GenStmt(s.no, x, l2 + 1);
    var mid := [Jump(l2), Label(n)];
    AtThree(p, base, cq, ca, mid + (cb + [Label(l2)]));
    var i := base + |cq| + |ca|;
    AtThree(p, i, mid, cb, [Label(l2)]);
    AtIndex(p, i, mid, 0);
    AtIndex(p, i, mid, 1);
    AtIndex(p, i + 2 + |cb|, [Label(l2)], 0);
    FindUnique(p, n, i + 1);
    FindUnique(p, l2, i + 2 + |cb|);
  }

  lemma {:induction false} IfElseStmt(low: nat, p: Program, s: Stmt, x: Context, n: nat, env: Env, m: Cpu, fuel: nat)
    returns (c: Config)
    requires s.IfElse? && StmtOk(s, x.lay) && ReadyS(low, p, s, x, n, env, m)
    ensures Runs(p, Running(m), c)
    ensures StmtDone(low, p, Exec(s, x.lay, x.ret, env, fuel), x, m, c, m.pc + |GenStmt(s, x, n)|)
    decreases fuel, s, 0
  {
    hide Runs, Models, Keeps, UniqueLabels, At, GenStmt, LabelsS, LabelsB, GenBranch, Eval, Exec, NeedS, Need,
      StmtOk, WellFormed, CastsFit;
    ModelsTyped(x.lay, env, m);
    IfParts(s, x, n);
    IfValue(s, x, env, fuel);
    IfElseLayout(p, s, x, n, m.pc);
    var na := n + 1 + LabelsB(s.c, x.lay, false);
    var l2 := na + LabelsS(s.yes, x.lay);
    var cq, ca, cb := GenBranch(s.c, x.lay, n + 1, n, false), GenStmt(s.yes, x, na), GenStmt(s.no, x, l2 + 1);
    var i := m.pc + |cq| + |ca|;
    c := BranchOk(low, p, s.c, x.lay, n + 1, n, false, env, m);
    var o := Eval(s.c, x.lay, env);
    if o.Val? {
      if o.v != 0 {
        ArrivedReady(low, p, ca, x.lay, m, c, m.pc + |cq|, o.env, NeedS(s.yes, x.lay));
        c := StmtFrom(low, p, s.yes, x, na, o.env, m, c.m, fuel);
        var r := Exec(s.yes, x.lay, x.ret, o.env, fuel);
        if r.Normal? {
          c := JumpOver(low, p, x.lay, r.env, m, c.m, l2, i + 2 + |cb|);
        }
      } else {
        c := OverLabel(low, p, x.lay, o.env, m, c.m);
        ArrivedReady(low, p, cb, x.lay, m, c, i + 2, o.env, NeedS(s.no, x.lay));
        c := StmtFrom(low, p, s.no, x, l2 + 1, o.env, m, c.m, fuel);
        var r := Exec(s.no, x.lay, x.ret, o.env, fuel);
        if r.Normal? {
          c := OverLabel(low, p, x.lay, r.env, m, c.m);
        }
      }
    }
  }

  // ---- loops ----

  lemma WhileParts(s: Stmt, x: Context, n: nat)
    requires s.While? && StmtOk(s, x.lay)
    ensures WellFormed(s.c, x.lay) && CastsFit(s.c) && StmtOk(s.body, x.lay)
    ensures Need(s.c, x.lay) <= NeedS(s, x.lay) && NeedS(s.body, x.lay) <= NeedS(s, x.lay)
    ensures GenStmt(s, x, n)
            == [Label(s.cont)]
               + (GenBranch(s.c, x.lay, n, s.brk, false)
                  + (GenStmt(s.body, x, n + LabelsB(s.c, x.lay, false)) + [Jump(s.cont), Label(s.brk)]))
  {
    hide GenBranch, GenExpr, LabelsB, LabelsE, WellFormed, CastsFit, Need;
  }

  lemma WhileValue(s: Stmt, x: Context, env: Env, fuel: nat)
    requires s.While? && StmtOk(s, x.lay) && env.Keys == x.lay.Keys && fuel > 0
    ensures var o := Eval(s.c, x.lay, env); var r := Exec(s, x.lay, x.ret, env, fuel);
      && (o.DivTrap? ==> r == Trap)
      && (o.Val? && o.v == 0 ==> r == Normal(o.env))
      && (o.Val? && o.v != 0 ==>
            var i := AfterBody(Exec(s.body, x.lay, x.ret, o.env, fuel), s.brk, s.cont);
            && (i.Leave? ==> r == i.r)
            && (i.Again? ==> i.env.Keys == x.lay.Keys && r == Exec(s, x.lay, x.ret, i.env, fuel - 1)))
  {
  }

  /** Where the code of a loop body leaves the machine when the loop goes round again or ends:
      `next` is the index of the code behind the body, which jumps or falls to label cont. */
  lemma BodyEnd(low: nat, p: Program, x: Context, m: Cpu, c1: Config, r: Result, brk: nat, cont: nat, next: nat,
        atBrk: nat)
    returns (c: Config)
    requires UniqueLabels(p) && Runs(p, Running(m), c1) && StmtDone(low, p, r, x, m, c1, next)
    requires atBrk < |p| && p[atBrk] == Label(brk)
    ensures Runs(p, Running(m), c)
    ensures match AfterBody(r, brk, cont)
      case Leave(r') => StmtDone(low, p, r', x, m, c, atBrk + 1)
      case Again(env') => Arrived(low, x.lay, m, c, if r.Normal? then next else Find(p, cont), env')
  {
    hide Runs, Models, Keeps, UniqueLabels;
    c := c1;
    if r.Went? && r.lab == brk && r.lab != cont {
      FindUnique(p, brk, atBrk);
      c := OverLabel(low, p, x.lay, r.env, m, c1.m);
    }
  }

  lemma WhileLayout(p: Program, s: Stmt, x: Context, n: nat, base: nat)
    requires s.While? && StmtOk(s, x.lay) && UniqueLabels(p) && At(p, base, GenStmt(s, x, n))
    ensures
      var na := n + LabelsB(s.c, x.lay, false);
      var cq, ca := GenBranch(s.c, x.lay, n, s.brk, false), GenStmt(s.body, x, na);
      var i := base + 1 + |cq| + |ca|;
      && At(p, base + 1, cq) && At(p, base + 1 + |cq|, ca)
      && LabelAt(p, base, s.cont) && LabelAt(p, i + 1, s.brk) && p[i] == Jump(s.cont)
        && i + 2 == base + |GenStmt(s, x, n)|
  {
    hide UniqueLabels, At, GenStmt, LabelsB, GenBranch, StmtOk, WellFormed, CastsFit, Need, NeedS;
    WhileParts(s, x, n);
    var na := n + LabelsB(s.c, x.lay, false);
    var cq, ca := GenBranch(s.c, x.lay, n, s.brk, false), GenStmt(s.body, x, na);
    var tail := [Jump(s.cont), Label(s.brk)];
    var i := base + 1 + |cq| + |ca|;
    AtThree(p, base, [Label(s.cont)], cq, ca + tail);
    AtSplit(p, base + 1 + |cq|, ca, tail);
    AtIndex(p, base, [Label(s.cont)], 0);
    AtIndex(p, i, tail, 0);
    AtIndex(p, i, tail, 1);
    FindUnique(p, s.cont, base);
    FindUnique(p, s.brk, i + 1);
  }

  lemma {:induction false} WhileStmt(low: nat, p: Program, s: Stmt, x: Context, n: nat, env: Env, m: Cpu, fuel: nat)
    returns (c: Config)
    requires s.While? && StmtOk(s, x.lay) && ReadyS(low, p, s, x, n, env, m)
    ensures Runs(p, Running(m), c)
    ensures StmtDone(low, p, Exec(s, x.lay, x.ret, env, fuel), x, m, c, m.pc + |GenStmt(s, x, n)|)
    decreases fuel, s, 0
  {
    hide Runs, Models, Keeps, UniqueLabels, At, GenStmt, LabelsS, LabelsB, GenBranch, Eval, Exec, NeedS, Need,
      StmtOk, WellFormed, CastsFit, AfterBody, Find, GenExpr, TypeOf, LabelsE;
    RunsRefl(p, Running(m));
    KeepsSelf(low, x.lay, m);
    ModelsTyped(x.lay, env, m);
    c := Running(m);
    if fuel == 0 {
      assert Exec(s, x.lay, x.ret, env, fuel) == Timeout by { NoFuel(s, x, env); }
      return;
    }
    WhileParts(s, x, n);
    WhileValue(s, x, env, fuel);
    WhileLayout(p, s, x, n, m.pc);
    var na := n + LabelsB(s.c, x.lay, false);
    var cq, ca := GenBranch(s.c, x.lay, n, s.brk, false), GenStmt(s.body, x, na);
    var i := m.pc + 1 + |cq| + |ca|;
    c := OverLabel(low, p, x.lay, env, m, m);
    ArrivedReady(low, p, cq, x.lay, m, c, m.pc + 1, env, Need(s.c, x.lay));
    c := BranchFrom(low, p, s.c, x.lay, n, s.brk, false, env, m, c.m);
    var o := Eval(s.c, x.lay, env);
    if o.Val? {
      if o.v == 0 {
        c := OverLabel(low, p, x.lay, o.env, m, c.m);
      } else {
        ArrivedReady(low, p, ca, x.lay, m, c, m.pc + 1 + |cq|, o.env, NeedS(s.body, x.lay));
        c := StmtFrom(low, p, s.body, x, na, o.env, m, c.m, fuel);
        var r := Exec(s.body, x.lay, x.ret, o.env, fuel);
        c := BodyEnd(low, p, x, m, c, r, s.brk, s.cont, i, i + 1);
        var it := AfterBody(r, s.brk, s.cont);
        if it.Again? {
          if r.Normal? {
            c := GoTo(low, p, x.lay, it.env, m, c.m, s.cont);
          }
          ArrivedReady(low, p, GenStmt(s, x, n), x.lay, m, c, m.pc, it.env, NeedS(s, x.lay));
          c := StmtFrom(low, p, s, x, n, it.env, m, c.m, fuel - 1);
        }
      }
    }
  }

  lemma NoFuel(s: Stmt, x: Context, env: Env)
    requires (s.While? || s.DoWhile?) && StmtOk(s, x.lay) && env.Keys == x.lay.Keys
    ensures Exec(s, x.lay, x.ret, env, 0) == Timeout
  {
  }

  /** A condition tested from a state already reached. */
  lemma BranchFrom(low: nat, p: Program, e: Expr, lay: Layout, n: nat, lab: nat, when: bool, env: Env, m: Cpu, m1: Cpu)
    returns (c: Config)
    requires WellFormed(e, lay) && CastsFit(e)
    requires Ready(low, p, GenBranch(e, lay, n, lab, when), lay, env, m1, Need(e, lay))
    requires Runs(p, Running(m), Running(m1)) && Keeps(low, lay, m, m1)
    ensures Runs(p, Running(m), c)
    ensures match Eval(e, lay, env)
      case DivTrap => c == Trapped(VEC_DIV)
      case Val(v, env') =>
        Arrived(low, lay, m, c,
          if (v != 0) == when then Find(p, lab) else m1.pc + |GenBranch(e, lay, n, lab, when)|, env')
  {
    hide Runs, Slot, Disjoint, InSlot, UniqueLabels, At, GenBranch, Eval, Need, WellFormed, CastsFit;
    c := BranchOk(low, p, e, lay, n, lab, when, env, m1);
    RunsTrans(p, Running(m), Running(m1), c);
    if c.Running? {
      ArrivedTrans(low, lay, m, m1, c, c.m.pc, Eval(e, lay, env).env);
    }
  }

  lemma DoWhileParts(s: Stmt, x: Context, n: nat)
    requires s.DoWhile? && StmtOk(s, x.lay)
    ensures WellFormed(s.c, x.lay) && CastsFit(s.c) && StmtOk(s.body, x.lay)
    ensures Need(s.c, x.lay) <= NeedS(s, x.lay) && NeedS(s.body, x.lay) <= NeedS(s, x.lay)
    ensures GenStmt(s, x, n)
            == [Label(n)]
               + (GenStmt(s.body, x, n + 1)
                  + ([Label(s.cont)]
                     + (GenBranch(s.c, x.lay, n + 1 + LabelsS(s.body, x.lay), n, true) + [Label(s.brk)])))
  {
    hide GenBranch, GenExpr, LabelsB, LabelsE, WellFormed, CastsFit, Need;
  }

  lemma DoWhileValue(s: Stmt, x: Context, env: Env, fuel: nat)
    requires s.DoWhile? && StmtOk(s, x.lay) && env.Keys == x.lay.Keys && fuel > 0
    ensures var i := AfterBody(Exec(s.body, x.lay, x.ret, env, fuel), s.brk, s.cont);
      var r := Exec(s, x.lay, x.ret, env, fuel);
      && (i.Leave? ==> r == i.r)
      && (i.Again? ==>
            && i.env.Keys == x.lay.Keys
            && var o := Eval(s.c, x.lay, i.env);
               && (o.DivTrap? ==> r == Trap)
               && (o.Val? && o.v == 0 ==> r == Normal(o.env))
               && (o.Val? && o.v != 0 ==> r == Exec(s, x.lay, x.ret, o.env, fuel - 1)))
  {
  }

  lemma DoWhileLayout(p: Program, s: Stmt, x: Context, n: nat, base: nat)
    requires s.DoWhile? && StmtOk(s, x.lay) && UniqueLabels(p) && At(p, base, GenStmt(s, x, n))
    ensures
      var nc := n + 1 + LabelsS(s.body, x.lay);
      var i := base + 1 + |GenStmt(s.body, x, n + 1)|;
      var j := i + 1 + |GenBranch(s.c, x.lay, nc, n, true)|;
      && At(p, base + 1, GenStmt(s.body, x, n + 1)) && At(p, i + 1, GenBranch(s.c, x.lay, nc, n, true))
      && LabelAt(p, base, n) && LabelAt(p, i, s.cont) && LabelAt(p, j, s.brk) && j + 1 == base + |GenStmt(s, x, n)|
  {
    hide UniqueLabels, At, GenStmt, LabelsS, GenBranch, StmtOk, WellFormed, CastsFit, Need, NeedS;
    DoWhileParts(s, x, n);
    var nc := n + 1 + LabelsS(s.body, x.lay);
    var ca, cq := GenStmt(s.body, x, n + 1), GenBranch(s.c, x.lay, nc, n, true);
    var i := base + 1 + |ca|;
    var j := i + 1 + |cq|;
    AtThree(p, base, [Label(n)], ca, [Label(s.cont)] + (cq + [Label(s.brk)]));
    AtThree(p, i, [Label(s.cont)], cq, [Label(s.brk)]);
    AtIndex(p, base, [Label(n)], 0);
    AtIndex(p, i, [Label(s.cont)], 0);
    AtIndex(p, j, [Label(s.brk)], 0);
    FindUnique(p, n, base);
    FindUnique(p, s.cont, i);
    FindUnique(p, s.brk, j);
  }

  lemma {:induction false} DoWhileStmt(low: nat, p: Program, s: Stmt, x: Context, n: nat, env: Env, m: Cpu, fuel: nat)
    returns (c: Config)
    requires s.DoWhile? && StmtOk(s, x.lay) && ReadyS(low, p, s, x, n, env, m)
    ensures Runs(p, Running(m), c)
    ensures StmtDone(low, p, Exec(s, x.lay, x.ret, env, fuel), x, m, c, m.pc + |GenStmt(s, x, n)|)
    decreases fuel, s, 0
  {
    hide Runs, Models, Keeps, UniqueLabels, At, GenStmt, LabelsS, LabelsB, GenBranch, Eval, Exec, NeedS, Need,
      StmtOk, WellFormed, CastsFit, AfterBody, Find, GenExpr, TypeOf, LabelsE;
    RunsRefl(p, Running(m));
    KeepsSelf(low, x.lay, m);
    ModelsTyped(x.lay, env, m);
    c := Running(m);
    if fuel == 0 {
      assert Exec(s, x.lay, x.ret, env, fuel) == Timeout by { NoFuel(s, x, env); }
      return;
    }
    DoWhileParts(s, x, n);
    DoWhileValue(s, x, env, fuel);
    DoWhileLayout(p, s, x, n, m.pc);
    var nc := n + 1 + LabelsS(s.body, x.lay);
    var i := m.pc + 1 + |GenStmt(s.body, x, n + 1)|;
    var j := i + 1 + |GenBranch(s.c, x.lay, nc, n, true)|;
    c := OverLabel(low, p, x.lay, env, m, m);
    ArrivedReady(low, p, GenStmt(s.body, x, n + 1), x.lay, m, c, m.pc + 1, env, NeedS(s.body, x.lay));
    c := StmtFrom(low, p, s.body, x, n + 1, env, m, c.m, fuel);
    var r := Exec(s.body, x.lay, x.ret, env, fuel);
    c := BodyEnd(low, p, x, m, c, r, s.brk, s.cont, i, j);
    var it := AfterBody(r, s.brk, s.cont);
    if it.Again? {
      c := OverLabel(low, p, x.lay, it.env, m, c.m);
      ArrivedReady(low, p, GenBranch(s.c, x.lay, nc, n, true), x.lay, m, c, i + 1, it.env, Need(s.c, x.lay));
      c := BranchFrom(low, p, s.c, x.lay, nc, n, true, it.env, m, c.m);
      var o := Eval(s.c, x.lay, it.env);
      if o.Val? {
        if o.v != 0 {
          ArrivedReady(low, p, GenStmt(s, x, n), x.lay, m, c, m.pc, o.env, NeedS(s, x.lay));
          c := StmtFrom(low, p, s, x, n, o.env, m, c.m, fuel - 1);
        } else {
          c := OverLabel(low, p, x.lay, o.env, m, c.m);
        }
      }
    }
  }

  // ---- for ----

  /** The code of a for statement behind its first clause. */
  function LoopCode(s: Stmt, x: Context, n: nat, nc: nat): Code
    requires s.For? && StmtOk(s, x.lay)
  {
    var na := nc + LabelsBOpt(s.test, x.lay);
    var ne := na + LabelsS(s.body, x.lay);
    [Label(n)]
    + (BranchOpt(s.test, x.lay, nc, s.brk)
       + (GenStmt(s.body, x, na) + ([Label(s.cont)] + (ExprOpt(s.step, x.lay, ne) + [Jump(n), Label(s.brk)]))))
  }

  lemma ForParts(s: Stmt, x: Context, n: nat)
    requires s.For? && StmtOk(s, x.lay)
    ensures StmtOk(s.init, x.lay) && StmtOk(s.body, x.lay) && WfOpt(s.test, x.lay) && WfOpt(s.step, x.lay)
    ensures NeedS(s.init, x.lay) <= NeedS(s, x.lay) && NeedS(s.body, x.lay) <= NeedS(s, x.lay)
    ensures NeedOpt(s.test, x.lay) <= NeedS(s, x.lay) && NeedOpt(s.step, x.lay) <= NeedS(s, x.lay)
  {
    hide NeedOpt, WfOpt;
  }

  lemma ForShape(s: Stmt, x: Context, n: nat)
    requires s.For? && StmtOk(s, x.lay)
    ensures StmtOk(s.init, x.lay)
    ensures GenStmt(s, x, n) == GenStmt(s.init, x, n + 1) + LoopCode(s, x, n, n + 1 + LabelsS(s.init, x.lay))
  {
    hide BranchOpt, ExprOpt, LabelsBOpt, LabelsEOpt, WfOpt;
  }

  lemma ForValue(s: Stmt, x: Context, env: Env, fuel: nat)
    requires s.For? && StmtOk(s, x.lay) && env.Keys == x.lay.Keys
    ensures var r := Exec(s.init, x.lay, x.ret, env, fuel);
      && (r.Normal? ==> r.env.Keys == x.lay.Keys
                        && Exec(s, x.lay, x.ret, env, fuel) == Loop(s, x.lay, x.ret, r.env, fuel))
      && (!r.Normal? ==> Exec(s, x.lay, x.ret, env, fuel) == r)
  {
  }

  lemma {:induction false} ForStmt(low: nat, p: Program, s: Stmt, x: Context, n: nat, env: Env, m: Cpu, fuel: nat)
    returns (c: Config)
    requires s.For? && StmtOk(s, x.lay) && ReadyS(low, p, s, x, n, env, m)
    ensures Runs(p, Running(m), c)
    ensures StmtDone(low, p, Exec(s, x.lay, x.ret, env, fuel), x, m, c, m.pc + |GenStmt(s, x, n)|)
    decreases fuel, s, 0, 1
  {
    hide Runs, Slot, Disjoint, InSlot, UniqueLabels, At, GenStmt, LabelsS, Exec, Loop, NeedS, StmtOk, LoopCode;
    ForParts(s, x, n);
    ForShape(s, x, n);
    ForValue(s, x, env, fuel);
    var nc := n + 1 + LabelsS(s.init, x.lay);
    AtSplit(p, m.pc, GenStmt(s.init, x, n + 1), LoopCode(s, x, n, nc));
    c := RunStmt(low, p, s.init, x, n + 1, env, m, fuel);
    var r := Exec(s.init, x.lay, x.ret, env, fuel);
    if r.Normal? {
      c := LoopOk(low, p, s, x, n, nc, r.env, m, c.m, fuel);
    }
  }

  lemma LoopValue(s: Stmt, x: Context, env: Env, fuel: nat)
    requires s.For? && StmtOk(s, x.lay) && env.Keys == x.lay.Keys && fuel > 0
    ensures var o := EvalOpt(s.test, x.lay, env, 1); var r := Loop(s, x.lay, x.ret, env, fuel);
      && (o.DivTrap? ==> r == Trap)
      && (o.Val? && o.v == 0 ==> r == Normal(o.env))
      && (o.Val? && o.v != 0 ==>
            var i := AfterBody(Exec(s.body, x.lay, x.ret, o.env, fuel), s.brk, s.cont);
            && (i.Leave? ==> r == i.r)
            && (i.Again? ==>
                  && i.env.Keys == x.lay.Keys
                  && var q := EvalOpt(s.step, x.lay, i.env, 0);
                     && (q.DivTrap? ==> r == Trap)
                     && (q.Val? ==> r == Loop(s, x.lay, x.ret, q.env, fuel - 1))))
  {
  }

  lemma LoopNoFuel(s: Stmt, x: Context, env: Env)
    requires s.For? && StmtOk(s, x.lay) && env.Keys == x.lay.Keys
    ensures Loop(s, x.lay, x.ret, env, 0) == Timeout
  {
  }

  /** The test of a for loop, if there is one. */
  lemma TestFrom(low: nat, p: Program, e: Option<Expr>, lay: Layout, n: nat, lab: nat, env: Env, m: Cpu, m1: Cpu)
    returns (c: Config)
    requires WfOpt(e, lay) && Ready(low, p, BranchOpt(e, lay, n, lab), lay, env, m1, NeedOpt(e, lay))
    requires Runs(p, Running(m), Running(m1)) && Keeps(low, lay, m, m1)
    ensures Runs(p, Running(m), c)
    ensures match EvalOpt(e, lay, env, 1)
      case DivTrap => c == Trapped(VEC_DIV)
      case Val(v, env') =>
        Arrived(low, lay, m, c, if v == 0 then Find(p, lab) else m1.pc + |BranchOpt(e, lay, n, lab)|, env')
  {
    hide Runs, Slot, Disjoint, InSlot, UniqueLabels, At, GenBranch, Eval, Need, WellFormed, CastsFit;
    c := Running(m1);
    if e.Some? {
      c := BranchFrom(low, p, e.value, lay, n, lab, false, env, m, m1);
    }
  }

  /** The last clause of a for loop, if there is one. */
  lemma StepFrom(low: nat, p: Program, e: Option<Expr>, lay: Layout, n: nat, env: Env, m: Cpu, m1: Cpu)
    returns (c: Config)
    requires WfOpt(e, lay) && Ready(low, p, ExprOpt(e, lay, n), lay, env, m1, NeedOpt(e, lay))
    requires Runs(p, Running(m), Running(m1)) && Keeps(low, lay, m, m1)
    ensures Runs(p, Running(m), c)
    ensures match EvalOpt(e, lay, env, 0)
      case DivTrap => c == Trapped(VEC_DIV)
      case Val(_, env') => Arrived(low, lay, m, c, m1.pc + |ExprOpt(e, lay, n)|, env')
  {
    hide Runs, Slot, Disjoint, InSlot, UniqueLabels, At, GenExpr, Eval, Need, WellFormed, CastsFit;
    c := Running(m1);
    if e.Some? {
      c := ExprOk(low, p, e.value, lay, n, env, m1);
      RunsTrans(p, Running(m), Running(m1), c);
      if c.Running? {
        ArrivedTrans(low, lay, m, m1, c, c.m.pc, Eval(e.value, lay, env).env);
      }
    }
  }

  function TestLabels(s: Stmt, x: Context, nc: nat): nat
    requires s.For? && StmtOk(s, x.lay)
  {
    nc + LabelsBOpt(s.test, x.lay)
  }

  function BodyLabels(s: Stmt, x: Context, nc: nat): nat
    requires s.For? && StmtOk(s, x.lay)
  {
    TestLabels(s, x, nc) + LabelsS(s.body, x.lay)
  }

  lemma LoopLayout(p: Program, s: Stmt, x: Context, n: nat, nc: nat, base: nat) returns (i: nat, j: nat)
    requires s.For? && StmtOk(s, x.lay) && UniqueLabels(p) && At(p, base, LoopCode(s, x, n, nc))
    ensures var cq := BranchOpt(s.test, x.lay, nc, s.brk);
      var ca := GenStmt(s.body, x, TestLabels(s, x, nc));
      var ce := ExprOpt(s.step, x.lay, BodyLabels(s, x, nc));
      && i == base + 1 + |cq| + |ca| && j == i + 1 + |ce|
      && At(p, base + 1, cq) && At(p, base + 1 + |cq|, ca) && At(p, i + 1, ce)
      && LabelAt(p, base, n) && LabelAt(p, i, s.cont) && LabelAt(p, j + 1, s.brk)
      && p[j] == Jump(n) && j + 2 == base + |LoopCode(s, x, n, nc)|
  {
    hide UniqueLabels, At, GenStmt, LabelsS, LabelsBOpt, BranchOpt, ExprOpt, StmtOk;
    ForParts(s, x, n);
    var na, ne := TestLabels(s, x, nc), BodyLabels(s, x, nc);
    i, j := LoopPlaces(p, base, n, s.cont, s.brk, BranchOpt(s.test, x.lay, nc, s.brk), GenStmt(s.body, x, na),
                       ExprOpt(s.step, x.lay, ne));
  }

  lemma LoopPlaces(p: Program, base: nat, n: nat, cont: nat, brk: nat, cq: Code, ca: Code, ce: Code)
    returns (i: nat, j: nat)
    requires UniqueLabels(p)
    requires At(p, base, [Label(n)] + (cq + (ca + ([Label(cont)] + (ce + [Jump(n), Label(brk)])))))
    ensures i == base + 1 + |cq| + |ca| && j == i + 1 + |ce|
    ensures At(p, base + 1, cq) && At(p, base + 1 + |cq|, ca) && At(p, i + 1, ce) && j + 1 < |p| && p[j] == Jump(n)
    ensures LabelAt(p, base, n) && LabelAt(p, i, cont) && LabelAt(p, j + 1, brk)
  {
    hide UniqueLabels, At, Find;
    var tail := [Jump(n), Label(brk)];
    i := base + 1 + |cq| + |ca|;
    j := i + 1 + |ce|;
    AtThree(p, base, [Label(n)], cq, ca + ([Label(cont)] + (ce + tail)));
    AtSplit(p, base + 1 + |cq|, ca, [Label(cont)] + (ce + tail));
    AtThree(p, i, [Label(cont)], ce, tail);
    AtIndex(p, base, [Label(n)], 0);
    AtIndex(p, i, [Label(cont)], 0);
    AtIndex(p, j, tail, 0);
    AtIndex(p, j, tail, 1);
    FindUnique(p, n, base);
    FindUnique(p, cont, i);
    FindUnique(p, brk, j + 1);
  }

  lemma {:induction false} LoopOk(low: nat, p: Program, s: Stmt, x: Context, n: nat, nc: nat, env: Env, m: Cpu,
        m1: Cpu, fuel: nat)
    returns (c: Config)
    requires s.For? && StmtOk(s, x.lay) && Ready(low, p, LoopCode(s, x, n, nc), x.lay, env, m1, NeedS(s, x.lay))
    requires Runs(p, Running(m), Running(m1)) && Keeps(low, x.lay, m, m1) && low + 4 * NeedS(s, x.lay) <= m.sp
    ensures Runs(p, Running(m), c) && env.Keys == x.lay.Keys
    ensures StmtDone(low, p, Loop(s, x.lay, x.ret, env, fuel), x, m, c, m1.pc + |LoopCode(s, x, n, nc)|)
    decreases fuel, s, 0, 0
  {
    hide Runs, Models, Keeps, UniqueLabels, At, GenStmt, LabelsS, LabelsBOpt, BranchOpt, ExprOpt, EvalOpt, Exec,
      Loop, NeedS, NeedOpt, StmtOk, WfOpt, AfterBody, LoopCode, TestLabels, BodyLabels;
    ModelsTyped(x.lay, env, m1);
    c := Running(m1);
    if fuel == 0 {
      LoopNoFuel(s, x, env);
      return;
    }
    ForParts(s, x, n);
    LoopValue(s, x, env, fuel);
    var i, j := LoopLayout(p, s, x, n, nc, m1.pc);
    var na, ne := TestLabels(s, x, nc), BodyLabels(s, x, nc);
    var cq := BranchOpt(s.test, x.lay, nc, s.brk);
    c := OverLabel(low, p, x.lay, env, m, m1);
    ArrivedReady(low, p, cq, x.lay, m, c, m1.pc + 1, env, NeedOpt(s.test, x.lay));
    c := TestFrom(low, p, s.test, x.lay, nc, s.brk, env, m, c.m);
    var o := EvalOpt(s.test, x.lay, env, 1);
    if o.Val? {
      if o.v == 0 {
        c := OverLabel(low, p, x.lay, o.env, m, c.m);
      } else {
        ArrivedReady(low, p, GenStmt(s.body, x, na), x.lay, m, c, m1.pc + 1 + |cq|, o.env, NeedS(s.body, x.lay));
        c := StmtFrom(low, p, s.body, x, na, o.env, m, c.m, fuel);
        var r := Exec(s.body, x.lay, x.ret, o.env, fuel);
        c := BodyEnd(low, p, x, m, c, r, s.brk, s.cont, i, j + 1);
        var it := AfterBody(r, s.brk, s.cont);
        if it.Again? {
          c := OverLabel(low, p, x.lay, it.env, m, c.m);
          ArrivedReady(low, p, ExprOpt(s.step, x.lay, ne), x.lay, m, c, i + 1, it.env, NeedOpt(s.step, x.lay));
          c := StepFrom(low, p, s.step, x.lay, ne, it.env, m, c.m);
          var q := EvalOpt(s.step, x.lay, it.env, 0);
          if q.Val? {
            c := GoTo(low, p, x.lay, q.env, m, c.m, n);
            ArrivedReady(low, p, LoopCode(s, x, n, nc), x.lay, m, c, m1.pc, q.env, NeedS(s, x.lay));
            c := LoopOk(low, p, s, x, n, nc, q.env, m, c.m, fuel - 1);
          }
        }
      }
    }
  }

  // ---- switch ----

  lemma {:induction false} LabelledStmt(low: nat, p: Program, s: Stmt, x: Context, n: nat, env: Env, m: Cpu, fuel: nat)
    returns (c: Config)
    requires s.Labelled? && StmtOk(s, x.lay) && ReadyS(low, p, s, x, n, env, m)
    ensures Runs(p, Running(m), c)
    ensures StmtDone(low, p, Exec(s, x.lay, x.ret, env, fuel), x, m, c, m.pc + |GenStmt(s, x, n)|)
    decreases fuel, s, 0
  {
    hide Runs, Models, Keeps, UniqueLabels, At;
    RunsRefl(p, Running(m));
    KeepsSelf(low, x.lay, m);
    ModelsTyped(x.lay, env, m);
    var ca := GenStmt(s.stmt, x, n);
    AtSplit(p, m.pc, [Label(s.lab)], ca);
    AtIndex(p, m.pc, [Label(s.lab)], 0);
    c := OverLabel(low, p, x.lay, env, m, m);
    ArrivedReady(low, p, ca, x.lay, m, c, m.pc + 1, env, NeedS(s.stmt, x.lay));
    c := StmtFrom(low, p, s.stmt, x, n, env, m, c.m, fuel);
  }

  /** The comparisons: at the label of the first case with R0's bits, else behind them. */
  lemma {:induction false} CasesRun(low: nat, p: Program, cases: Cases, lay: Layout, env: Env, m: Cpu, m1: Cpu)
    returns (c: Config)
    requires At(p, m1.pc, CaseCode(cases)) && Runs(p, Running(m), Running(m1))
    requires Models(lay, env, m1) && Keeps(low, lay, m, m1)
    ensures Runs(p, Running(m), c)
    ensures var t := Target(cases, None, m1.regs.r0);
      Arrived(low, lay, m, c, if t.Some? then Find(p, t.value) else m1.pc + |CaseCode(cases)|, env)
    decreases cases
  {
    hide Runs, Models, Keeps, At;
    c := Running(m1);
    if cases.NoCase? {
    } else {
      var two, rest := [CmpImm(R0, cases.val), Branch(Eq, cases.lab)], CaseCode(cases.rest);
      AtSplit(p, m1.pc, two, rest);
      AtIndex(p, m1.pc, two, 0);
      AtIndex(p, m1.pc, two, 1);
      StepCmpImm(p, Running(m), m1, R0, cases.val);
      var m2 := Next(m1).(flags := SubFlags(m1.regs.r0, cases.val).1.(v := false));
      EqualBits(m1.regs.r0, cases.val);
      StepBranch(p, Running(m), m2, Eq, cases.lab);
      var m3 := if m1.regs.r0 == cases.val then m2.(pc := Find(p, cases.lab)) else Next(m2);
      c := Running(m3);
      ArrivedScratch(low, lay, env, m, m1, m3);
      if m1.regs.r0 != cases.val {
        ArrivedHere(low, lay, m, c, env);
        c := CasesRun(low, p, cases.rest, lay, env, m, m3);
      }
    }
  }

  lemma ArrivedHere(low: nat, lay: Layout, m: Cpu, c: Config, env: Env)
    requires c.Running? && Arrived(low, lay, m, c, c.m.pc, env)
    ensures env.Keys == lay.Keys && Models(lay, env, c.m) && Keeps(low, lay, m, c.m)
  {
  }

  /** A comparison sets Z exactly for equal words. */
  lemma EqualBits(a: Word, b: Word)
    ensures SubFlags(a, b).1.z <==> a == b
  {
  }

  /** The default is what is left when no case fits. */
  lemma {:induction false} TargetElse(cases: Cases, deflt: Option<nat>, w: Word)
    ensures Target(cases, deflt, w) == if Target(cases, None, w).Some? then Target(cases, None, w) else deflt
  {
    if cases.NoCase? {
    } else {
      TargetElse(cases.rest, deflt, w);
    }
  }

  lemma FromParts(s: Stmt, x: Context, n: nat, lab: nat, env: Env, fuel: nat)
    requires StmtOk(s, x.lay) && env.Keys == x.lay.Keys
    ensures s.Labelled? ==>
      && StmtOk(s.stmt, x.lay) && NeedS(s.stmt, x.lay) == NeedS(s, x.lay)
      && GenStmt(s, x, n) == [Label(s.lab)] + GenStmt(s.stmt, x, n)
      && ExecFrom(s, lab, x.lay, x.ret, env, fuel)
         == if s.lab == lab then Exec(s.stmt, x.lay, x.ret, env, fuel)
            else ExecFrom(s.stmt, lab, x.lay, x.ret, env, fuel)
    ensures s.Then? ==>
      && StmtOk(s.first, x.lay) && StmtOk(s.second, x.lay)
      && NeedS(s.first, x.lay) <= NeedS(s, x.lay) && NeedS(s.second, x.lay) <= NeedS(s, x.lay)
      && GenStmt(s, x, n) == GenStmt(s.first, x, n) + GenStmt(s.second, x, n + LabelsS(s.first, x.lay))
      && var r, a := ExecFrom(s, lab, x.lay, x.ret, env, fuel), ExecFrom(s.first, lab, x.lay, x.ret, env, fuel);
         r == if !HasLab(s.first, lab) then ExecFrom(s.second, lab, x.lay, x.ret, env, fuel)
              else if a.Normal? then Exec(s.second, x.lay, x.ret, a.env, fuel) else a
    ensures !s.Labelled? && !s.Then? ==> ExecFrom(s, lab, x.lay, x.ret, env, fuel) == Went(lab, env)
  {
    hide Eval;
  }

  /** A sequence entered at one of its labels; base is where its code starts. */
  lemma {:induction false} RunFrom(low: nat, p: Program, s: Stmt, x: Context, n: nat, lab: nat, env: Env, m: Cpu,
        m1: Cpu, base: nat, fuel: nat)
    returns (c: Config)
    requires StmtOk(s, x.lay) && At(p, base, GenStmt(s, x, n)) && UniqueLabels(p) && env.Keys == x.lay.Keys
    requires Runs(p, Running(m), Running(m1)) && Arrived(low, x.lay, m, Running(m1), Find(p, lab), env)
    requires low + 4 * NeedS(s, x.lay) <= m.sp
    ensures Runs(p, Running(m), c)
    ensures StmtDone(low, p, ExecFrom(s, lab, x.lay, x.ret, env, fuel), x, m, c, base + |GenStmt(s, x, n)|)
    decreases fuel, s, 0
  {
    hide Runs, Models, Keeps, UniqueLabels, At, Exec, GenStmt, NeedS, StmtOk, LabelsS, ExecFrom;
    FromParts(s, x, n, lab, env, fuel);
    c := Running(m1);
    match s
    case Labelled(l, a) =>
      var ca := GenStmt(a, x, n);
      AtSplit(p, base, [Label(l)], ca);
      if l == lab {
        AtIndex(p, base, [Label(l)], 0);
        FindUnique(p, l, base);
        c := OverLabel(low, p, x.lay, env, m, m1);
        ArrivedReady(low, p, ca, x.lay, m, c, base + 1, env, NeedS(a, x.lay));
        c := StmtFrom(low, p, a, x, n, env, m, c.m, fuel);
      } else {
        c := RunFrom(low, p, a, x, n, lab, env, m, m1, base + 1, fuel);
      }
    case Then(a, b) =>
      var nb := n + LabelsS(a, x.lay);
      var ca, cb := GenStmt(a, x, n), GenStmt(b, x, nb);
      AtSplit(p, base, ca, cb);
      if !HasLab(a, lab) {
        c := RunFrom(low, p, b, x, nb, lab, env, m, m1, base + |ca|, fuel);
      } else {
        c := RunFrom(low, p, a, x, n, lab, env, m, m1, base, fuel);
        var r := ExecFrom(a, lab, x.lay, x.ret, env, fuel);
        if r.Normal? {
          ArrivedReady(low, p, cb, x.lay, m, c, base + |ca|, r.env, NeedS(b, x.lay));
          c := StmtFrom(low, p, b, x, nb, r.env, m, c.m, fuel);
        }
      }
    case _ =>
  }

  lemma SwitchParts(s: Stmt, x: Context, n: nat)
    requires s.Switch? && StmtOk(s, x.lay)
    ensures WellFormed(s.c, x.lay) && CastsFit(s.c) && StmtOk(s.body, x.lay)
    ensures Need(s.c, x.lay) <= NeedS(s, x.lay) && NeedS(s.body, x.lay) <= NeedS(s, x.lay)
    ensures GenStmt(s, x, n)
            == GenExpr(s.c, x.lay, n)
               + (CaseCode(s.cases)
                  + ([Jump(if s.deflt.Some? then s.deflt.value else s.brk)]
                     + (GenStmt(s.body, x, n + LabelsE(s.c, x.lay)) + [Label(s.brk)])))
  {
    hide GenExpr, LabelsE, WellFormed, CastsFit, Need;
  }

  lemma SwitchLayout(p: Program, s: Stmt, x: Context, n: nat, base: nat)
    requires s.Switch? && StmtOk(s, x.lay) && UniqueLabels(p) && At(p, base, GenStmt(s, x, n))
    ensures
      var cq, cc, ca := GenExpr(s.c, x.lay, n), CaseCode(s.cases), GenStmt(s.body, x, n + LabelsE(s.c, x.lay));
      var i := base + |cq| + |cc|;
      && At(p, base, cq) && At(p, base + |cq|, cc) && At(p, i + 1, ca)
      && i < |p| && p[i] == Jump(if s.deflt.Some? then s.deflt.value else s.brk)
      && LabelAt(p, i + 1 + |ca|, s.brk) && i + 2 + |ca| == base + |GenStmt(s, x, n)|
  {
    hide UniqueLabels, At, GenStmt, LabelsE, GenExpr, CaseCode, StmtOk, WellFormed, CastsFit, Need, NeedS;
    SwitchParts(s, x, n);
    var cq, cc, ca := GenExpr(s.c, x.lay, n), CaseCode(s.cases), GenStmt(s.body, x, n + LabelsE(s.c, x.lay));
    var go := [Jump(if s.deflt.Some? then s.deflt.value else s.brk)];
    var i := base + |cq| + |cc|;
    AtThree(p, base, cq, cc, go + (ca + [Label(s.brk)]));
    AtThree(p, i, go, ca, [Label(s.brk)]);
    AtIndex(p, i, go, 0);
    AtIndex(p, i + 1 + |ca|, [Label(s.brk)], 0);
    FindUnique(p, s.brk, i + 1 + |ca|);
  }

  lemma SwitchValue(s: Stmt, x: Context, env: Env, fuel: nat)
    requires s.Switch? && StmtOk(s, x.lay) && env.Keys == x.lay.Keys
    ensures var o := Eval(s.c, x.lay, env); var r := Exec(s, x.lay, x.ret, env, fuel);
      && (o.DivTrap? ==> r == Trap)
      && (o.Val? ==>
            var t := Target(s.cases, s.deflt, Repr(o.v));
            && (t.None? ==> r == Normal(o.env))
            && (t.Some? ==> r == AfterSwitch(ExecFrom(s.body, t.value, x.lay, x.ret, o.env, fuel), s.brk)))
  {
  }

  /** After the expression and the comparisons the machine stands at the label the switch goes to. */
  lemma SwitchJump(low: nat, p: Program, s: Stmt, x: Context, n: nat, env: Env, m: Cpu) returns (c: Config)
    requires s.Switch? && StmtOk(s, x.lay) && ReadyS(low, p, s, x, n, env, m) && env.Keys == x.lay.Keys
    ensures Runs(p, Running(m), c)
    ensures match Eval(s.c, x.lay, env)
      case DivTrap => c == Trapped(VEC_DIV)
      case Val(v, env') =>
        var t := Target(s.cases, s.deflt, Repr(v));
        Arrived(low, x.lay, m, c, Find(p, if t.Some? then t.value else s.brk), env') && env'.Keys == x.lay.Keys
  {
    hide Runs, Models, Keeps, UniqueLabels, At, GenStmt, GenExpr, LabelsE, Eval, NeedS, Need, StmtOk, WellFormed,
      CastsFit, CaseCode;
    SwitchParts(s, x, n);
    SwitchLayout(p, s, x, n, m.pc);
    c := ExprOk(low, p, s.c, x.lay, n, env, m);
    var o := Eval(s.c, x.lay, env);
    if o.Val? {
      ArrivedHere(low, x.lay, m, c, o.env);
      TargetElse(s.cases, s.deflt, Repr(o.v));
      c := CasesRun(low, p, s.cases, x.lay, o.env, m, c.m);
      if Target(s.cases, None, Repr(o.v)).None? {
        ArrivedHere(low, x.lay, m, c, o.env);
        c := GoTo(low, p, x.lay, o.env, m, c.m, if s.deflt.Some? then s.deflt.value else s.brk);
      }
    }
  }

  lemma {:induction false} SwitchStmt(low: nat, p: Program, s: Stmt, x: Context, n: nat, env: Env, m: Cpu, fuel: nat)
    returns (c: Config)
    requires s.Switch? && StmtOk(s, x.lay) && ReadyS(low, p, s, x, n, env, m)
    ensures Runs(p, Running(m), c)
    ensures StmtDone(low, p, Exec(s, x.lay, x.ret, env, fuel), x, m, c, m.pc + |GenStmt(s, x, n)|)
    decreases fuel, s, 0
  {
    hide Runs, Models, Keeps, UniqueLabels, At, GenStmt, GenExpr, LabelsE, Eval, Exec, ExecFrom, NeedS, Need, StmtOk,
      WellFormed, CastsFit, CaseCode, Target;
    ModelsTyped(x.lay, env, m);
    SwitchParts(s, x, n);
    SwitchValue(s, x, env, fuel);
    SwitchLayout(p, s, x, n, m.pc);
    var na := n + LabelsE(s.c, x.lay);
    var base := m.pc + |GenExpr(s.c, x.lay, n)| + |CaseCode(s.cases)| + 1;
    c := SwitchJump(low, p, s, x, n, env, m);
    var o := Eval(s.c, x.lay, env);
    if o.Val? {
      var t := Target(s.cases, s.deflt, Repr(o.v));
      if t.Some? {
        c := RunFrom(low, p, s.body, x, na, t.value, o.env, m, c.m, base, fuel);
        var r := ExecFrom(s.body, t.value, x.lay, x.ret, o.env, fuel);
        if r.Normal? || (r.Went? && r.lab == s.brk) {
          ArrivedHere(low, x.lay, m, c, r.env);
          c := OverLabel(low, p, x.lay, r.env, m, c.m);
        }
      } else {
        ArrivedHere(low, x.lay, m, c, o.env);
        c := OverLabel(low, p, x.lay, o.env, m, c.m);
      }
    }
  }
}
