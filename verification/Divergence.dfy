/** Statements that never end: their code runs for ever, neither trapping nor leaving. With the results for
    executions that end, what a call does is what the body means, whichever it is. */
module Divergence {
  import opened Wrappers
  import opened Words
  import opened Machine
  import opened CLang
  import opened CodeGen
  import opened Frames
  import opened CompileExpr
  import opened Statements
  import opened CompileStmt
  import opened Labels
  import opened Functions

  // ---- long runs ----

  /** The machine still runs after k steps or more. */
  ghost predicate Longer(p: Program, a: Config, k: nat) {
    exists n: nat :: n >= k && Iterate(p, a, n).Running?
  }

  lemma LongerRuns(p: Program, a: Config, b: Config, k: nat)
    requires Runs(p, a, b) && Longer(p, b, k)
    ensures Longer(p, a, k)
  {
    var n: nat :| Iterate(p, a, n) == b;
    var j: nat :| j >= k && Iterate(p, b, j).Running?;
    IterateAdd(p, a, n, j);
    assert Iterate(p, a, n + j).Running?;
  }

  lemma LongerStep(p: Program, a: Config, k: nat)
    requires Longer(p, Step(p, a), k)
    ensures Longer(p, a, k + 1)
  {
    var j: nat :| j >= k && Iterate(p, Step(p, a), j).Running?;
    assert Iterate(p, a, j + 1).Running?;
  }

  lemma LongerLess(p: Program, a: Config, k: nat)
    requires Longer(p, a, k + 1)
    ensures Longer(p, a, k)
  {
    var j: nat :| j >= k + 1 && Iterate(p, a, j).Running?;
  }

  lemma LongerNow(p: Program, m: Cpu)
    ensures Longer(p, Running(m), 0)
  {
    assert Iterate(p, Running(m), 0).Running?;
  }

  /** A machine that has stopped stays so. */
  lemma {:induction false} Stays(p: Program, c: Config, n: nat)
    requires !c.Running?
    ensures Iterate(p, c, n) == c
  {
    if n == 0 {
    } else {
      Stays(p, c, n - 1);
    }
  }

  lemma RunsOn(p: Program, a: Config, k: nat)
    requires Longer(p, a, k)
    ensures Iterate(p, a, k).Running?
  {
    var n: nat :| n >= k && Iterate(p, a, n).Running?;
    IterateAdd(p, a, k, n - k);
    if !Iterate(p, a, k).Running? {
      Stays(p, Iterate(p, a, k), n - k);
    }
  }

  /** From a label: the step over it counts. */
  lemma OverCounts(p: Program, m: Cpu, k: nat)
    requires m.pc < |p| && p[m.pc].Label? && Longer(p, Running(Next(m)), k)
    ensures Longer(p, Running(m), k + 1) && Longer(p, Running(m), k)
  {
    hide Longer;
    assert Step(p, Running(m)) == Running(Next(m));
    LongerStep(p, Running(m), k);
    LongerLess(p, Running(m), k);
  }

  // ---- statements ----

  /** If the bound on iterations is reached, so many steps were made. */
  lemma {:induction false} TimeoutRuns(low: nat, p: Program, s: Stmt, x: Context, n: nat, env: Env, m: Cpu, fuel: nat)
    requires StmtOk(s, x.lay) && ReadyS(low, p, s, x, n, env, m) && env.Keys == x.lay.Keys
    requires Exec(s, x.lay, x.ret, env, fuel).Timeout?
    ensures Longer(p, Running(m), fuel)
    decreases fuel, s, 1
  {
    hide Runs, Models, At, UniqueLabels, Keeps, GenStmt, NeedS, StmtOk, Longer, Eval, Loop, AfterBody, ExecWhile,
      ExecDoWhile, ExecSwitch;
    match s
    case Then(_, _) => ThenRuns(low, p, s, x, n, env, m, fuel);
    case IfThen(_, _) => IfThenRuns(low, p, s, x, n, env, m, fuel);
    case IfElse(_, _, _) => IfElseRuns(low, p, s, x, n, env, m, fuel);
    case While(_, _, _, _) => WhileRuns(low, p, s, x, n, env, m, fuel);
    case DoWhile(_, _, _, _) => DoWhileRuns(low, p, s, x, n, env, m, fuel);
    case For(_, _, _, _, _, _) => ForRuns(low, p, s, x, n, env, m, fuel);
    case Labelled(_, _) => LabelledRuns(low, p, s, x, n, env, m, fuel);
    case Switch(_, _, _, _, _) => SwitchRuns(low, p, s, x, n, env, m, fuel);
    case _ =>
  }

  /** The same from a state reached. */
  lemma {:induction false} TimeoutFrom(low: nat, p: Program, s: Stmt, x: Context, n: nat, env: Env, m: Cpu, m1: Cpu,
        fuel: nat)
    requires StmtOk(s, x.lay) && ReadyS(low, p, s, x, n, env, m1) && env.Keys == x.lay.Keys
    requires Exec(s, x.lay, x.ret, env, fuel).Timeout? && Runs(p, Running(m), Running(m1))
    ensures Longer(p, Running(m), fuel)
    decreases fuel, s, 2
  {
    hide Runs, Models, At, UniqueLabels, Keeps, GenStmt, NeedS, StmtOk, Longer, Exec;
    TimeoutRuns(low, p, s, x, n, env, m1, fuel);
    LongerRuns(p, Running(m), Running(m1), fuel);
  }

  lemma {:induction false} ThenRuns(low: nat, p: Program, s: Stmt, x: Context, n: nat, env: Env, m: Cpu, fuel: nat)
    requires s.Then? && StmtOk(s, x.lay) && ReadyS(low, p, s, x, n, env, m) && env.Keys == x.lay.Keys
    requires Exec(s, x.lay, x.ret, env, fuel).Timeout?
    ensures Longer(p, Running(m), fuel)
    decreases fuel, s, 0
  {
    hide Runs, Slot, Disjoint, InSlot, UniqueLabels, At, Longer;
    var nb := n + LabelsS(s.first, x.lay);
    AtSplit(p, m.pc, GenStmt(s.first, x, n), GenStmt(s.second, x, nb));
    var r := Exec(s.first, x.lay, x.ret, env, fuel);
    if r.Timeout? {
      TimeoutRuns(low, p, s.first, x, n, env, m, fuel);
    } else {
      var c := RunStmt(low, p, s.first, x, n, env, m, fuel);
      TimeoutFrom(low, p, s.second, x, nb, r.env, m, c.m, fuel);
    }
  }

  lemma {:induction false} IfThenRuns(low: nat, p: Program, s: Stmt, x: Context, n: nat, env: Env, m: Cpu, fuel: nat)
    requires s.IfThen? && StmtOk(s, x.lay) && ReadyS(low, p, s, x, n, env, m) && env.Keys == x.lay.Keys
    requires Exec(s, x.lay, x.ret, env, fuel).Timeout?
    ensures Longer(p, Running(m), fuel)
    decreases fuel, s, 0
  {
    hide Runs, Models, Keeps, UniqueLabels, At, GenStmt, LabelsS, LabelsB, GenBranch, Eval, Exec, NeedS, Need,
      StmtOk, WellFormed, CastsFit, Longer;
    IfParts(s, x, n);
    IfValue(s, x, env, fuel);
    var na := n + 1 + LabelsB(s.c, x.lay, false);
    var cq, ca := GenBranch(s.c, x.lay, n + 1, n, false), GenStmt(s.yes, x, na);
    AtSplit(p, m.pc, cq, ca + [Label(n)]);
    AtSplit(p, m.pc + |cq|, ca, [Label(n)]);
    var c := BranchOk(low, p, s.c, x.lay, n + 1, n, false, env, m);
    var o := Eval(s.c, x.lay, env);
    ArrivedReady(low, p, ca, x.lay, m, c, m.pc + |cq|, o.env, NeedS(s.yes, x.lay));
    ModelsTyped(x.lay, o.env, c.m);
    TimeoutFrom(low, p, s.yes, x, na, o.env, m, c.m, fuel);
  }

  lemma {:induction false} IfElseRuns(low: nat, p: Program, s: Stmt, x: Context, n: nat, env: Env, m: Cpu, fuel: nat)
    requires s.IfElse? && StmtOk(s, x.lay) && ReadyS(low, p, s, x, n, env, m) && env.Keys == x.lay.Keys
    requires Exec(s, x.lay, x.ret, env, fuel).Timeout?
    ensures Longer(p, Running(m), fuel)
    decreases fuel, s, 0
  {
    hide Runs, Models, Keeps, UniqueLabels, At, GenStmt, LabelsS, LabelsB, GenBranch, Eval, Exec, NeedS, Need,
      StmtOk, WellFormed, CastsFit, Longer;
    IfParts(s, x, n);
    IfValue(s, x, env, fuel);
    IfElseLayout(p, s, x, n, m.pc);
    var na := n + 1 + LabelsB(s.c, x.lay, false);
    var l2 := na + LabelsS(s.yes, x.lay);
    var cq, ca, cb := GenBranch(s.c, x.lay, n + 1, n, false), GenStmt(s.yes, x, na), GenStmt(s.no, x, l2 + 1);
    var i := m.pc + |cq| + |ca|;
    var c := BranchOk(low, p, s.c, x.lay, n + 1, n, false, env, m);
    var o := Eval(s.c, x.lay, env);
    ArrivedHere(low, x.lay, m, c, o.env);
    if o.v != 0 {
      ArrivedReady(low, p, ca, x.lay, m, c, m.pc + |cq|, o.env, NeedS(s.yes, x.lay));
      TimeoutFrom(low, p, s.yes, x, na, o.env, m, c.m, fuel);
    } else {
      c := OverLabel(low, p, x.lay, o.env, m, c.m);
      ArrivedReady(low, p, cb, x.lay, m, c, i + 2, o.env, NeedS(s.no, x.lay));
      TimeoutFrom(low, p, s.no, x, l2 + 1, o.env, m, c.m, fuel);
    }
  }

  // ---- loops ----

  lemma {:induction false} WhileRuns(low: nat, p: Program, s: Stmt, x: Context, n: nat, env: Env, m: Cpu, fuel: nat)
    requires s.While? && StmtOk(s, x.lay) && ReadyS(low, p, s, x, n, env, m) && env.Keys == x.lay.Keys
    requires Exec(s, x.lay, x.ret, env, fuel).Timeout?
    ensures Longer(p, Running(m), fuel)
    decreases fuel, s, 0
  {
    hide Runs, Models, Keeps, UniqueLabels, At, GenStmt, LabelsS, LabelsB, GenBranch, Eval, Exec, NeedS, Need,
      StmtOk, WellFormed, CastsFit, AfterBody, Longer;
    LongerNow(p, m);
    if fuel == 0 {
      return;
    }
    RunsRefl(p, Running(m));
    RunsRefl(p, Running(Next(m)));
    KeepsSelf(low, x.lay, m);
    KeepsSelf(low, x.lay, Next(m));
    WhileParts(s, x, n);
    WhileValue(s, x, env, fuel);
    WhileLayout(p, s, x, n, m.pc);
    var na := n + LabelsB(s.c, x.lay, false);
    var cq, ca := GenBranch(s.c, x.lay, n, s.brk, false), GenStmt(s.body, x, na);
    var i := m.pc + 1 + |cq| + |ca|;
    var c := OverLabel(low, p, x.lay, env, m, m);
    var m1 := c.m;
    ArrivedReady(low, p, cq, x.lay, m, c, m.pc + 1, env, Need(s.c, x.lay));
    c := BranchFrom(low, p, s.c, x.lay, n, s.brk, false, env, m1, m1);
    var o := Eval(s.c, x.lay, env);
    ArrivedHere(low, x.lay, m1, c, o.env);
    ArrivedReady(low, p, ca, x.lay, m1, c, m.pc + 1 + |cq|, o.env, NeedS(s.body, x.lay));
    var r := Exec(s.body, x.lay, x.ret, o.env, fuel);
    if r.Timeout? {
      TimeoutFrom(low, p, s.body, x, na, o.env, m1, c.m, fuel);
      OverCounts(p, m, fuel);
    } else {
      c := StmtFrom(low, p, s.body, x, na, o.env, m1, c.m, fuel);
      c := BodyEnd(low, p, x, m1, c, r, s.brk, s.cont, i, i + 1);
      var it := AfterBody(r, s.brk, s.cont);
      OnlyBody(r, s.brk, s.cont);
      if r.Normal? {
        c := GoTo(low, p, x.lay, it.env, m1, c.m, s.cont);
      }
      ArrivedReady(low, p, GenStmt(s, x, n), x.lay, m1, c, m.pc, it.env, NeedS(s, x.lay));
      TimeoutFrom(low, p, s, x, n, it.env, m1, c.m, fuel - 1);
      OverCounts(p, m, fuel - 1);
    }
  }

  /** A loop body that ended does not end the loop without an end. */
  lemma OnlyBody(r: Result, brk: nat, cont: nat)
    ensures AfterBody(r, brk, cont) == Leave(Timeout) ==> r.Timeout?
  {
  }

  lemma {:induction false} DoWhileRuns(low: nat, p: Program, s: Stmt, x: Context, n: nat, env: Env, m: Cpu, fuel: nat)
    requires s.DoWhile? && StmtOk(s, x.lay) && ReadyS(low, p, s, x, n, env, m) && env.Keys == x.lay.Keys
    requires Exec(s, x.lay, x.ret, env, fuel).Timeout?
    ensures Longer(p, Running(m), fuel)
    decreases fuel, s, 0
  {
    hide Runs, Models, Keeps, UniqueLabels, At, GenStmt, LabelsS, LabelsB, GenBranch, Eval, Exec, NeedS, Need,
      StmtOk, WellFormed, CastsFit, AfterBody, Longer;
    LongerNow(p, m);
    if fuel == 0 {
      return;
    }
    RunsRefl(p, Running(m));
    RunsRefl(p, Running(Next(m)));
    KeepsSelf(low, x.lay, m);
    KeepsSelf(low, x.lay, Next(m));
    DoWhileParts(s, x, n);
    DoWhileValue(s, x, env, fuel);
    DoWhileLayout(p, s, x, n, m.pc);
    var nc := n + 1 + LabelsS(s.body, x.lay);
    var cq := GenBranch(s.c, x.lay, nc, n, true);
    var i := m.pc + 1 + |GenStmt(s.body, x, n + 1)|;
    var j := i + 1 + |cq|;
    var c := OverLabel(low, p, x.lay, env, m, m);
    var m1 := c.m;
    ArrivedReady(low, p, GenStmt(s.body, x, n + 1), x.lay, m, c, m.pc + 1, env, NeedS(s.body, x.lay));
    var r := Exec(s.body, x.lay, x.ret, env, fuel);
    if r.Timeout? {
      TimeoutRuns(low, p, s.body, x, n + 1, env, m1, fuel);
      OverCounts(p, m, fuel);
    } else {
      c := StmtFrom(low, p, s.body, x, n + 1, env, m1, m1, fuel);
      c := BodyEnd(low, p, x, m1, c, r, s.brk, s.cont, i, j);
      var it := AfterBody(r, s.brk, s.cont);
      OnlyBody(r, s.brk, s.cont);
      c := OverLabel(low, p, x.lay, it.env, m1, c.m);
      ArrivedReady(low, p, cq, x.lay, m1, c, i + 1, it.env, Need(s.c, x.lay));
      c := BranchFrom(low, p, s.c, x.lay, nc, n, true, it.env, m1, c.m);
      var o := Eval(s.c, x.lay, it.env);
      ArrivedHere(low, x.lay, m1, c, o.env);
      ArrivedReady(low, p, GenStmt(s, x, n), x.lay, m1, c, m.pc, o.env, NeedS(s, x.lay));
      TimeoutFrom(low, p, s, x, n, o.env, m1, c.m, fuel - 1);
      OverCounts(p, m, fuel - 1);
    }
  }

  lemma {:induction false} ForRuns(low: nat, p: Program, s: Stmt, x: Context, n: nat, env: Env, m: Cpu, fuel: nat)
    requires s.For? && StmtOk(s, x.lay) && ReadyS(low, p, s, x, n, env, m) && env.Keys == x.lay.Keys
    requires Exec(s, x.lay, x.ret, env, fuel).Timeout?
    ensures Longer(p, Running(m), fuel)
    decreases fuel, s, 0, 1
  {
    hide Runs, Models, Keeps, UniqueLabels, At, GenStmt, LabelsS, Exec, Loop, NeedS, StmtOk, LoopCode, Longer;
    ForParts(s, x, n);
    ForShape(s, x, n);
    ForValue(s, x, env, fuel);
    var nc := n + 1 + LabelsS(s.init, x.lay);
    AtSplit(p, m.pc, GenStmt(s.init, x, n + 1), LoopCode(s, x, n, nc));
    var r := Exec(s.init, x.lay, x.ret, env, fuel);
    if r.Timeout? {
      TimeoutRuns(low, p, s.init, x, n + 1, env, m, fuel);
    } else {
      var c := RunStmt(low, p, s.init, x, n + 1, env, m, fuel);
      ArrivedReady(low, p, LoopCode(s, x, n, nc), x.lay, m, c, c.m.pc, r.env, NeedS(s, x.lay));
      LoopRuns(low, p, s, x, n, nc, r.env, c.m, fuel);
      LongerRuns(p, Running(m), c, fuel);
    }
  }

  lemma {:induction false} LoopRuns(low: nat, p: Program, s: Stmt, x: Context, n: nat, nc: nat, env: Env, m: Cpu,
        fuel: nat)
    requires s.For? && StmtOk(s, x.lay) && Ready(low, p, LoopCode(s, x, n, nc), x.lay, env, m, NeedS(s, x.lay))
    requires env.Keys == x.lay.Keys && Loop(s, x.lay, x.ret, env, fuel).Timeout?
    ensures Longer(p, Running(m), fuel)
    decreases fuel, s, 0, 0
  {
    hide Runs, Models, Keeps, UniqueLabels, At, GenStmt, LabelsS, LabelsBOpt, BranchOpt, ExprOpt, EvalOpt, Exec,
      Loop, NeedS, NeedOpt, StmtOk, WfOpt, AfterBody, LoopCode, TestLabels, BodyLabels, Longer;
    LongerNow(p, m);
    if fuel == 0 {
      return;
    }
    RunsRefl(p, Running(m));
    RunsRefl(p, Running(Next(m)));
    KeepsSelf(low, x.lay, m);
    KeepsSelf(low, x.lay, Next(m));
    ForParts(s, x, n);
    LoopValue(s, x, env, fuel);
    var i, j := LoopLayout(p, s, x, n, nc, m.pc);
    var na, ne := TestLabels(s, x, nc), BodyLabels(s, x, nc);
    var cq := BranchOpt(s.test, x.lay, nc, s.brk);
    var c := OverLabel(low, p, x.lay, env, m, m);
    var m1 := c.m;
    ArrivedReady(low, p, cq, x.lay, m, c, m.pc + 1, env, NeedOpt(s.test, x.lay));
    c := TestFrom(low, p, s.test, x.lay, nc, s.brk, env, m1, m1);
    var o := EvalOpt(s.test, x.lay, env, 1);
    ArrivedHere(low, x.lay, m1, c, o.env);
    ArrivedReady(low, p, GenStmt(s.body, x, na), x.lay, m1, c, m.pc + 1 + |cq|, o.env, NeedS(s.body, x.lay));
    var r := Exec(s.body, x.lay, x.ret, o.env, fuel);
    if r.Timeout? {
      TimeoutFrom(low, p, s.body, x, na, o.env, m1, c.m, fuel);
      OverCounts(p, m, fuel);
    } else {
      c := StmtFrom(low, p, s.body, x, na, o.env, m1, c.m, fuel);
      c := BodyEnd(low, p, x, m1, c, r, s.brk, s.cont, i, j + 1);
      var it := AfterBody(r, s.brk, s.cont);
      OnlyBody(r, s.brk, s.cont);
      c := OverLabel(low, p, x.lay, it.env, m1, c.m);
      ArrivedReady(low, p, ExprOpt(s.step, x.lay, ne), x.lay, m1, c, i + 1, it.env, NeedOpt(s.step, x.lay));
      c := StepFrom(low, p, s.step, x.lay, ne, it.env, m1, c.m);
      var q := EvalOpt(s.step, x.lay, it.env, 0);
      c := GoTo(low, p, x.lay, q.env, m1, c.m, n);
      ArrivedHere(low, x.lay, m1, c, q.env);
      ArrivedReady(low, p, LoopCode(s, x, n, nc), x.lay, m1, c, m.pc, q.env, NeedS(s, x.lay));
      LoopRuns(low, p, s, x, n, nc, q.env, c.m, fuel - 1);
      LongerRuns(p, Running(m1), c, fuel - 1);
      OverCounts(p, m, fuel - 1);
    }
  }

  // ---- switch ----

  lemma {:induction false} LabelledRuns(low: nat, p: Program, s: Stmt, x: Context, n: nat, env: Env, m: Cpu, fuel: nat)
    requires s.Labelled? && StmtOk(s, x.lay) && ReadyS(low, p, s, x, n, env, m) && env.Keys == x.lay.Keys
    requires Exec(s, x.lay, x.ret, env, fuel).Timeout?
    ensures Longer(p, Running(m), fuel)
    decreases fuel, s, 0
  {
    hide Runs, Models, Keeps, UniqueLabels, At, Longer;
    RunsRefl(p, Running(m));
    KeepsSelf(low, x.lay, m);
    var ca := GenStmt(s.stmt, x, n);
    AtSplit(p, m.pc, [Label(s.lab)], ca);
    AtIndex(p, m.pc, [Label(s.lab)], 0);
    var c := OverLabel(low, p, x.lay, env, m, m);
    ArrivedReady(low, p, ca, x.lay, m, c, m.pc + 1, env, NeedS(s.stmt, x.lay));
    TimeoutFrom(low, p, s.stmt, x, n, env, m, c.m, fuel);
  }

  lemma {:induction false} SwitchRuns(low: nat, p: Program, s: Stmt, x: Context, n: nat, env: Env, m: Cpu, fuel: nat)
    requires s.Switch? && StmtOk(s, x.lay) && ReadyS(low, p, s, x, n, env, m) && env.Keys == x.lay.Keys
    requires Exec(s, x.lay, x.ret, env, fuel).Timeout?
    ensures Longer(p, Running(m), fuel)
    decreases fuel, s, 0
  {
    hide Runs, Models, Keeps, UniqueLabels, At, GenStmt, GenExpr, LabelsE, Eval, Exec, ExecFrom, NeedS, Need, StmtOk,
      WellFormed, CastsFit, CaseCode, Target, Longer;
    SwitchParts(s, x, n);
    SwitchValue(s, x, env, fuel);
    SwitchLayout(p, s, x, n, m.pc);
    var na := n + LabelsE(s.c, x.lay);
    var base := m.pc + |GenExpr(s.c, x.lay, n)| + |CaseCode(s.cases)| + 1;
    var c := SwitchJump(low, p, s, x, n, env, m);
    var o := Eval(s.c, x.lay, env);
    FromRuns(low, p, s.body, x, na, Target(s.cases, s.deflt, Repr(o.v)).value, o.env, m, c.m, base, fuel);
  }

  lemma {:induction false} FromRuns(low: nat, p: Program, s: Stmt, x: Context, n: nat, lab: nat, env: Env, m: Cpu,
        m1: Cpu, base: nat, fuel: nat)
    requires StmtOk(s, x.lay) && At(p, base, GenStmt(s, x, n)) && UniqueLabels(p) && env.Keys == x.lay.Keys
    requires Runs(p, Running(m), Running(m1)) && Arrived(low, x.lay, m, Running(m1), Find(p, lab), env)
    requires low + 4 * NeedS(s, x.lay) <= m.sp && ExecFrom(s, lab, x.lay, x.ret, env, fuel).Timeout?
    ensures Longer(p, Running(m), fuel)
    decreases fuel, s, 0
  {
    hide Runs, Models, Keeps, UniqueLabels, At, Exec, GenStmt, NeedS, StmtOk, LabelsS, ExecFrom, Longer;
    FromParts(s, x, n, lab, env, fuel);
    match s
    case Labelled(l, a) =>
      var ca := GenStmt(a, x, n);
      AtSplit(p, base, [Label(l)], ca);
      if l == lab {
        AtIndex(p, base, [Label(l)], 0);
        FindUnique(p, l, base);
        var c := OverLabel(low, p, x.lay, env, m, m1);
        ArrivedReady(low, p, ca, x.lay, m, c, base + 1, env, NeedS(a, x.lay));
        TimeoutFrom(low, p, a, x, n, env, m, c.m, fuel);
      } else {
        FromRuns(low, p, a, x, n, lab, env, m, m1, base + 1, fuel);
      }
    case Then(a, b) =>
      var nb := n + LabelsS(a, x.lay);
      var ca, cb := GenStmt(a, x, n), GenStmt(b, x, nb);
      AtSplit(p, base, ca, cb);
      var r := ExecFrom(a, lab, x.lay, x.ret, env, fuel);
      if !HasLab(a, lab) {
        FromRuns(low, p, b, x, nb, lab, env, m, m1, base + |ca|, fuel);
      } else if r.Timeout? {
        FromRuns(low, p, a, x, n, lab, env, m, m1, base, fuel);
      } else {
        var c := RunFrom(low, p, a, x, n, lab, env, m, m1, base, fuel);
        ArrivedReady(low, p, cb, x.lay, m, c, base + |ca|, r.env, NeedS(b, x.lay));
        TimeoutFrom(low, p, b, x, nb, r.env, m, c.m, fuel);
      }
    case _ =>
  }

  // ---- calls ----

  /** Every jump goes to the end or the continuation of a loop or switch around it, and the labels of a switch
      stand in its body. */
  predicate Scoped(s: Stmt, labs: set<nat>) {
    match s
    case Null => true
    case Labelled(_, a) => Scoped(a, labs)
    case Switch(_, cases, deflt, a, brk) => Scoped(a, labs + {brk}) && Placed(cases, deflt, a)
    case Do(_) => true
    case Then(a, b) => Scoped(a, labs) && Scoped(b, labs)
    case IfThen(_, a) => Scoped(a, labs)
    case IfElse(_, a, b) => Scoped(a, labs) && Scoped(b, labs)
    case While(_, a, brk, cont) => Scoped(a, labs + {brk, cont})
    case DoWhile(a, _, brk, cont) => Scoped(a, labs + {brk, cont})
    case For(i, _, _, a, brk, cont) => Scoped(i, labs) && Scoped(a, labs + {brk, cont})
    case Goto(l) => l in labs
    case Return(_) => true
  }

  predicate Placed(cases: Cases, deflt: Option<nat>, a: Stmt) {
    match cases
    case NoCase => deflt.Some? ==> HasLab(a, deflt.value)
    case Case(_, lab, rest) => HasLab(a, lab) && Placed(rest, deflt, a)
  }

  lemma {:induction false} TargetPlaced(cases: Cases, deflt: Option<nat>, a: Stmt, w: Word)
    requires Placed(cases, deflt, a)
    ensures var t := Target(cases, deflt, w); t.Some? ==> HasLab(a, t.value)
  {
    if cases.NoCase? {
    } else {
      TargetPlaced(cases.rest, deflt, a, w);
    }
  }

  /** A statement goes only to labels around it. */
  lemma {:induction false} GoesInside(s: Stmt, lay: Layout, ret: Ty, env: Env, fuel: nat, labs: set<nat>)
    requires StmtOk(s, lay) && env.Keys == lay.Keys && Scoped(s, labs)
    ensures var r := Exec(s, lay, ret, env, fuel); r.Went? ==> r.lab in labs
    decreases fuel, s, 1
  {
    hide Eval;
    match s
    case Then(a, b) =>
      GoesInside(a, lay, ret, env, fuel, labs);
      var r := Exec(a, lay, ret, env, fuel);
      if r.Normal? {
        GoesInside(b, lay, ret, r.env, fuel, labs);
      }
    case IfThen(c, a) =>
      var o := Eval(c, lay, env);
      if o.Val? {
        GoesInside(a, lay, ret, o.env, fuel, labs);
      }
    case IfElse(c, a, b) =>
      var o := Eval(c, lay, env);
      if o.Val? {
        GoesInside(if o.v != 0 then a else b, lay, ret, o.env, fuel, labs);
      }
    case While(_, _, _, _) => WhileInside(s, lay, ret, env, fuel, labs);
    case DoWhile(_, _, _, _) => DoWhileInside(s, lay, ret, env, fuel, labs);
    case For(i, _, _, _, _, _) =>
      GoesInside(i, lay, ret, env, fuel, labs);
      var r := Exec(i, lay, ret, env, fuel);
      if r.Normal? {
        LoopInside(s, lay, ret, r.env, fuel, labs);
      }
    case Labelled(_, a) => GoesInside(a, lay, ret, env, fuel, labs);
    case Switch(c, cases, deflt, a, brk) =>
      var o := Eval(c, lay, env);
      if o.Val? {
        TargetPlaced(cases, deflt, a, Repr(o.v));
        var t := Target(cases, deflt, Repr(o.v));
        if t.Some? {
          FromInside(a, t.value, lay, ret, o.env, fuel, labs + {brk});
        }
      }
    case _ =>
  }

  lemma {:induction false} FromInside(s: Stmt, lab: nat, lay: Layout, ret: Ty, env: Env, fuel: nat, labs: set<nat>)
    requires StmtOk(s, lay) && env.Keys == lay.Keys && Scoped(s, labs) && HasLab(s, lab)
    ensures var r := ExecFrom(s, lab, lay, ret, env, fuel); r.Went? ==> r.lab in labs
    decreases fuel, s, 0
  {
    hide Eval;
    match s
    case Labelled(l, a) =>
      if l == lab {
        GoesInside(a, lay, ret, env, fuel, labs);
      } else {
        FromInside(a, lab, lay, ret, env, fuel, labs);
      }
    case Then(a, b) =>
      if !HasLab(a, lab) {
        FromInside(b, lab, lay, ret, env, fuel, labs);
      } else {
        FromInside(a, lab, lay, ret, env, fuel, labs);
        var r := ExecFrom(a, lab, lay, ret, env, fuel);
        if r.Normal? {
          GoesInside(b, lay, ret, r.env, fuel, labs);
        }
      }
  }

  lemma {:induction false} WhileInside(s: Stmt, lay: Layout, ret: Ty, env: Env, fuel: nat, labs: set<nat>)
    requires s.While? && StmtOk(s, lay) && env.Keys == lay.Keys && Scoped(s, labs)
    ensures var r := Exec(s, lay, ret, env, fuel); r.Went? ==> r.lab in labs
    decreases fuel, s, 0
  {
    hide Eval;
    var o := Eval(s.c, lay, env);
    if fuel > 0 && o.Val? && o.v != 0 {
      GoesInside(s.body, lay, ret, o.env, fuel, labs + {s.brk, s.cont});
      var it := AfterBody(Exec(s.body, lay, ret, o.env, fuel), s.brk, s.cont);
      if it.Again? {
        GoesInside(s, lay, ret, it.env, fuel - 1, labs);
      }
    }
  }

  lemma {:induction false} DoWhileInside(s: Stmt, lay: Layout, ret: Ty, env: Env, fuel: nat, labs: set<nat>)
    requires s.DoWhile? && StmtOk(s, lay) && env.Keys == lay.Keys && Scoped(s, labs)
    ensures var r := Exec(s, lay, ret, env, fuel); r.Went? ==> r.lab in labs
    decreases fuel, s, 0
  {
    hide Eval;
    if fuel > 0 {
      GoesInside(s.body, lay, ret, env, fuel, labs + {s.brk, s.cont});
      var it := AfterBody(Exec(s.body, lay, ret, env, fuel), s.brk, s.cont);
      if it.Again? {
        var o := Eval(s.c, lay, it.env);
        if o.Val? && o.v != 0 {
          GoesInside(s, lay, ret, o.env, fuel - 1, labs);
        }
      }
    }
  }

  lemma {:induction false} LoopInside(s: Stmt, lay: Layout, ret: Ty, env: Env, fuel: nat, labs: set<nat>)
    requires s.For? && StmtOk(s, lay) && env.Keys == lay.Keys && Scoped(s, labs)
    ensures var r := Loop(s, lay, ret, env, fuel); r.Went? ==> r.lab in labs
    decreases fuel, s, 0
  {
    hide EvalOpt;
    var o := EvalOpt(s.test, lay, env, 1);
    if fuel > 0 && o.Val? && o.v != 0 {
      GoesInside(s.body, lay, ret, o.env, fuel, labs + {s.brk, s.cont});
      var it := AfterBody(Exec(s.body, lay, ret, o.env, fuel), s.brk, s.cont);
      if it.Again? {
        var q := EvalOpt(s.step, lay, it.env, 0);
        if q.Val? {
          LoopInside(s, lay, ret, q.env, fuel - 1, labs);
        }
      }
    }
  }

  /** What the body of a called function does within a bound. */
  ghost function Meaning(f: Func, n: nat, m: Cpu, fuel: nat): Result
    requires Entry(f, n, m)
  {
    Exec(f.body, f.lay, f.ret, EntryEnv(f, n, m), fuel)
  }

  /** Machines that stopped, started alike, stopped alike. */
  lemma OneEnd(p: Program, a: Config, b: Config, c: Config)
    requires Runs(p, a, b) && Runs(p, a, c) && !b.Running? && !c.Running?
    ensures b == c
  {
    var n: nat :| Iterate(p, a, n) == b;
    var k: nat :| Iterate(p, a, k) == c;
    if n <= k {
      IterateAdd(p, a, n, k - n);
      Stays(p, b, k - n);
    } else {
      IterateAdd(p, a, k, n - k);
      Stays(p, c, n - k);
    }
  }

  /** A body that reaches its bound keeps the machine running that long. */
  lemma CallLong(f: Func, n: nat, m: Cpu, k: nat)
    requires Entry(f, n, m) && m.pc == 0 && Meaning(f, n, m, k).Timeout?
    ensures Iterate(GenFunc(f, n), Running(m), k).Running?
  {
    hide Runs, Models, Keeps, At, UniqueLabels, Owns, StmtOk, TreeDistinct, TreeLabels, GenStmt, NeedS, Exec, Prologue,
      EntryEnv, Rd4, Longer;
    var p := GenFunc(f, n);
    var x := Context(f.lay, f.ret, n);
    var m1, env := Saved(f, m), EntryEnv(f, n, m);
    var body, tail := GenStmt(f.body, x, n + 1), Epilogue(f, n);
    FuncLabels(f, n);
    WholeAt(p);
    AtSplit(p, 0, Prologue(f), body + tail);
    AtSplit(p, |Prologue(f)|, body, tail);
    PrologueRuns(p, f, m);
    EntryModels(f, n, m);
    ModelsTyped(f.lay, env, m1);
    TimeoutFrom(Floor(f, m), p, f.body, x, n + 1, env, m, m1, k);
    RunsOn(p, Running(m), k);
  }

  /** A body that ends makes the call stop, as it ends. */
  lemma CallStops(f: Func, n: nat, m: Cpu, fuel: nat) returns (c: Config)
    requires Entry(f, n, m) && m.pc == 0 && Scoped(f.body, {}) && !Meaning(f, n, m, fuel).Timeout?
    ensures Runs(GenFunc(f, n), Running(m), c) && !c.Running?
    ensures if Meaning(f, n, m, fuel).Trap? then c == Trapped(VEC_DIV) else c.Left?
  {
    hide Runs, StmtOk, TreeDistinct, TreeLabels, NeedS, Exec, EntryEnv, Scoped, BackHome, GenFunc;
    c := CallOk(f, n, m, fuel);
    EntryKeys(f, n, m);
    GoesInside(f.body, f.lay, f.ret, EntryEnv(f, n, m), fuel, {});
  }

  lemma EntryKeys(f: Func, n: nat, m: Cpu)
    requires Entry(f, n, m)
    ensures EntryEnv(f, n, m).Keys == f.lay.Keys && StmtOk(f.body, f.lay)
  {
    hide StmtOk, TreeDistinct, TreeLabels, NeedS;
  }

  lemma AllRunning(p: Program, a: Config, c: Config)
    requires (forall k: nat :: Iterate(p, a, k).Running?) && Runs(p, a, c)
    ensures c.Running?
  {
    var k: nat :| Iterate(p, a, k) == c;
    assert Iterate(p, a, k).Running?;
  }

  lemma SomeStopped(p: Program, a: Config, c: Config)
    requires Runs(p, a, c) && !c.Running?
    ensures exists k: nat :: !Iterate(p, a, k).Running?
  {
    var k: nat :| Iterate(p, a, k) == c;
    assert !Iterate(p, a, k).Running?;
  }

  /** However far it is run, a body that ends ends in one way. */
  lemma SameEnd(f: Func, n: nat, m: Cpu, fuel: nat, c: Config)
    requires Entry(f, n, m) && m.pc == 0 && Scoped(f.body, {}) && !Meaning(f, n, m, fuel).Timeout?
    requires Runs(GenFunc(f, n), Running(m), c) && !c.Running?
    ensures if Meaning(f, n, m, fuel).Trap? then c == Trapped(VEC_DIV) else c.Left?
  {
    hide Runs, Meaning, Scoped, GenFunc, Entry;
    EntryKeys(f, n, m);
    var d := CallStops(f, n, m, fuel);
    OneEnd(GenFunc(f, n), Running(m), c, d);
  }

  ghost predicate Ended(r: Result) {
    r.Normal? || r.Returned?
  }

  /** A call of a function without jumps out of it: it traps exactly when the body does, returns exactly when
      the body ends otherwise, and runs for ever exactly when the body never ends. */
  lemma CallMeans(f: Func, n: nat, m: Cpu)
    requires Entry(f, n, m) && m.pc == 0 && Scoped(f.body, {})
    ensures (exists fuel: nat :: Meaning(f, n, m, fuel).Trap?) <==> Runs(GenFunc(f, n), Running(m), Trapped(VEC_DIV))
    ensures (exists fuel: nat :: Ended(Meaning(f, n, m, fuel)))
      <==> exists m' :: Runs(GenFunc(f, n), Running(m), Left(m'))
    ensures (forall fuel: nat :: Meaning(f, n, m, fuel).Timeout?)
      <==> forall k: nat :: Iterate(GenFunc(f, n), Running(m), k).Running?
  {
    hide Meaning, Scoped, GenFunc, Entry, Iterate, Runs;
    EntryKeys(f, n, m);
    var p := GenFunc(f, n);
    if forall fuel: nat :: Meaning(f, n, m, fuel).Timeout? {
      forall k: nat
        ensures Iterate(p, Running(m), k).Running?
      {
        CallLong(f, n, m, k);
      }
      forall c | Runs(p, Running(m), c)
        ensures c.Running?
      {
        AllRunning(p, Running(m), c);
      }
    } else {
      var fuel: nat :| !Meaning(f, n, m, fuel).Timeout?;
      var c := CallStops(f, n, m, fuel);
      SomeStopped(p, Running(m), c);
      forall g: nat | !Meaning(f, n, m, g).Timeout?
        ensures if Meaning(f, n, m, g).Trap? then c == Trapped(VEC_DIV) else c.Left? && Ended(Meaning(f, n, m, g))
      {
        SameEnd(f, n, m, g, c);
        NoGoing(f, n, m, g);
      }
      forall d | Runs(p, Running(m), d) && !d.Running?
        ensures d == c
      {
        OneEnd(p, Running(m), c, d);
      }
    }
  }

  lemma NoGoing(f: Func, n: nat, m: Cpu, fuel: nat)
    requires Entry(f, n, m) && Scoped(f.body, {})
    ensures !Meaning(f, n, m, fuel).Went?
  {
    hide StmtOk, TreeDistinct, TreeLabels, NeedS, Exec, EntryEnv, Scoped;
    EntryKeys(f, n, m);
    GoesInside(f.body, f.lay, f.ret, EntryEnv(f, n, m), fuel, {});
  }
}
