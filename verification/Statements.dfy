/** Statements of one function: their meaning and the code emitted for them. */
module Statements {
  import opened Wrappers
  import opened Words
  import opened Machine
  import opened CLang
  import opened CodeGen

  /** The case labels of a switch, each a constant and a label. */
  datatype Cases = NoCase | Case(val: Word, lab: nat, rest: Cases)

  /** Loops and switches carry the labels the parser gave them; break and continue name the label they go to.
      A case or default label stands before a statement in the sequence that is the switch's body. */
  datatype Stmt =
    | Null
    | Do(e: Expr)
    | Then(first: Stmt, second: Stmt)
    | IfThen(c: Expr, yes: Stmt)
    | IfElse(c: Expr, yes: Stmt, no: Stmt)
    | While(c: Expr, body: Stmt, brk: nat, cont: nat)
    | DoWhile(body: Stmt, c: Expr, brk: nat, cont: nat)
    | For(init: Stmt, test: Option<Expr>, step: Option<Expr>, body: Stmt, brk: nat, cont: nat)
    | Labelled(lab: nat, stmt: Stmt)
    | Switch(c: Expr, cases: Cases, deflt: Option<nat>, body: Stmt, brk: nat)
    | Goto(lab: nat)
    | Return(value: Option<Expr>)

  predicate WfOpt(e: Option<Expr>, lay: Layout) {
    e.Some? ==> WellFormed(e.value, lay) && CastsFit(e.value)
  }

  /** Every expression names known locals and has no constant changed by a dropped cast. */
  predicate StmtOk(s: Stmt, lay: Layout) {
    match s
    case Null => true
    case Do(e) => WellFormed(e, lay) && CastsFit(e)
    case Then(a, b) => StmtOk(a, lay) && StmtOk(b, lay)
    case IfThen(c, a) => WellFormed(c, lay) && CastsFit(c) && StmtOk(a, lay)
    case IfElse(c, a, b) => WellFormed(c, lay) && CastsFit(c) && StmtOk(a, lay) && StmtOk(b, lay)
    case While(c, a, _, _) => WellFormed(c, lay) && CastsFit(c) && StmtOk(a, lay)
    case DoWhile(a, c, _, _) => WellFormed(c, lay) && CastsFit(c) && StmtOk(a, lay)
    case For(i, c, e, a, _, _) => StmtOk(i, lay) && WfOpt(c, lay) && WfOpt(e, lay) && StmtOk(a, lay)
    case Labelled(_, a) => StmtOk(a, lay)
    case Switch(c, _, _, a, _) => WellFormed(c, lay) && CastsFit(c) && StmtOk(a, lay)
    case Goto(_) => true
    case Return(e) => WfOpt(e, lay)
  }

  /** The label stands in the sequence. */
  predicate HasLab(s: Stmt, lab: nat) {
    match s
    case Labelled(l, a) => l == lab || HasLab(a, lab)
    case Then(a, b) => HasLab(a, lab) || HasLab(b, lab)
    case _ => false
  }

  // ---- meaning ----

  datatype Result =
    | Timeout
    | Normal(env: Env)
    | Went(lab: nat, env: Env)
    | Returned(v: Option<int>, env: Env)
    | Trap

  /** Execution with a bound on the number of loop iterations in sequence; a terminating
      execution gives the same result for every large enough bound. */
  function Exec(s: Stmt, lay: Layout, ret: Ty, env: Env, fuel: nat): (r: Result)
    requires StmtOk(s, lay) && env.Keys == lay.Keys
    ensures r.Normal? || r.Went? || r.Returned? ==> r.env.Keys == lay.Keys
    decreases fuel, s
  {
    match s
    case Null => Normal(env)
    case Do(e) =>
      (match Eval(e, lay, env)
       case DivTrap => Trap
       case Val(_, env1) => Normal(env1))
    case Then(a, b) =>
      (match Exec(a, lay, ret, env, fuel)
       case Normal(env1) => Exec(b, lay, ret, env1, fuel)
       case r => r)
    case IfThen(c, a) =>
      (match Eval(c, lay, env)
       case DivTrap => Trap
       case Val(v, env1) => if v != 0 then Exec(a, lay, ret, env1, fuel) else Normal(env1))
    case IfElse(c, a, b) =>
      (match Eval(c, lay, env)
       case DivTrap => Trap
       case Val(v, env1) => Exec(if v != 0 then a else b, lay, ret, env1, fuel))
    case While(_, _, _, _) => ExecWhile(s, lay, ret, env, fuel)
    case DoWhile(_, _, _, _) => ExecDoWhile(s, lay, ret, env, fuel)
    case For(i, c, e, a, brk, cont) =>
      (match Exec(i, lay, ret, env, fuel)
       case Normal(env1) => Loop(s, lay, ret, env1, fuel)
       case r => r)
    case Labelled(_, a) => Exec(a, lay, ret, env, fuel)
    case Switch(_, _, _, _, _) => ExecSwitch(s, lay, ret, env, fuel)
    case Goto(l) => Went(l, env)
    case Return(None) => Returned(None, env)
    case Return(Some(e)) =>
      (match Eval(e, lay, env)
       case DivTrap => Trap
       case Val(v, env1) => Returned(Some(ret.Wrap(v)), env1))
  }

  function ExecWhile(s: Stmt, lay: Layout, ret: Ty, env: Env, fuel: nat): (r: Result)
    requires s.While? && StmtOk(s, lay) && env.Keys == lay.Keys
    ensures r.Normal? || r.Went? || r.Returned? ==> r.env.Keys == lay.Keys
    decreases fuel, s, 0
  {
    if fuel == 0 then Timeout
    else
      match Eval(s.c, lay, env)
      case DivTrap => Trap
      case Val(v, env1) =>
        if v == 0 then Normal(env1)
        else
          match AfterBody(Exec(s.body, lay, ret, env1, fuel), s.brk, s.cont)
          case Again(env2) => ExecWhile(s, lay, ret, env2, fuel - 1)
          case Leave(r) => r
  }

  function ExecDoWhile(s: Stmt, lay: Layout, ret: Ty, env: Env, fuel: nat): (r: Result)
    requires s.DoWhile? && StmtOk(s, lay) && env.Keys == lay.Keys
    ensures r.Normal? || r.Went? || r.Returned? ==> r.env.Keys == lay.Keys
    decreases fuel, s, 0
  {
    if fuel == 0 then Timeout
    else
      match AfterBody(Exec(s.body, lay, ret, env, fuel), s.brk, s.cont)
      case Leave(r) => r
      case Again(env1) =>
        match Eval(s.c, lay, env1)
        case DivTrap => Trap
        case Val(v, env2) => if v != 0 then ExecDoWhile(s, lay, ret, env2, fuel - 1) else Normal(env2)
  }

  function ExecSwitch(s: Stmt, lay: Layout, ret: Ty, env: Env, fuel: nat): (r: Result)
    requires s.Switch? && StmtOk(s, lay) && env.Keys == lay.Keys
    ensures r.Normal? || r.Went? || r.Returned? ==> r.env.Keys == lay.Keys
    decreases fuel, s, 0
  {
    match Eval(s.c, lay, env)
    case DivTrap => Trap
    case Val(v, env1) =>
      match Target(s.cases, s.deflt, Repr(v))
      case None => Normal(env1)
      case Some(l) => AfterSwitch(ExecFrom(s.body, l, lay, ret, env1, fuel), s.brk)
  }

  /** The rest of a sequence from one of its labels on; a label elsewhere is gone to. */
  function ExecFrom(s: Stmt, lab: nat, lay: Layout, ret: Ty, env: Env, fuel: nat): (r: Result)
    requires StmtOk(s, lay) && env.Keys == lay.Keys
    ensures r.Normal? || r.Went? || r.Returned? ==> r.env.Keys == lay.Keys
    decreases fuel, s
  {
    match s
    case Labelled(l, a) =>
      if l == lab then Exec(a, lay, ret, env, fuel) else ExecFrom(a, lab, lay, ret, env, fuel)
    case Then(a, b) =>
      if !HasLab(a, lab) then ExecFrom(b, lab, lay, ret, env, fuel)
      else
        (match ExecFrom(a, lab, lay, ret, env, fuel)
         case Normal(env1) => Exec(b, lay, ret, env1, fuel)
         case r => r)
    case _ => Went(lab, env)
  }

  /** Where a switch goes: the case with the value's bits, else the default, else past the end. */
  function Target(cases: Cases, deflt: Option<nat>, w: Word): Option<nat> {
    match cases
    case NoCase => deflt
    case Case(val, lab, rest) => if val == w then Some(lab) else Target(rest, deflt, w)
  }

  function AfterSwitch(r: Result, brk: nat): Result {
    if r.Went? && r.lab == brk then Normal(r.env) else r
  }

  datatype Iter = Again(env: Env) | Leave(r: Result)

  /** Where control goes after a loop body: round again, or out of the loop. */
  function AfterBody(r: Result, brk: nat, cont: nat): Iter {
    match r
    case Normal(env) => Again(env)
    case Went(l, env) => if l == cont then Again(env) else if l == brk then Leave(Normal(env)) else Leave(r)
    case _ => Leave(r)
  }

  function EvalOpt(e: Option<Expr>, lay: Layout, env: Env, none: int): (o: Outcome)
    requires WfOpt(e, lay) && env.Keys == lay.Keys
    ensures o.Val? ==> o.env.Keys == lay.Keys
  {
    match e
    case None => Val(none, env)
    case Some(x) => Eval(x, lay, env)
  }

  /** A for statement after its first clause. */
  function Loop(s: Stmt, lay: Layout, ret: Ty, env: Env, fuel: nat): (r: Result)
    requires s.For? && StmtOk(s, lay) && env.Keys == lay.Keys
    ensures r.Normal? || r.Went? || r.Returned? ==> r.env.Keys == lay.Keys
    decreases fuel, s, 0
  {
    if fuel == 0 then Timeout
    else
      match EvalOpt(s.test, lay, env, 1)
      case DivTrap => Trap
      case Val(v, env1) =>
        if v == 0 then Normal(env1)
        else
          match AfterBody(Exec(s.body, lay, ret, env1, fuel), s.brk, s.cont)
          case Leave(r) => r
          case Again(env2) =>
            match EvalOpt(s.step, lay, env2, 0)
            case DivTrap => Trap
            case Val(_, env3) => Loop(s, lay, ret, env3, fuel - 1)
  }

  // ---- code ----

  function BranchOpt(e: Option<Expr>, lay: Layout, n: nat, lab: nat): Code
    requires WfOpt(e, lay)
  {
    if e.Some? then GenBranch(e.value, lay, n, lab, false) else []
  }

  function ExprOpt(e: Option<Expr>, lay: Layout, n: nat): Code
    requires WfOpt(e, lay)
  {
    if e.Some? then GenExpr(e.value, lay, n) else []
  }

  function LabelsBOpt(e: Option<Expr>, lay: Layout): nat
    requires WfOpt(e, lay)
  {
    if e.Some? then LabelsB(e.value, lay, false) else 0
  }

  function LabelsEOpt(e: Option<Expr>, lay: Layout): nat
    requires WfOpt(e, lay)
  {
    if e.Some? then LabelsE(e.value, lay) else 0
  }

  /** The surroundings of a statement: its locals, the return type and the label of the epilogue. */
  datatype Context = Context(lay: Layout, ret: Ty, retLab: nat)

  function GenStmt(s: Stmt, x: Context, n: nat): Code
    requires StmtOk(s, x.lay)
  {
    match s
    case Null => []
    case Do(e) => GenExpr(e, x.lay, n)
    case Then(a, b) => GenStmt(a, x, n) + GenStmt(b, x, n + LabelsS(a, x.lay))
    case IfThen(c, a) =>
      GenBranch(c, x.lay, n + 1, n, false)
      + (GenStmt(a, x, n + 1 + LabelsB(c, x.lay, false)) + [Label(n)])
    case IfElse(c, a, b) =>
      // the second label is taken after the first arm has been generated
      var na := n + 1 + LabelsB(c, x.lay, false);
      var l2 := na + LabelsS(a, x.lay);
      GenBranch(c, x.lay, n + 1, n, false)
      + (GenStmt(a, x, na) + ([Jump(l2), Label(n)] + (GenStmt(b, x, l2 + 1) + [Label(l2)])))
    case While(c, a, brk, cont) =>
      [Label(cont)]
      + (GenBranch(c, x.lay, n, brk, false)
         + (GenStmt(a, x, n + LabelsB(c, x.lay, false)) + [Jump(cont), Label(brk)]))
    case DoWhile(a, c, brk, cont) =>
      [Label(n)]
      + (GenStmt(a, x, n + 1)
         + ([Label(cont)] + (GenBranch(c, x.lay, n + 1 + LabelsS(a, x.lay), n, true) + [Label(brk)])))
    case For(i, c, e, a, brk, cont) =>
      var ni := n + 1;
      var nc := ni + LabelsS(i, x.lay);
      var na := nc + LabelsBOpt(c, x.lay);
      var ne := na + LabelsS(a, x.lay);
      GenStmt(i, x, ni)
      + ([Label(n)]
         + (BranchOpt(c, x.lay, nc, brk)
            + (GenStmt(a, x, na) + ([Label(cont)] + (ExprOpt(e, x.lay, ne) + [Jump(n), Label(brk)])))))
    case Labelled(l, a) => [Label(l)] + GenStmt(a, x, n)
    case Switch(c, cases, deflt, a, brk) =>
      GenExpr(c, x.lay, n)
      + (CaseCode(cases)
         + ([Jump(if deflt.Some? then deflt.value else brk)]
            + (GenStmt(a, x, n + LabelsE(c, x.lay)) + [Label(brk)])))
    case Goto(l) => [Jump(l)]
    case Return(None) => [Jump(x.retLab)]
    case Return(Some(e)) => GenExpr(e, x.lay, n) + (Convert(TypeOf(e, x.lay), x.ret) + [Jump(x.retLab)])
  }

  /** One comparison and branch for each case. */
  function CaseCode(cases: Cases): Code {
    match cases
    case NoCase => []
    case Case(val, lab, rest) => [CmpImm(R0, val), Branch(Eq, lab)] + CaseCode(rest)
  }

  function LabelsS(s: Stmt, lay: Layout): nat
    requires StmtOk(s, lay)
  {
    match s
    case Null => 0
    case Do(e) => LabelsE(e, lay)
    case Then(a, b) => LabelsS(a, lay) + LabelsS(b, lay)
    case IfThen(c, a) => 1 + LabelsB(c, lay, false) + LabelsS(a, lay)
    case IfElse(c, a, b) => 1 + LabelsB(c, lay, false) + LabelsS(a, lay) + 1 + LabelsS(b, lay)
    case While(c, a, _, _) => LabelsB(c, lay, false) + LabelsS(a, lay)
    case DoWhile(a, c, _, _) => 1 + LabelsS(a, lay) + LabelsB(c, lay, true)
    case For(i, c, e, a, _, _) => 1 + LabelsS(i, lay) + LabelsBOpt(c, lay) + LabelsS(a, lay) + LabelsEOpt(e, lay)
    case Labelled(_, a) => LabelsS(a, lay)
    case Switch(c, _, _, a, _) => LabelsE(c, lay) + LabelsS(a, lay)
    case Goto(_) => 0
    case Return(None) => 0
    case Return(Some(e)) => LabelsE(e, lay)
  }

  function NeedOpt(e: Option<Expr>, lay: Layout): nat
    requires WfOpt(e, lay)
  {
    if e.Some? then Need(e.value, lay) else 0
  }

  /** Words of stack the statement's expressions push at most. */
  function NeedS(s: Stmt, lay: Layout): nat
    requires StmtOk(s, lay)
  {
    match s
    case Null => 0
    case Do(e) => Need(e, lay)
    case Then(a, b) => Max(NeedS(a, lay), NeedS(b, lay))
    case IfThen(c, a) => Max(Need(c, lay), NeedS(a, lay))
    case IfElse(c, a, b) => Max(Need(c, lay), Max(NeedS(a, lay), NeedS(b, lay)))
    case While(c, a, _, _) => Max(Need(c, lay), NeedS(a, lay))
    case DoWhile(a, c, _, _) => Max(Need(c, lay), NeedS(a, lay))
    case For(i, c, e, a, _, _) => Max(Max(NeedS(i, lay), NeedS(a, lay)), Max(NeedOpt(c, lay), NeedOpt(e, lay)))
    case Labelled(_, a) => NeedS(a, lay)
    case Switch(c, _, _, a, _) => Max(Need(c, lay), NeedS(a, lay))
    case Goto(_) => 0
    case Return(e) => NeedOpt(e, lay)
  }

  // ---- the bound does not matter ----

  /** An execution that ends within the bound ends the same way within every larger one. */
  lemma {:induction false} ExecMore(s: Stmt, lay: Layout, ret: Ty, env: Env, fuel: nat, more: nat)
    requires StmtOk(s, lay) && env.Keys == lay.Keys && fuel <= more && !Exec(s, lay, ret, env, fuel).Timeout?
    ensures Exec(s, lay, ret, env, more) == Exec(s, lay, ret, env, fuel)
    decreases fuel, s, 1
  {
    hide Eval, WellFormed, CastsFit;
    match s
    case Then(a, b) =>
      ExecMore(a, lay, ret, env, fuel, more);
      var r := Exec(a, lay, ret, env, fuel);
      if r.Normal? {
        ExecMore(b, lay, ret, r.env, fuel, more);
      }
    case IfThen(c, a) =>
      var o := Eval(c, lay, env);
      if o.Val? && o.v != 0 {
        ExecMore(a, lay, ret, o.env, fuel, more);
      }
    case IfElse(c, a, b) =>
      var o := Eval(c, lay, env);
      if o.Val? {
        ExecMore(if o.v != 0 then a else b, lay, ret, o.env, fuel, more);
      }
    case While(_, _, _, _) => WhileMore(s, lay, ret, env, fuel, more);
    case DoWhile(_, _, _, _) => DoWhileMore(s, lay, ret, env, fuel, more);
    case For(i, _, _, _, _, _) =>
      ExecMore(i, lay, ret, env, fuel, more);
      var r := Exec(i, lay, ret, env, fuel);
      if r.Normal? {
        LoopMore(s, lay, ret, r.env, fuel, more);
      }
    case Labelled(_, a) => ExecMore(a, lay, ret, env, fuel, more);
    case Switch(c, cases, deflt, a, _) =>
      var o := Eval(c, lay, env);
      if o.Val? {
        var t := Target(cases, deflt, Repr(o.v));
        if t.Some? {
          FromMore(a, t.value, lay, ret, o.env, fuel, more);
        }
      }
    case _ =>
  }

  lemma {:induction false} FromMore(s: Stmt, lab: nat, lay: Layout, ret: Ty, env: Env, fuel: nat, more: nat)
    requires StmtOk(s, lay) && env.Keys == lay.Keys && fuel <= more
    requires !ExecFrom(s, lab, lay, ret, env, fuel).Timeout?
    ensures ExecFrom(s, lab, lay, ret, env, more) == ExecFrom(s, lab, lay, ret, env, fuel)
    decreases fuel, s, 0
  {
    hide Eval, WellFormed, CastsFit;
    match s
    case Labelled(l, a) =>
      if l == lab {
        ExecMore(a, lay, ret, env, fuel, more);
      } else {
        FromMore(a, lab, lay, ret, env, fuel, more);
      }
    case Then(a, b) =>
      if HasLab(a, lab) {
        FromMore(a, lab, lay, ret, env, fuel, more);
        var r := ExecFrom(a, lab, lay, ret, env, fuel);
        if r.Normal? {
          ExecMore(b, lay, ret, r.env, fuel, more);
        }
      } else {
        FromMore(b, lab, lay, ret, env, fuel, more);
      }
    case _ =>
  }

  lemma {:induction false} WhileMore(s: Stmt, lay: Layout, ret: Ty, env: Env, fuel: nat, more: nat)
    requires s.While? && StmtOk(s, lay) && env.Keys == lay.Keys && fuel <= more
      && !Exec(s, lay, ret, env, fuel).Timeout?
    ensures Exec(s, lay, ret, env, more) == Exec(s, lay, ret, env, fuel)
    decreases fuel, s, 0
  {
    hide Eval, WellFormed, CastsFit;
    var o := Eval(s.c, lay, env);
    if o.Val? && o.v != 0 {
      ExecMore(s.body, lay, ret, o.env, fuel, more);
      var after := AfterBody(Exec(s.body, lay, ret, o.env, fuel), s.brk, s.cont);
      if after.Again? {
        ExecMore(s, lay, ret, after.env, fuel - 1, more - 1);
      }
    }
  }

  lemma {:induction false} DoWhileMore(s: Stmt, lay: Layout, ret: Ty, env: Env, fuel: nat, more: nat)
    requires s.DoWhile? && StmtOk(s, lay) && env.Keys == lay.Keys && fuel <= more
      && !Exec(s, lay, ret, env, fuel).Timeout?
    ensures Exec(s, lay, ret, env, more) == Exec(s, lay, ret, env, fuel)
    decreases fuel, s, 0
  {
    hide Eval, WellFormed, CastsFit;
    ExecMore(s.body, lay, ret, env, fuel, more);
    var after := AfterBody(Exec(s.body, lay, ret, env, fuel), s.brk, s.cont);
    if after.Again? {
      var o := Eval(s.c, lay, after.env);
      if o.Val? && o.v != 0 {
        ExecMore(s, lay, ret, o.env, fuel - 1, more - 1);
      }
    }
  }

  lemma {:induction false} LoopMore(s: Stmt, lay: Layout, ret: Ty, env: Env, fuel: nat, more: nat)
    requires s.For? && StmtOk(s, lay) && env.Keys == lay.Keys && fuel <= more && !Loop(s, lay, ret, env, fuel).Timeout?
    ensures Loop(s, lay, ret, env, more) == Loop(s, lay, ret, env, fuel)
    decreases fuel, s, 0
  {
    hide Eval, WellFormed, CastsFit;
    var o := EvalOpt(s.test, lay, env, 1);
    if o.Val? && o.v != 0 {
      ExecMore(s.body, lay, ret, o.env, fuel, more);
      var after := AfterBody(Exec(s.body, lay, ret, o.env, fuel), s.brk, s.cont);
      if after.Again? {
        var e := EvalOpt(s.step, lay, after.env, 0);
        if e.Val? {
          LoopMore(s, lay, ret, e.env, fuel - 1, more - 1);
        }
      }
    }
  }
}
