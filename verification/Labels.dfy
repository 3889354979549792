/** Every label the compiler defines is defined once: labels come from one counter, and the
    labels stored in the tree are smaller than the counter's value. */
module Labels {
  import opened Wrappers
  import opened Machine
  import opened CLang
  import opened CodeGen
  import opened Frames
  import opened Statements

  predicate Between(lo: nat, i: nat, hi: nat) {
    lo <= i < hi
  }

  /** The numbers from lo up to but not including hi. */
  function Range(lo: nat, hi: nat): (s: set<nat>)
    ensures forall i: nat :: i in s <==> lo <= i < hi
  {
    set i: nat | i < hi && Between(lo, i, hi)
  }

  /** The labels of c are pairwise different members of ids. */
  ghost predicate Owns(c: Code, ids: set<nat>) {
    UniqueLabels(c) && forall i :: 0 <= i < |c| && c[i].Label? ==> c[i].id in ids
  }

  lemma OwnsConcat(a: Code, b: Code, ia: set<nat>, ib: set<nat>)
    requires Owns(a, ia) && Owns(b, ib) && ia !! ib
    ensures Owns(a + b, ia + ib)
  {
  }

  lemma OwnsLess(c: Code, ids: set<nat>, more: set<nat>)
    requires Owns(c, ids) && ids <= more
    ensures Owns(c, more)
  {
  }

  lemma OwnsNone(c: Code)
    requires forall i :: 0 <= i < |c| ==> !c[i].Label?
    ensures Owns(c, {})
  {
  }

  /** Two codes numbered one after the other. */
  lemma OwnsRanges(a: Code, b: Code, lo: nat, mid: nat, hi: nat)
    requires lo <= mid <= hi && Owns(a, Range(lo, mid)) && Owns(b, Range(mid, hi))
    ensures Owns(a + b, Range(lo, hi))
  {
    hide Owns;
    OwnsConcat(a, b, Range(lo, mid), Range(mid, hi));
    assert Range(lo, mid) + Range(mid, hi) == Range(lo, hi);
  }

  /** A code without labels before or after. */
  lemma OwnsPlain(a: Code, b: Code, ids: set<nat>)
    requires Owns(a, ids) && forall i :: 0 <= i < |b| ==> !b[i].Label?
    ensures Owns(a + b, ids) && Owns(b + a, ids)
  {
    hide Owns;
    OwnsNone(b);
    OwnsConcat(a, b, ids, {});
    OwnsConcat(b, a, {}, ids);
    assert ids + {} == ids && {} + ids == ids;
  }

  lemma ConvertPlain(from: Ty, to: Ty)
    ensures forall i :: 0 <= i < |Convert(from, to)| ==> !Convert(from, to)[i].Label?
  {
  }

  lemma {:induction false} ExprLabels(e: Expr, lay: Layout, n: nat)
    requires WellFormed(e, lay)
    ensures Owns(GenExpr(e, lay, n), Range(n, n + LabelsE(e, lay)))
    decreases e, Rank(e, false), 0
  {
    hide Owns, GenExpr, LabelsE, Range, WellFormed;
    match e
    case Num(_, _) => PlainLabels(e, lay, n);
    case Var(_) => PlainLabels(e, lay, n);
    case Cast(_, _) => UnaryLabels(e, lay, n);
    case Assign(_, _) => AssignLabels(e, lay, n);
    case OpAssign(_, _, _) => OpAssignLabels(e, lay, n);
    case IncDec(_, _, _, _) => PlainLabels(e, lay, n);
    case Ternary(_, _, _) => TernaryLabels(e, lay, n);
    case Comma(_, _) => CommaLabels(e, lay, n);
    case Negate(_) => UnaryLabels(e, lay, n);
    case BitNot(_) => UnaryLabels(e, lay, n);
    case Bin(_, _, _) => BinLabels(e, lay, n);
    case _ => BoolLabels(e, lay, n);
  }

  lemma PlainLabels(e: Expr, lay: Layout, n: nat)
    requires (e.Num? || e.Var? || e.IncDec?) && WellFormed(e, lay)
    ensures Owns(GenExpr(e, lay, n), Range(n, n + LabelsE(e, lay)))
  {
    hide Owns, Convert;
    if e.IncDec? {
      ConvertPlain(CInt(false), lay[e.off]);
    }
    OwnsNone(GenExpr(e, lay, n));
    OwnsLess(GenExpr(e, lay, n), {}, Range(n, n));
  }

  lemma {:induction false} UnaryLabels(e: Expr, lay: Layout, n: nat)
    requires (e.Cast? || e.Negate? || e.BitNot?) && WellFormed(e, lay)
    ensures Owns(GenExpr(e, lay, n), Range(n, n + LabelsE(e, lay)))
    decreases e, 0, 0
  {
    hide Owns, Convert, TypeOf;
    var l := e.l;
    ExprLabels(l, lay, n);
    if e.Cast? {
      ConvertPlain(TypeOf(l, lay), e.ty);
    }
    var tail :=
      if e.Cast? then Convert(TypeOf(l, lay), e.ty) else if e.Negate? then [Neg(R0)] else [XorImm(R0, 0xFFFF_FFFF)];
    OwnsPlain(GenExpr(l, lay, n), tail, Range(n, n + LabelsE(l, lay)));
  }

  lemma {:induction false} AssignLabels(e: Expr, lay: Layout, n: nat)
    requires e.Assign? && WellFormed(e, lay)
    ensures Owns(GenExpr(e, lay, n), Range(n, n + LabelsE(e, lay)))
    decreases e, 0, 0
  {
    hide Owns, Convert, TypeOf;
    var off, r := e.off, e.r;
    ExprLabels(r, lay, n);
    ConvertPlain(TypeOf(r, lay), lay[off]);
    OwnsPlain(GenExpr(r, lay, n), Convert(TypeOf(r, lay), lay[off]) + [Lea(R1, R7, off), StoreTo(lay[off])],
              Range(n, n + LabelsE(r, lay)));
  }

  lemma {:induction false} CommaLabels(e: Expr, lay: Layout, n: nat)
    requires e.Comma? && WellFormed(e, lay)
    ensures Owns(GenExpr(e, lay, n), Range(n, n + LabelsE(e, lay)))
    decreases e, 0, 0
  {
    hide Owns, TypeOf;
    var mid := n + LabelsE(e.l, lay);
    ExprLabels(e.l, lay, n);
    ExprLabels(e.r, lay, mid);
    OwnsRanges(GenExpr(e.l, lay, n), GenExpr(e.r, lay, mid), n, mid, mid + LabelsE(e.r, lay));
  }

  lemma {:induction false} BinLabels(e: Expr, lay: Layout, n: nat)
    requires e.Bin? && WellFormed(e, lay)
    ensures Owns(GenExpr(e, lay, n), Range(n, n + LabelsE(e, lay)))
    decreases e, 0, 1
  {
    hide Owns, TypeOf, GenOperands;
    OperandLabels(e, lay, n);
    OwnsPlain(GenOperands(e, lay, n), [BinInstr(e.op, TypeOf(e, lay).uns)], Range(n, n + LabelsO(e, lay)));
  }

  lemma {:induction false} OpAssignLabels(e: Expr, lay: Layout, n: nat)
    requires e.OpAssign? && WellFormed(e, lay)
    ensures Owns(GenExpr(e, lay, n), Range(n, n + LabelsE(e, lay)))
    decreases e, 0, 0
  {
    hide Owns, Convert, TypeOf;
    var op, off, r := e.op, e.off, e.r;
    var t := lay[off];
    ExprLabels(r, lay, n);
    ConvertPlain(CInt(false), t);
    var head := [Lea(R0, R7, off), Push(R0), LoadFrom(t, R0, 0), Push(R0)];
    var tail := [Move(R1, R0), Pop(R0), BinInstr(op, BinType(op, t, TypeOf(r, lay)).uns)]
                + (Convert(CInt(false), t) + [Pop(R1), StoreTo(t)]);
    OwnsPlain(GenExpr(r, lay, n), tail, Range(n, n + LabelsE(r, lay)));
    OwnsPlain(GenExpr(r, lay, n) + tail, head, Range(n, n + LabelsE(r, lay)));
  }

  lemma {:induction false} OperandLabels(e: Expr, lay: Layout, n: nat)
    requires WellFormed(e, lay) && TwoOperands(e)
    ensures Owns(GenOperands(e, lay, n), Range(n, n + LabelsO(e, lay)))
    decreases e, 0, 0
  {
    hide Owns;
    var l, r := e.l, e.r;
    var cl, mid := GenExpr(l, lay, n), n + LabelsE(l, lay);
    ExprLabels(l, lay, n);
    if SimpleRhs(r, lay) {
      OwnsPlain(cl, [GenR1(r, lay)], Range(n, mid));
    } else {
      var hi := mid + LabelsE(r, lay);
      ExprLabels(r, lay, mid);
      var cr := GenExpr(r, lay, mid);
      OwnsPlain(cr, [Move(R1, R0), Pop(R0)], Range(mid, hi));
      OwnsPlain(cr + [Move(R1, R0), Pop(R0)], [Push(R0)], Range(mid, hi));
      OwnsRanges(cl, [Push(R0)] + (cr + [Move(R1, R0), Pop(R0)]), n, mid, hi);
    }
  }

  lemma OwnsLabel(l: nat)
    ensures Owns([Label(l)], {l})
  {
  }

  /** Code numbered from lo with one more label that is not in its range. */
  lemma OwnsWith(c: Code, ids: set<nat>, l: nat)
    requires Owns(c, ids) && l !in ids
    ensures Owns(c + [Label(l)], ids + {l}) && Owns([Label(l)] + c, ids + {l})
  {
    hide Owns;
    OwnsLabel(l);
    OwnsConcat(c, [Label(l)], ids, {l});
    OwnsConcat([Label(l)], c, {l}, ids);
    assert {l} + ids == ids + {l};
  }

  lemma {:induction false} TernaryLabels(e: Expr, lay: Layout, n: nat)
    requires e.Ternary? && WellFormed(e, lay)
    ensures Owns(GenExpr(e, lay, n), Range(n, n + LabelsE(e, lay)))
    decreases e, 0, 0
  {
    hide Owns, Convert, TypeOf, Range, GenExpr, GenBranch, LabelsE, LabelsB;
    var q, l, r, t := e.c, e.l, e.r, TypeOf(e, lay);
    TernaryCode(e, lay, n);
    var nc := n + 2;
    var nl := nc + LabelsB(q, lay, false);
    var nr := nl + LabelsE(l, lay);
    var hi := nr + LabelsE(r, lay);
    BranchLabels(q, lay, nc, n, false);
    ExprLabels(l, lay, nl);
    ExprLabels(r, lay, nr);
    ConvertPlain(TypeOf(l, lay), t);
    ConvertPlain(TypeOf(r, lay), t);
    var cq := GenBranch(q, lay, nc, n, false);
    var tl := GenExpr(l, lay, nl) + Convert(TypeOf(l, lay), t);
    var tr := GenExpr(r, lay, nr) + Convert(TypeOf(r, lay), t);
    OwnsPlain(GenExpr(l, lay, nl), Convert(TypeOf(l, lay), t), Range(nl, nr));
    OwnsPlain(GenExpr(r, lay, nr), Convert(TypeOf(r, lay), t), Range(nr, hi));
    TernaryJoin(cq, tl, tr, n, nl, nr, hi);
  }

  lemma TernaryJoin(cq: Code, tl: Code, tr: Code, n: nat, nl: nat, nr: nat, hi: nat)
    requires n + 2 <= nl <= nr <= hi
    requires Owns(cq, Range(n + 2, nl)) && Owns(tl, Range(nl, nr)) && Owns(tr, Range(nr, hi))
    ensures Owns(cq + (tl + ([Jump(n + 1), Label(n)] + (tr + [Label(n + 1)]))), Range(n, hi))
  {
    hide Owns;
    OwnsWith(tr, Range(nr, hi), n + 1);
    OwnsWith(tr + [Label(n + 1)], Range(nr, hi) + {n + 1}, n);
    var b := [Label(n)] + (tr + [Label(n + 1)]);
    OwnsPlain(b, [Jump(n + 1)], Range(nr, hi) + {n + 1} + {n});
    assert [Jump(n + 1)] + b == [Jump(n + 1), Label(n)] + (tr + [Label(n + 1)]);
    var c := [Jump(n + 1), Label(n)] + (tr + [Label(n + 1)]);
    OwnsConcat(tl, c, Range(nl, nr), Range(nr, hi) + {n + 1} + {n});
    OwnsConcat(cq, tl + c, Range(n + 2, nl), Range(nl, nr) + (Range(nr, hi) + {n + 1} + {n}));
    assert Range(n + 2, nl) + (Range(nl, nr) + (Range(nr, hi) + {n + 1} + {n})) == Range(n, hi);
  }

  lemma {:induction false} BoolLabels(e: Expr, lay: Layout, n: nat)
    requires IsBool(e) && WellFormed(e, lay)
    ensures Owns(GenExpr(e, lay, n), Range(n, n + LabelsE(e, lay)))
    decreases e, Rank(e, true), 1
  {
    hide Owns;
    var cq := GenBranch(e, lay, n + 2, n, true);
    var hi := n + 2 + LabelsB(e, lay, true);
    assert LabelsE(e, lay) == 2 + LabelsB(e, lay, true);
    BranchLabels(e, lay, n + 2, n, true);
    BoolJoin(cq, n, hi);
    assert GenExpr(e, lay, n) == cq + [LoadImm(R0, 0), Jump(n + 1), Label(n), LoadImm(R0, 1), Label(n + 1)];
  }

  lemma BoolJoin(cq: Code, n: nat, hi: nat)
    requires n + 2 <= hi && Owns(cq, Range(n + 2, hi))
    ensures Owns(cq + [LoadImm(R0, 0), Jump(n + 1), Label(n), LoadImm(R0, 1), Label(n + 1)], Range(n, hi))
  {
    var tail := [LoadImm(R0, 0), Jump(n + 1), Label(n), LoadImm(R0, 1), Label(n + 1)];
    assert Owns(tail, {n, n + 1});
    OwnsConcat(cq, tail, Range(n + 2, hi), {n, n + 1});
    OwnsLess(cq + tail, Range(n + 2, hi) + {n, n + 1}, Range(n, hi));
  }

  lemma {:induction false} BranchLabels(e: Expr, lay: Layout, n: nat, lab: nat, when: bool)
    requires WellFormed(e, lay)
    ensures Owns(GenBranch(e, lay, n, lab, when), Range(n, n + LabelsB(e, lay, when)))
    decreases e, Rank(e, true), 0
  {
    hide Owns, Range, TypeOf, GenExpr, LabelsE, GenOperands, LabelsO, ArithConv;
    match e
    case Compare(rel, l, r) =>
      OperandLabels(e, lay, n);
      OwnsPlain(GenOperands(e, lay, n),
                [Cmp(R0, R1), Branch(CmpBranch(rel, ArithConv(TypeOf(l, lay), TypeOf(r, lay)).uns, !when), lab)],
                Range(n, n + LabelsO(e, lay)));
    case Not(l) => BranchLabels(l, lay, n, lab, !when);
    case LogAnd(_, _) => LogicalLabels(e, lay, n, lab, when);
    case LogOr(_, _) => LogicalLabels(e, lay, n, lab, when);
    case _ =>
      ExprLabels(e, lay, n);
      OwnsPlain(GenExpr(e, lay, n), [Test(R0, R0), Branch(if when then Ne else Eq, lab)],
        Range(n, n + LabelsE(e, lay)));
  }

  lemma {:induction false} LogicalLabels(e: Expr, lay: Layout, n: nat, lab: nat, when: bool)
    requires (e.LogAnd? || e.LogOr?) && WellFormed(e, lay)
    ensures Owns(GenBranch(e, lay, n, lab, when), Range(n, n + LabelsB(e, lay, when)))
    decreases e, 0, 0
  {
    hide Owns, GenBranch, LabelsB;
    LogicalShape(e, lay, n, lab, when);
    var l, r, stop := e.l, e.r, e.LogOr?;
    var skip := when != stop;
    var nl, ll := if skip then n + 1 else n, if skip then n else lab;
    var nr := nl + LabelsB(l, lay, stop);
    var hi := nr + LabelsB(r, lay, when);
    var cl, cr := GenBranch(l, lay, nl, ll, stop), GenBranch(r, lay, nr, lab, when);
    BranchLabels(l, lay, nl, ll, stop);
    BranchLabels(r, lay, nr, lab, when);
    OwnsRanges(cl, cr, nl, nr, hi);
    if skip {
      OwnsWith(cl + cr, Range(nl, hi), n);
      assert Range(nl, hi) + {n} == Range(n, hi);
      assert cl + cr + [Label(n)] == cl + (cr + [Label(n)]);
    } else {
      assert cl + (cr + []) == cl + cr;
    }
  }

  // ---- statements ----

  /** The labels the parser stored in the tree. */
  function TreeLabels(s: Stmt): set<nat> {
    match s
    case Null => {}
    case Do(_) => {}
    case Then(a, b) => TreeLabels(a) + TreeLabels(b)
    case IfThen(_, a) => TreeLabels(a)
    case IfElse(_, a, b) => TreeLabels(a) + TreeLabels(b)
    case While(_, a, brk, cont) => TreeLabels(a) + {brk, cont}
    case DoWhile(a, _, brk, cont) => TreeLabels(a) + {brk, cont}
    case For(i, _, _, a, brk, cont) => TreeLabels(i) + TreeLabels(a) + {brk, cont}
    case Labelled(l, a) => TreeLabels(a) + {l}
    case Switch(_, _, _, a, brk) => TreeLabels(a) + {brk}
    case Goto(_) => {}
    case Return(_) => {}
  }

  /** Each was given out once. */
  predicate TreeDistinct(s: Stmt) {
    match s
    case Null => true
    case Do(_) => true
    case Then(a, b) => TreeDistinct(a) && TreeDistinct(b) && TreeLabels(a) !! TreeLabels(b)
    case IfThen(_, a) => TreeDistinct(a)
    case IfElse(_, a, b) => TreeDistinct(a) && TreeDistinct(b) && TreeLabels(a) !! TreeLabels(b)
    case While(_, a, brk, cont) => TreeDistinct(a) && brk != cont && TreeLabels(a) !! {brk, cont}
    case DoWhile(a, _, brk, cont) => TreeDistinct(a) && brk != cont && TreeLabels(a) !! {brk, cont}
    case For(i, _, _, a, brk, cont) =>
      && TreeDistinct(i) && TreeDistinct(a) && brk != cont
      && TreeLabels(i) !! TreeLabels(a) && TreeLabels(i) + TreeLabels(a) !! {brk, cont}
    case Labelled(l, a) => TreeDistinct(a) && l !in TreeLabels(a)
    case Switch(_, _, _, a, brk) => TreeDistinct(a) && brk !in TreeLabels(a)
    case Goto(_) => true
    case Return(_) => true
  }

  ghost predicate Below(s: set<nat>, n: nat) {
    forall l :: l in s ==> l < n
  }

  lemma {:induction false} StmtLabels(s: Stmt, x: Context, n: nat)
    requires StmtOk(s, x.lay) && TreeDistinct(s) && Below(TreeLabels(s), n)
    ensures Owns(GenStmt(s, x, n), TreeLabels(s) + Range(n, n + LabelsS(s, x.lay)))
    decreases s, 1
  {
    hide Owns, Range, GenStmt, LabelsS, TreeDistinct, TreeLabels, StmtOk, Below;
    match s
    case Null => SimpleLabels(s, x, n);
    case Do(_) => SimpleLabels(s, x, n);
    case Goto(_) => SimpleLabels(s, x, n);
    case Return(_) => SimpleLabels(s, x, n);
    case Then(_, _) => ThenLabels(s, x, n);
    case IfThen(_, _) => IfThenLabels(s, x, n);
    case IfElse(_, _, _) => IfElseLabels(s, x, n);
    case While(_, _, _, _) => WhileLabels(s, x, n);
    case DoWhile(_, _, _, _) => DoWhileLabels(s, x, n);
    case For(_, _, _, _, _, _) => ForLabels(s, x, n);
    case Labelled(_, _) => LabelledLabels(s, x, n);
    case Switch(_, _, _, _, _) => SwitchLabels(s, x, n);
  }

  lemma SimpleLabels(s: Stmt, x: Context, n: nat)
    requires (s.Null? || s.Do? || s.Goto? || s.Return?) && StmtOk(s, x.lay)
    ensures Owns(GenStmt(s, x, n), TreeLabels(s) + Range(n, n + LabelsS(s, x.lay)))
  {
    hide Owns, Range, GenExpr, LabelsE, Convert, TypeOf;
    match s
    case Null => OwnsNone([]); OwnsLess([], {}, TreeLabels(s) + Range(n, n));
    case Do(e) =>
      ExprLabels(e, x.lay, n);
      assert {} + Range(n, n + LabelsE(e, x.lay)) == Range(n, n + LabelsE(e, x.lay));
    case Goto(l) => OwnsNone([Jump(l)]); OwnsLess([Jump(l)], {}, TreeLabels(s) + Range(n, n));
    case Return(None) => OwnsNone([Jump(x.retLab)]); OwnsLess([Jump(x.retLab)], {}, TreeLabels(s) + Range(n, n));
    case Return(Some(e)) =>
      ExprLabels(e, x.lay, n);
      ConvertPlain(TypeOf(e, x.lay), x.ret);
      OwnsPlain(GenExpr(e, x.lay, n), Convert(TypeOf(e, x.lay), x.ret) + [Jump(x.retLab)],
        Range(n, n + LabelsE(e, x.lay)));
      assert {} + Range(n, n + LabelsE(e, x.lay)) == Range(n, n + LabelsE(e, x.lay));
  }

  lemma {:induction false} ThenLabels(s: Stmt, x: Context, n: nat)
    requires s.Then? && StmtOk(s, x.lay) && TreeDistinct(s) && Below(TreeLabels(s), n)
    ensures Owns(GenStmt(s, x, n), TreeLabels(s) + Range(n, n + LabelsS(s, x.lay)))
    decreases s, 0
  {
    hide Owns, Range;
    var a, b, mid := s.first, s.second, n + LabelsS(s.first, x.lay);
    StmtLabels(a, x, n);
    StmtLabels(b, x, mid);
    Join(GenStmt(a, x, n), GenStmt(b, x, mid), TreeLabels(a), TreeLabels(b), n, mid, mid + LabelsS(b, x.lay));
  }

  /** Two pieces of code, each owning tree labels below the counter and a stretch of fresh ones. */
  lemma Join(a: Code, b: Code, ta: set<nat>, tb: set<nat>, lo: nat, mid: nat, hi: nat)
    requires lo <= mid <= hi && Below(ta, lo) && Below(tb, lo) && ta !! tb
    requires Owns(a, ta + Range(lo, mid)) && Owns(b, tb + Range(mid, hi))
    ensures Owns(a + b, ta + tb + Range(lo, hi))
  {
    hide Owns;
    OwnsConcat(a, b, ta + Range(lo, mid), tb + Range(mid, hi));
    assert (ta + Range(lo, mid)) + (tb + Range(mid, hi)) == ta + tb + Range(lo, hi);
  }

  /** One more label before or after. */
  lemma JoinLabel(c: Code, t: set<nat>, lo: nat, hi: nat, l: nat)
    requires Owns(c, t + Range(lo, hi)) && l !in t && l < lo
    ensures Owns(c + [Label(l)], t + {l} + Range(lo, hi)) && Owns([Label(l)] + c, t + {l} + Range(lo, hi))
  {
    hide Owns;
    OwnsWith(c, t + Range(lo, hi), l);
    assert t + Range(lo, hi) + {l} == t + {l} + Range(lo, hi);
  }

  /** The label just below a stretch joins the stretch. */
  lemma Absorb(c: Code, t: set<nat>, l: nat, hi: nat)
    requires l < hi && Owns(c, t + {l} + Range(l + 1, hi))
    ensures Owns(c, t + Range(l, hi))
  {
    hide Owns;
    assert t + {l} + Range(l + 1, hi) == t + Range(l, hi);
  }

  lemma NoTree(c: Code, lo: nat, hi: nat)
    requires Owns(c, Range(lo, hi))
    ensures Owns(c, {} + Range(lo, hi))
  {
    assert {} + Range(lo, hi) == Range(lo, hi);
  }

  lemma {:induction false} IfThenLabels(s: Stmt, x: Context, n: nat)
    requires s.IfThen? && StmtOk(s, x.lay) && TreeDistinct(s) && Below(TreeLabels(s), n)
    ensures Owns(GenStmt(s, x, n), TreeLabels(s) + Range(n, n + LabelsS(s, x.lay)))
    decreases s, 0
  {
    hide Owns, Range;
    var t, na := TreeLabels(s.yes), n + 1 + LabelsB(s.c, x.lay, false);
    var hi := na + LabelsS(s.yes, x.lay);
    var cq, ca := GenBranch(s.c, x.lay, n + 1, n, false), GenStmt(s.yes, x, na);
    BranchLabels(s.c, x.lay, n + 1, n, false);
    NoTree(cq, n + 1, na);
    StmtLabels(s.yes, x, na);
    Join(cq, ca, {}, t, n + 1, na, hi);
    assert {} + t == t;
    JoinLabel(cq + ca, t, n + 1, hi, n);
    Absorb(cq + ca + [Label(n)], t, n, hi);
    assert cq + ca + [Label(n)] == cq + (ca + [Label(n)]);
  }

  lemma {:induction false} IfElseLabels(s: Stmt, x: Context, n: nat)
    requires s.IfElse? && StmtOk(s, x.lay) && TreeDistinct(s) && Below(TreeLabels(s), n)
    ensures Owns(GenStmt(s, x, n), TreeLabels(s) + Range(n, n + LabelsS(s, x.lay)))
    decreases s, 0
  {
    hide Owns, Range;
    var ta, tb := TreeLabels(s.yes), TreeLabels(s.no);
    var na := n + 1 + LabelsB(s.c, x.lay, false);
    var l2 := na + LabelsS(s.yes, x.lay);
    var hi := l2 + 1 + LabelsS(s.no, x.lay);
    var cq, ca, cb := GenBranch(s.c, x.lay, n + 1, n, false), GenStmt(s.yes, x, na), GenStmt(s.no, x, l2 + 1);
    BranchLabels(s.c, x.lay, n + 1, n, false);
    NoTree(cq, n + 1, na);
    StmtLabels(s.yes, x, na);
    StmtLabels(s.no, x, l2 + 1);
    JoinLabel(cb, tb, l2 + 1, hi, l2);
    var b := cb + [Label(l2)];
    Absorb(b, tb, l2, hi);
    JoinLabel(b, tb, l2, hi, n);
    OwnsPlain([Label(n)] + b, [Jump(l2)], tb + {n} + Range(l2, hi));
    var c := [Jump(l2)] + ([Label(n)] + b);
    assert c == [Jump(l2), Label(n)] + b;
    IfElseJoin(cq, ca, c, ta, tb, n, na, l2, hi);
  }

  lemma IfElseJoin(cq: Code, ca: Code, c: Code, ta: set<nat>, tb: set<nat>, n: nat, na: nat, l2: nat, hi: nat)
    requires n + 1 <= na <= l2 <= hi && Below(ta, n) && Below(tb, n) && ta !! tb
    requires Owns(cq, {} + Range(n + 1, na)) && Owns(ca, ta + Range(na, l2)) && Owns(c, tb + {n} + Range(l2, hi))
    ensures Owns(cq + (ca + c), ta + tb + Range(n, hi))
  {
    hide Owns, Range;
    Join(ca, c, ta, tb + {n}, na, l2, hi);
    Join(cq, ca + c, {}, ta + (tb + {n}), n + 1, na, hi);
    assert {} + (ta + (tb + {n})) == ta + tb + {n};
    Absorb(cq + (ca + c), ta + tb, n, hi);
  }

  lemma {:induction false} WhileLabels(s: Stmt, x: Context, n: nat)
    requires s.While? && StmtOk(s, x.lay) && TreeDistinct(s) && Below(TreeLabels(s), n)
    ensures Owns(GenStmt(s, x, n), TreeLabels(s) + Range(n, n + LabelsS(s, x.lay)))
    decreases s, 0
  {
    hide Owns, Range;
    var t, na := TreeLabels(s.body), n + LabelsB(s.c, x.lay, false);
    assert s.brk in TreeLabels(s) && s.cont in TreeLabels(s);
    var hi := na + LabelsS(s.body, x.lay);
    var cq, ca := GenBranch(s.c, x.lay, n, s.brk, false), GenStmt(s.body, x, na);
    BranchLabels(s.c, x.lay, n, s.brk, false);
    NoTree(cq, n, na);
    StmtLabels(s.body, x, na);
    OwnsPlain(ca, [Jump(s.cont)], t + Range(na, hi));
    JoinLabel(ca + [Jump(s.cont)], t, na, hi, s.brk);
    var b := ca + [Jump(s.cont)] + [Label(s.brk)];
    assert b == ca + [Jump(s.cont), Label(s.brk)];
    Join(cq, b, {}, t + {s.brk}, n, na, hi);
    assert {} + (t + {s.brk}) == t + {s.brk};
    JoinLabel(cq + b, t + {s.brk}, n, hi, s.cont);
    assert t + {s.brk} + {s.cont} == TreeLabels(s);
  }

  lemma {:induction false} DoWhileLabels(s: Stmt, x: Context, n: nat)
    requires s.DoWhile? && StmtOk(s, x.lay) && TreeDistinct(s) && Below(TreeLabels(s), n)
    ensures Owns(GenStmt(s, x, n), TreeLabels(s) + Range(n, n + LabelsS(s, x.lay)))
    decreases s, 0
  {
    hide Owns, Range;
    var t, nc := TreeLabels(s.body), n + 1 + LabelsS(s.body, x.lay);
    assert s.brk in TreeLabels(s) && s.cont in TreeLabels(s);
    var hi := nc + LabelsB(s.c, x.lay, true);
    var ca, cq := GenStmt(s.body, x, n + 1), GenBranch(s.c, x.lay, nc, n, true);
    StmtLabels(s.body, x, n + 1);
    BranchLabels(s.c, x.lay, nc, n, true);
    NoTree(cq, nc, hi);
    JoinLabel(cq, {}, nc, hi, s.brk);
    JoinLabel(cq + [Label(s.brk)], {} + {s.brk}, nc, hi, s.cont);
    var b := [Label(s.cont)] + (cq + [Label(s.brk)]);
    var tb := {} + {s.brk} + {s.cont};
    Join(ca, b, t, tb, n + 1, nc, hi);
    JoinLabel(ca + b, t + tb, n + 1, hi, n);
    Absorb([Label(n)] + (ca + b), t + tb, n, hi);
    assert t + tb == TreeLabels(s);
  }

  lemma OptLabels(e: Option<Expr>, lay: Layout, n: nat, lab: nat)
    requires WfOpt(e, lay)
    ensures Owns(BranchOpt(e, lay, n, lab), {} + Range(n, n + LabelsBOpt(e, lay)))
    ensures Owns(ExprOpt(e, lay, n), {} + Range(n, n + LabelsEOpt(e, lay)))
  {
    hide Owns;
    if e.Some? {
      BranchLabels(e.value, lay, n, lab, false);
      ExprLabels(e.value, lay, n);
      NoTree(BranchOpt(e, lay, n, lab), n, n + LabelsBOpt(e, lay));
      NoTree(ExprOpt(e, lay, n), n, n + LabelsEOpt(e, lay));
    } else {
      OwnsNone([]);
      OwnsLess([], {}, {} + Range(n, n));
    }
  }

  lemma {:induction false} ForLabels(s: Stmt, x: Context, n: nat)
    requires s.For? && StmtOk(s, x.lay) && TreeDistinct(s) && Below(TreeLabels(s), n)
    ensures Owns(GenStmt(s, x, n), TreeLabels(s) + Range(n, n + LabelsS(s, x.lay)))
    decreases s, 0
  {
    hide Owns, Range, BranchOpt, ExprOpt, LabelsBOpt, LabelsEOpt;
    var ti, ta := TreeLabels(s.init), TreeLabels(s.body);
    assert s.brk in TreeLabels(s) && s.cont in TreeLabels(s);
    var nc := n + 1 + LabelsS(s.init, x.lay);
    var na := nc + LabelsBOpt(s.test, x.lay);
    var ne := na + LabelsS(s.body, x.lay);
    var hi := ne + LabelsEOpt(s.step, x.lay);
    StmtLabels(s.init, x, n + 1);
    StmtLabels(s.body, x, na);
    OptLabels(s.test, x.lay, nc, s.brk);
    OptLabels(s.step, x.lay, ne, s.brk);
    var ci, cq, ca, ce := GenStmt(s.init, x, n + 1), BranchOpt(s.test, x.lay, nc, s.brk), GenStmt(s.body, x, na),
      ExprOpt(s.step, x.lay, ne);
    ForJoin(ci, cq, ca, ce, ti, ta, s.brk, s.cont, n, nc, na, ne, hi);
    assert ti + ta + {s.brk, s.cont} == TreeLabels(s);
  }

  lemma ForJoin(ci: Code, cq: Code, ca: Code, ce: Code, ti: set<nat>, ta: set<nat>, brk: nat, cont: nat,
                n: nat, nc: nat, na: nat, ne: nat, hi: nat)
    requires n + 1 <= nc <= na <= ne <= hi && Below(ti, n) && Below(ta, n) && brk < n && cont < n && brk != cont
    requires ti !! ta && ti + ta !! {brk, cont}
    requires Owns(ci, ti + Range(n + 1, nc)) && Owns(cq, {} + Range(nc, na))
    requires Owns(ca, ta + Range(na, ne)) && Owns(ce, {} + Range(ne, hi))
    ensures Owns(ci + ([Label(n)] + (cq + (ca + ([Label(cont)] + (ce + [Jump(n), Label(brk)]))))),
                 ti + ta + {brk, cont} + Range(n, hi))
  {
    hide Owns, Range;
    OwnsPlain(ce, [Jump(n)], {} + Range(ne, hi));
    JoinLabel(ce + [Jump(n)], {}, ne, hi, brk);
    assert ce + [Jump(n)] + [Label(brk)] == ce + [Jump(n), Label(brk)];
    var c1 := ce + [Jump(n), Label(brk)];
    JoinLabel(c1, {} + {brk}, ne, hi, cont);
    assert {} + {brk} + {cont} == {brk, cont};
    var c2 := [Label(cont)] + c1;
    Join(ca, c2, ta, {brk, cont}, na, ne, hi);
    Join(cq, ca + c2, {}, ta + {brk, cont}, nc, na, hi);
    assert {} + (ta + {brk, cont}) == ta + {brk, cont};
    var c3 := cq + (ca + c2);
    JoinLabel(c3, ta + {brk, cont}, nc, hi, n);
    var c4 := [Label(n)] + c3;
    Join(ci, c4, ti, ta + {brk, cont} + {n}, n + 1, nc, hi);
    assert ti + (ta + {brk, cont} + {n}) == ti + ta + {brk, cont} + {n};
    Absorb(ci + c4, ti + ta + {brk, cont}, n, hi);
  }

  lemma {:induction false} LabelledLabels(s: Stmt, x: Context, n: nat)
    requires s.Labelled? && StmtOk(s, x.lay) && TreeDistinct(s) && Below(TreeLabels(s), n)
    ensures Owns(GenStmt(s, x, n), TreeLabels(s) + Range(n, n + LabelsS(s, x.lay)))
    decreases s, 0
  {
    hide Owns, Range;
    StmtLabels(s.stmt, x, n);
    assert s.lab in TreeLabels(s);
    JoinLabel(GenStmt(s.stmt, x, n), TreeLabels(s.stmt), n, n + LabelsS(s.stmt, x.lay), s.lab);
  }

  lemma {:induction false} CasesPlain(cases: Cases)
    ensures forall i :: 0 <= i < |CaseCode(cases)| ==> !CaseCode(cases)[i].Label?
  {
    if cases.NoCase? {
    } else {
      CasesPlain(cases.rest);
    }
  }

  lemma {:induction false} SwitchLabels(s: Stmt, x: Context, n: nat)
    requires s.Switch? && StmtOk(s, x.lay) && TreeDistinct(s) && Below(TreeLabels(s), n)
    ensures Owns(GenStmt(s, x, n), TreeLabels(s) + Range(n, n + LabelsS(s, x.lay)))
    decreases s, 0
  {
    hide Owns, Range, CaseCode, GenExpr, LabelsE;
    var t, na := TreeLabels(s.body), n + LabelsE(s.c, x.lay);
    assert s.brk in TreeLabels(s);
    var hi := na + LabelsS(s.body, x.lay);
    var cq, cc, ca := GenExpr(s.c, x.lay, n), CaseCode(s.cases), GenStmt(s.body, x, na);
    var go := [Jump(if s.deflt.Some? then s.deflt.value else s.brk)];
    ExprLabels(s.c, x.lay, n);
    NoTree(cq, n, na);
    StmtLabels(s.body, x, na);
    JoinLabel(ca, t, na, hi, s.brk);
    var b := ca + [Label(s.brk)];
    CasesPlain(s.cases);
    OwnsPlain(b, go, t + {s.brk} + Range(na, hi));
    OwnsPlain(go + b, cc, t + {s.brk} + Range(na, hi));
    Join(cq, cc + (go + b), {}, t + {s.brk}, n, na, hi);
    assert {} + (t + {s.brk}) == TreeLabels(s);
  }
}
