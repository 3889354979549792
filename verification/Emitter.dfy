/** The compiler's own form: one pass over the tree that appends instructions to the output and
    takes labels from a counter. */
module Emitter {
  import opened Machine
  import opened CLang
  import opened CodeGen
  import opened Statements
  import opened CompileExpr
  import opened CompileStmt
  import opened Functions

  /** Appending piece by piece. */
  lemma Cat(o: Code, a: Code, b: Code)
    ensures o + a + b == o + (a + b)
  {
  }

  lemma Cat4(o: Code, a: Code, b: Code, c: Code)
    ensures o + a + b + c == o + (a + (b + c))
  {
    Cat(o, a, b);
    Cat(o, a + b, c);
    Cat(a, b, c);
  }

  lemma Cat5(o: Code, a: Code, b: Code, c: Code, d: Code)
    ensures o + a + b + c + d == o + (a + (b + (c + d)))
  {
    Cat4(o, a, b, c);
    Cat(o, a + (b + c), d);
    Cat4(a, b, c, d);
  }

  lemma Cat6(o: Code, a: Code, b: Code, c: Code, d: Code, e: Code)
    ensures o + a + b + c + d + e == o + (a + (b + (c + (d + e))))
  {
    Cat5(o, a, b, c, d);
    Cat(o, a + (b + (c + d)), e);
    Cat5(a, b, c, d, e);
  }

  lemma Cat7(o: Code, a: Code, b: Code, c: Code, d: Code, e: Code, f: Code)
    ensures o + a + b + c + d + e + f == o + (a + (b + (c + (d + (e + f)))))
  {
    Cat6(o, a, b, c, d, e);
    Cat(o, a + (b + (c + (d + e))), f);
    Cat6(a, b, c, d, e, f);
  }

  lemma IfCount(s: Stmt, lay: Layout)
    requires (s.IfThen? || s.IfElse?) && StmtOk(s, lay)
    ensures StmtOk(s.yes, lay) && WellFormed(s.c, lay) && (s.IfElse? ==> StmtOk(s.no, lay))
    ensures LabelsS(s, lay) == 1 + LabelsB(s.c, lay, false) + LabelsS(s.yes, lay)
                               + if s.IfThen? then 0 else 1 + LabelsS(s.no, lay)
  {
    hide LabelsB, WellFormed, CastsFit;
  }

  lemma LoopCount(s: Stmt, lay: Layout)
    requires (s.While? || s.DoWhile?) && StmtOk(s, lay)
    ensures StmtOk(s.body, lay) && WellFormed(s.c, lay)
    ensures LabelsS(s, lay) == LabelsB(s.c, lay, s.DoWhile?) + LabelsS(s.body, lay) + if s.While? then 0 else 1
  {
    hide LabelsB, WellFormed, CastsFit;
  }

  lemma TestCount(e: Expr, lay: Layout, when: bool)
    requires !IsBool(e) && WellFormed(e, lay)
    ensures LabelsB(e, lay, when) == LabelsE(e, lay)
  {
    hide LabelsE;
  }

  class Generator {
    var out: Code
    var nlabel: nat
    const lay: Layout
    const ret: Ty
    var retLab: nat

    constructor (lay: Layout, ret: Ty, first: nat)
      ensures out == [] && nlabel == first && this.lay == lay && this.ret == ret
    {
      this.lay, this.ret := lay, ret;
      out, nlabel, retLab := [], first, 0;
    }

    method Emit(c: Code)
      modifies this`out
      ensures out == old(out) + c
    {
      out := out + c;
    }

    method NewLabel() returns (l: nat)
      modifies this`nlabel
      ensures l == old(nlabel) && nlabel == l + 1
    {
      l := nlabel;
      nlabel := nlabel + 1;
    }

    method EmitOperands(e: Expr)
      requires WellFormed(e, lay) && TwoOperands(e)
      modifies this`out, this`nlabel
      ensures out == old(out) + GenOperands(e, lay, old(nlabel))
      ensures nlabel == old(nlabel) + LabelsO(e, lay)
      decreases e, 0, 0
    {
      hide GenExpr, LabelsE;
      ghost var cl := GenExpr(e.l, lay, nlabel);
      EmitExpr(e.l);
      if SimpleRhs(e.r, lay) {
        Emit([GenR1(e.r, lay)]);
        Cat(old(out), cl, [GenR1(e.r, lay)]);
      } else {
        Emit([Push(R0)]);
        ghost var cr := GenExpr(e.r, lay, nlabel);
        EmitExpr(e.r);
        Emit([Move(R1, R0), Pop(R0)]);
        Cat5(old(out), cl, [Push(R0)], cr, [Move(R1, R0), Pop(R0)]);
      }
    }

    method EmitExpr(e: Expr)
      requires WellFormed(e, lay)
      modifies this`out, this`nlabel
      ensures out == old(out) + GenExpr(e, lay, old(nlabel))
      ensures nlabel == old(nlabel) + LabelsE(e, lay)
      decreases e, Rank(e, false), 0
    {
      hide GenBranch, GenOperands, TypeOf, Convert, LoadFrom, StoreTo, BinInstr;
      match e
      case Num(w, _) => Emit([LoadImm(R0, w)]);
      case Var(off) => Emit([LoadFrom(lay[off], R7, off)]);
      case Cast(t, l) =>
        EmitExpr(l);
        Emit(Convert(TypeOf(l, lay), t));
        Cat(old(out), GenExpr(l, lay, old(nlabel)), Convert(TypeOf(l, lay), t));
      case Assign(_, _) => EmitAssign(e);
      case OpAssign(_, _, _) => EmitOpAssign(e);
      case IncDec(_, _, _, _) => EmitIncDec(e);
      case Ternary(_, _, _) => EmitTernary(e);
      case Comma(l, r) =>
        EmitExpr(l);
        EmitExpr(r);
        Cat(old(out), GenExpr(l, lay, old(nlabel)), GenExpr(r, lay, old(nlabel) + LabelsE(l, lay)));
      case Negate(_) => EmitUnary(e);
      case BitNot(_) => EmitUnary(e);
      case Bin(_, _, _) => EmitBin(e);
      case _ => EmitBool(e);
    }

    method EmitUnary(e: Expr)
      requires (e.Negate? || e.BitNot?) && WellFormed(e, lay)
      modifies this`out, this`nlabel
      ensures out == old(out) + GenExpr(e, lay, old(nlabel))
      ensures nlabel == old(nlabel) + LabelsE(e, lay)
      decreases e, 0, 0
    {
      var i := if e.Negate? then Neg(R0) else XorImm(R0, 0xFFFF_FFFF);
      EmitExpr(e.l);
      Emit([i]);
      Cat(old(out), GenExpr(e.l, lay, old(nlabel)), [i]);
    }

    method EmitBin(e: Expr)
      requires e.Bin? && WellFormed(e, lay)
      modifies this`out, this`nlabel
      ensures out == old(out) + GenExpr(e, lay, old(nlabel))
      ensures nlabel == old(nlabel) + LabelsE(e, lay)
      decreases e, 0, 1
    {
      hide GenOperands, TypeOf, BinInstr;
      var i := BinInstr(e.op, TypeOf(e, lay).uns);
      EmitOperands(e);
      Emit([i]);
      Cat(old(out), GenOperands(e, lay, old(nlabel)), [i]);
    }

    method EmitAssign(e: Expr)
      requires e.Assign? && WellFormed(e, lay)
      modifies this`out, this`nlabel
      ensures out == old(out) + GenExpr(e, lay, old(nlabel))
      ensures nlabel == old(nlabel) + LabelsE(e, lay)
      decreases e, 0, 0
    {
      hide TypeOf, Convert, StoreTo;
      var off, r := e.off, e.r;
      EmitExpr(r);
      Emit(Convert(TypeOf(r, lay), lay[off]));
      Emit([Lea(R1, R7, off), StoreTo(lay[off])]);
      Cat4(old(out), GenExpr(r, lay, old(nlabel)), Convert(TypeOf(r, lay), lay[off]),
        [Lea(R1, R7, off), StoreTo(lay[off])]);
    }

    method EmitOpAssign(e: Expr)
      requires e.OpAssign? && WellFormed(e, lay)
      modifies this`out, this`nlabel
      ensures out == old(out) + GenExpr(e, lay, old(nlabel))
      ensures nlabel == old(nlabel) + LabelsE(e, lay)
      decreases e, 0, 0
    {
      hide TypeOf, Convert, LoadFrom, StoreTo, BinInstr, BinType;
      var op, off, r := e.op, e.off, e.r;
      var head := [Lea(R0, R7, off), Push(R0), LoadFrom(lay[off], R0, 0), Push(R0)];
      var mid := [Move(R1, R0), Pop(R0), BinInstr(op, BinType(op, lay[off], TypeOf(r, lay)).uns)];
      Emit(head);
      EmitExpr(r);
      Emit(mid);
      Emit(Convert(CInt(false), lay[off]));
      Emit([Pop(R1), StoreTo(lay[off])]);
      Cat6(old(out), head, GenExpr(r, lay, old(nlabel)), mid, Convert(CInt(false), lay[off]),
        [Pop(R1), StoreTo(lay[off])]);
    }

    /** gen_incdec */
    method EmitIncDec(e: Expr)
      requires e.IncDec? && WellFormed(e, lay)
      modifies this`out, this`nlabel
      ensures out == old(out) + GenExpr(e, lay, old(nlabel))
      ensures nlabel == old(nlabel) + LabelsE(e, lay)
    {
      hide Convert, LoadFrom, StoreTo;
      var off, t := e.off, lay[e.off];
      var head := [Lea(R0, R7, off), Move(R1, R0), Move(R2, R0), LoadFrom(t, R0, 0)];
      var push: Code, pop: Code := if e.post then [Push(R0)] else [], if e.post then [Pop(R0)] else [];
      var bump := [if e.dec then SubImm(R0, e.amount) else AddImm(R0, e.amount)];
      Emit(head);
      Emit(push);
      Emit(bump);
      Emit(Convert(CInt(false), t));
      Emit([Move(R1, R2), StoreTo(t)]);
      Emit(pop);
      Cat7(old(out), head, push, bump, Convert(CInt(false), t), [Move(R1, R2), StoreTo(t)], pop);
    }

    method EmitTernary(e: Expr)
      requires e.Ternary? && WellFormed(e, lay)
      modifies this`out, this`nlabel
      ensures out == old(out) + GenExpr(e, lay, old(nlabel))
      ensures nlabel == old(nlabel) + LabelsE(e, lay)
      decreases e, 0, 0
    {
      hide TypeOf, Convert, GenBranch, GenExpr, LabelsE, LabelsB;
      var c, l, r, t := e.c, e.l, e.r, TypeOf(e, lay);
      TernaryCode(e, lay, nlabel);
      var l1 := NewLabel();
      var l2 := NewLabel();
      EmitBranch(c, l1, false);
      ghost var nl := nlabel;
      EmitExpr(l);
      Emit(Convert(TypeOf(l, lay), t));
      Emit([Jump(l2), Label(l1)]);
      ghost var nr := nlabel;
      EmitExpr(r);
      Emit(Convert(TypeOf(r, lay), t));
      Emit([Label(l2)]);
      ghost var cq := GenBranch(c, lay, l1 + 2, l1, false);
      ghost var cl, vl := GenExpr(l, lay, nl), Convert(TypeOf(l, lay), t);
      ghost var cr, vr := GenExpr(r, lay, nr), Convert(TypeOf(r, lay), t);
      Cat(old(out) + cq, cl, vl);
      Cat(old(out) + cq + (cl + vl) + [Jump(l2), Label(l1)], cr, vr);
      Cat6(old(out), cq, cl + vl, [Jump(l2), Label(l1)], cr + vr, [Label(l2)]);
    }

    method EmitBool(e: Expr)
      requires IsBool(e) && WellFormed(e, lay)
      modifies this`out, this`nlabel
      ensures out == old(out) + GenExpr(e, lay, old(nlabel))
      ensures nlabel == old(nlabel) + LabelsE(e, lay)
      decreases e, Rank(e, true), 1
    {
      hide GenBranch, LabelsB;
      var l1 := NewLabel();
      var l2 := NewLabel();
      EmitBranch(e, l1, true);
      var tail := [LoadImm(R0, 0), Jump(l2), Label(l1), LoadImm(R0, 1), Label(l2)];
      Emit(tail);
      Cat(old(out), GenBranch(e, lay, l1 + 2, l1, true), tail);
    }

    method EmitBranch(e: Expr, lab: nat, when: bool)
      requires WellFormed(e, lay)
      modifies this`out, this`nlabel
      ensures out == old(out) + GenBranch(e, lay, old(nlabel), lab, when)
      ensures nlabel == old(nlabel) + LabelsB(e, lay, when)
      decreases e, Rank(e, true), 0
    {
      hide GenExpr, GenOperands, TypeOf;
      match e
      case Compare(_, _, _) => EmitCompare(e, lab, when);
      case Not(l) => EmitBranch(l, lab, !when);
      case LogAnd(_, _) => EmitLogical(e, lab, when);
      case LogOr(_, _) => EmitLogical(e, lab, when);
      case _ => EmitTest(e, lab, when);
    }

    /** Any other expression is compared with zero. */
    method EmitTest(e: Expr, lab: nat, when: bool)
      requires !IsBool(e) && WellFormed(e, lay)
      modifies this`out, this`nlabel
      ensures out == old(out) + GenBranch(e, lay, old(nlabel), lab, when)
      ensures nlabel == old(nlabel) + LabelsB(e, lay, when)
      decreases e, 1, 1
    {
      hide GenExpr, GenBranch, LabelsE, LabelsB, TypeOf, WellFormed;
      var tail := [Test(R0, R0), Branch(if when then Ne else Eq, lab)];
      TestCode(e, lay, nlabel, lab, when);
      TestCount(e, lay, when);
      EmitExpr(e);
      Emit(tail);
      Cat(old(out), GenExpr(e, lay, old(nlabel)), tail);
    }

    method EmitCompare(e: Expr, lab: nat, when: bool)
      requires e.Compare? && WellFormed(e, lay)
      modifies this`out, this`nlabel
      ensures out == old(out) + GenBranch(e, lay, old(nlabel), lab, when)
      ensures nlabel == old(nlabel) + LabelsB(e, lay, when)
      decreases e, 0, 1
    {
      hide GenExpr, GenOperands, TypeOf;
      var t := ArithConv(TypeOf(e.l, lay), TypeOf(e.r, lay));
      var tail := [Cmp(R0, R1), Branch(CmpBranch(e.rel, t.uns, !when), lab)];
      EmitOperands(e);
      Emit(tail);
      Cat(old(out), GenOperands(e, lay, old(nlabel)), tail);
    }

    method EmitLogical(e: Expr, lab: nat, when: bool)
      requires (e.LogAnd? || e.LogOr?) && WellFormed(e, lay)
      modifies this`out, this`nlabel
      ensures out == old(out) + GenBranch(e, lay, old(nlabel), lab, when)
      ensures nlabel == old(nlabel) + LabelsB(e, lay, when)
      decreases e, 0, 0
    {
      hide GenBranch, LabelsB;
      var l, r, stop := e.l, e.r, e.LogOr?;
      ghost var n := nlabel;
      LogicalShape(e, lay, n, lab, when);
      if when != stop {
        var skip := NewLabel();
        EmitBranch(l, skip, stop);
        EmitBranch(r, lab, when);
        Emit([Label(skip)]);
        Cat4(old(out), GenBranch(l, lay, n + 1, n, stop),
             GenBranch(r, lay, n + 1 + LabelsB(l, lay, stop), lab, when), [Label(n)]);
      } else {
        EmitBranch(l, lab, stop);
        EmitBranch(r, lab, when);
        assert out + [] == out;
        Cat4(old(out), GenBranch(l, lay, n, lab, stop), GenBranch(r, lay, n + LabelsB(l, lay, stop), lab, when), []);
      }
    }

    ghost function Ctx(): Context
      reads this`retLab
    {
      Context(lay, ret, retLab)
    }

    method EmitStmt(s: Stmt)
      requires StmtOk(s, lay)
      modifies this`out, this`nlabel
      ensures out == old(out) + GenStmt(s, Ctx(), old(nlabel))
      ensures nlabel == old(nlabel) + LabelsS(s, lay)
      decreases s, 1
    {
      hide GenExpr, GenBranch, LabelsE, LabelsB, TypeOf, Convert, WellFormed, CastsFit;
      match s
      case Null =>
      case Do(e) => EmitExpr(e);
      case Then(a, b) =>
        ghost var x, n := Ctx(), nlabel;
        EmitStmt(a);
        EmitStmt(b);
        Cat(old(out), GenStmt(a, x, n), GenStmt(b, x, n + LabelsS(a, lay)));
      case IfThen(_, _) => EmitIf(s);
      case IfElse(_, _, _) => EmitIf(s);
      case While(_, _, _, _) => EmitWhile(s);
      case DoWhile(_, _, _, _) => EmitDoWhile(s);
      case For(_, _, _, _, _, _) => EmitFor(s);
      case Labelled(_, _) => EmitLabelled(s);
      case Switch(_, _, _, _, _) => EmitSwitch(s);
      case Goto(l) => Emit([Jump(l)]);
      case Return(_) => EmitReturn(s);
    }

    method EmitLabelled(s: Stmt)
      requires s.Labelled? && StmtOk(s, lay)
      modifies this`out, this`nlabel
      ensures out == old(out) + GenStmt(s, Ctx(), old(nlabel))
      ensures nlabel == old(nlabel) + LabelsS(s, lay)
      decreases s, 0
    {
      Emit([Label(s.lab)]);
      EmitStmt(s.stmt);
      Cat(old(out), [Label(s.lab)], GenStmt(s.stmt, Ctx(), old(nlabel)));
    }

    method EmitReturn(s: Stmt)
      requires s.Return? && StmtOk(s, lay)
      modifies this`out, this`nlabel
      ensures out == old(out) + GenStmt(s, Ctx(), old(nlabel))
      ensures nlabel == old(nlabel) + LabelsS(s, lay)
    {
      hide GenExpr, LabelsE, TypeOf, Convert, WellFormed, CastsFit;
      if s.value.Some? {
        var e := s.value.value;
        EmitExpr(e);
        Emit(Convert(TypeOf(e, lay), ret));
        Emit([Jump(retLab)]);
        Cat4(old(out), GenExpr(e, lay, old(nlabel)), Convert(TypeOf(e, lay), ret), [Jump(retLab)]);
      } else {
        Emit([Jump(retLab)]);
      }
    }

    method EmitIf(s: Stmt)
      requires (s.IfThen? || s.IfElse?) && StmtOk(s, lay)
      modifies this`out, this`nlabel
      ensures out == old(out) + GenStmt(s, Ctx(), old(nlabel))
      ensures nlabel == old(nlabel) + LabelsS(s, lay)
      decreases s, 0
    {
      hide GenExpr, GenBranch, GenStmt, LabelsE, LabelsB, LabelsS, NeedS, Need, StmtOk, WellFormed, CastsFit;
      ghost var x := Ctx();
      IfParts(s, x, nlabel);
      IfCount(s, lay);
      var l1 := NewLabel();
      EmitBranch(s.c, l1, false);
      ghost var na := nlabel;
      EmitStmt(s.yes);
      ghost var cq, ca := GenBranch(s.c, lay, l1 + 1, l1, false), GenStmt(s.yes, x, na);
      if s.IfElse? {
        var l2 := NewLabel();
        Emit([Jump(l2), Label(l1)]);
        EmitStmt(s.no);
        Emit([Label(l2)]);
        Cat6(old(out), cq, ca, [Jump(l2), Label(l1)], GenStmt(s.no, x, l2 + 1), [Label(l2)]);
      } else {
        Emit([Label(l1)]);
        Cat4(old(out), cq, ca, [Label(l1)]);
      }
    }

    /** gen_switch: a comparison and a branch for each case along the list, then the jump past them. */
    method EmitSwitch(s: Stmt)
      requires s.Switch? && StmtOk(s, lay)
      modifies this`out, this`nlabel
      ensures out == old(out) + GenStmt(s, Ctx(), old(nlabel))
      ensures nlabel == old(nlabel) + LabelsS(s, lay)
      decreases s, 0
    {
      hide GenExpr, LabelsE, WellFormed, CastsFit;
      ghost var x, n := Ctx(), nlabel;
      EmitExpr(s.c);
      EmitCases(s.cases);
      var go := [Jump(if s.deflt.Some? then s.deflt.value else s.brk)];
      Emit(go);
      ghost var na := nlabel;
      EmitStmt(s.body);
      Emit([Label(s.brk)]);
      Cat6(old(out), GenExpr(s.c, lay, n), CaseCode(s.cases), go, GenStmt(s.body, x, na), [Label(s.brk)]);
    }

    method EmitCases(cases: Cases)
      modifies this`out
      ensures out == old(out) + CaseCode(cases)
    {
      var c := cases;
      while c.Case?
        invariant out + CaseCode(c) == old(out) + CaseCode(cases)
        decreases c
      {
        var two := [CmpImm(R0, c.val), Branch(Eq, c.lab)];
        Cat(out, two, CaseCode(c.rest));
        Emit(two);
        c := c.rest;
      }
    }

    method EmitWhile(s: Stmt)
      requires s.While? && StmtOk(s, lay)
      modifies this`out, this`nlabel
      ensures out == old(out) + GenStmt(s, Ctx(), old(nlabel))
      ensures nlabel == old(nlabel) + LabelsS(s, lay)
      decreases s, 0
    {
      hide GenExpr, GenBranch, GenStmt, LabelsE, LabelsB, LabelsS, NeedS, Need, StmtOk, WellFormed, CastsFit;
      ghost var x, n := Ctx(), nlabel;
      WhileParts(s, x, n);
      LoopCount(s, lay);
      Emit([Label(s.cont)]);
      EmitBranch(s.c, s.brk, false);
      ghost var na := nlabel;
      EmitStmt(s.body);
      Emit([Jump(s.cont), Label(s.brk)]);
      Cat5(old(out), [Label(s.cont)], GenBranch(s.c, lay, n, s.brk, false), GenStmt(s.body, x, na),
           [Jump(s.cont), Label(s.brk)]);
    }

    method EmitDoWhile(s: Stmt)
      requires s.DoWhile? && StmtOk(s, lay)
      modifies this`out, this`nlabel
      ensures out == old(out) + GenStmt(s, Ctx(), old(nlabel))
      ensures nlabel == old(nlabel) + LabelsS(s, lay)
      decreases s, 0
    {
      hide GenExpr, GenBranch, GenStmt, LabelsE, LabelsB, LabelsS, NeedS, Need, StmtOk, WellFormed, CastsFit;
      ghost var x := Ctx();
      DoWhileParts(s, x, nlabel);
      LoopCount(s, lay);
      var l1 := NewLabel();
      Emit([Label(l1)]);
      EmitStmt(s.body);
      Emit([Label(s.cont)]);
      ghost var nc := nlabel;
      EmitBranch(s.c, l1, true);
      Emit([Label(s.brk)]);
      Cat6(old(out), [Label(l1)], GenStmt(s.body, x, l1 + 1), [Label(s.cont)], GenBranch(s.c, lay, nc, l1, true),
        [Label(s.brk)]);
    }

    method EmitFor(s: Stmt)
      requires s.For? && StmtOk(s, lay)
      modifies this`out, this`nlabel
      ensures out == old(out) + GenStmt(s, Ctx(), old(nlabel))
      ensures nlabel == old(nlabel) + LabelsS(s, lay)
      decreases s, 0, 1
    {
      hide GenStmt, LoopCode, LabelsBOpt, LabelsEOpt, WfOpt;
      ForShape(s, Ctx(), nlabel);
      var l1 := NewLabel();
      EmitStmt(s.init);
      ghost var nc := nlabel;
      EmitLoop(s, l1);
      Cat(old(out), GenStmt(s.init, Ctx(), l1 + 1), LoopCode(s, Ctx(), l1, nc));
    }

    /** The part of a for statement behind its first clause. */
    method EmitLoop(s: Stmt, l1: nat)
      requires s.For? && StmtOk(s, lay)
      modifies this`out, this`nlabel
      ensures out == old(out) + LoopCode(s, Ctx(), l1, old(nlabel))
      ensures nlabel == old(nlabel) + LabelsBOpt(s.test, lay) + LabelsS(s.body, lay) + LabelsEOpt(s.step, lay)
      decreases s, 0, 0
    {
      hide GenExpr, GenBranch, LabelsE, LabelsB, WellFormed, CastsFit, GenStmt;
      ghost var x, nc := Ctx(), nlabel;
      Emit([Label(l1)]);
      if s.test.Some? {
        EmitBranch(s.test.value, s.brk, false);
      } else {
        Emit([]);
      }
      ghost var na := nlabel;
      EmitStmt(s.body);
      Emit([Label(s.cont)]);
      ghost var ne := nlabel;
      if s.step.Some? {
        EmitExpr(s.step.value);
      } else {
        Emit([]);
      }
      Emit([Jump(l1), Label(s.brk)]);
      Cat7(old(out), [Label(l1)], BranchOpt(s.test, lay, nc, s.brk), GenStmt(s.body, x, na), [Label(s.cont)],
           ExprOpt(s.step, lay, ne), [Jump(l1), Label(s.brk)]);
    }

    /** gen_func on a fresh output: the code whose calls CallOk is about. */
    method EmitFunc(f: Func)
      requires StmtOk(f.body, lay) && f.lay == lay && f.ret == ret && out == []
      modifies this
      ensures out == GenFunc(f, old(nlabel))
    {
      hide GenStmt;
      retLab := NewLabel();
      Emit([Push(R7), MovSp(R7)]);
      if f.frame > 0 {
        Emit([AddSp(0 - f.frame)]);
      }
      EmitStmt(f.body);
      if f.isMain {
        Emit([LoadImm(R0, 0)]);
      }
      Emit([Label(retLab), SetSp(R7), Pop(R7), Ret]);
    }
  }
}
