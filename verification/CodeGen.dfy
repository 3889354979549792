/** The code the compiler emits for expressions and conditions, as a function of the tree and
    of the first free label number.  Sequence positions stand for the emission order. */
module CodeGen {
  import opened Words
  import opened Machine
  import opened CLang

  type Code = seq<Instr>

  function WidthOf(t: Ty): Width {
    match t
    case CChar(_) => W1
    case CShort(_) => W2
    case CInt(_) => W4
  }

  /** load(t): through the address in base. */
  function LoadFrom(t: Ty, base: Reg, off: int): Instr {
    Load(WidthOf(t), !t.uns && !t.CInt?, R0, base, off)
  }

  function StoreTo(t: Ty): Instr {
    Store(WidthOf(t), R1, 0, R0)
  }

  function Convert(from: Ty, to: Ty): Code {
    match to
    case CChar(u) =>
      if from.CChar? && from.uns == u then []
      else if u then [AndImm(R0, 0xFF)] else [ShlImm(R0, 24), SarImm(R0, 24)]
    case CShort(u) =>
      if (from.CShort? && from.uns == u) || (from.CChar? && (from.uns || !u)) then []
      else if u then [AndImm(R0, 0xFFFF)] else [ShlImm(R0, 16), SarImm(R0, 16)]
    case CInt(_) => []
  }

  predicate SimpleRhs(e: Expr, lay: Layout)
    requires WellFormed(e, lay)
  {
    || e.Num?
    || (e.Var? && lay[e.off].CInt?)
    || (e.Cast? && e.l.Num?)
  }

  /** gen_r1: a cast around the constant is dropped. */
  function GenR1(e: Expr, lay: Layout): Instr
    requires WellFormed(e, lay) && SimpleRhs(e, lay)
  {
    match e
    case Cast(_, k) => LoadImm(R1, k.val)
    case Num(w, _) => LoadImm(R1, w)
    case Var(off) => Load(W4, false, R1, R7, off)
  }

  function BinInstr(op: BinOp, uns: bool): Instr {
    match op
    case OAdd => Alu(Add, R0, R1)
    case OSub => Alu(Sub, R0, R1)
    case OMul => Alu(Imul, R0, R1)
    case ODiv => Alu(if uns then UDiv else IDiv, R0, R1)
    case OMod => Alu(if uns then UMod else IMod, R0, R1)
    case OAnd => Alu(And, R0, R1)
    case OOr => Alu(Or, R0, R1)
    case OXor => Alu(Xor, R0, R1)
    case OShl => Alu(Shl, R0, R1)
    case OShr => Alu(if uns then Shr else Sar, R0, R1)
  }

  function Opposite(rel: Rel): Rel {
    match rel
    case REq => RNe
    case RNe => REq
    case RLt => RGe
    case RGe => RLt
    case RLe => RGt
    case RGt => RLe
  }

  function CmpBranch(rel: Rel, uns: bool, neg: bool): Cond {
    match (if neg then Opposite(rel) else rel)
    case REq => Eq
    case RNe => Ne
    case RLt => if uns then Lo else Lt
    case RGe => if uns then Hs else Ge
    case RLe => if uns then Ls else Le
    case RGt => if uns then Hi else Gt
  }

  /** Trees that gen_expr hands to gen_branch. */
  predicate IsBool(e: Expr) {
    e.Not? || e.LogAnd? || e.LogOr? || e.Compare?
  }

  function Rank(e: Expr, inBranch: bool): (r: nat)
    ensures 1 <= r <= 2
  {
    if IsBool(e) == inBranch then 1 else 2
  }

  predicate TwoOperands(e: Expr) {
    e.Bin? || e.Compare?
  }

  /** Left operand in R0 and right operand in R1. */
  function GenOperands(e: Expr, lay: Layout, n: nat): Code
    requires WellFormed(e, lay) && TwoOperands(e)
    decreases e, 0
  {
    if SimpleRhs(e.r, lay) then GenExpr(e.l, lay, n) + [GenR1(e.r, lay)]
    else
      GenExpr(e.l, lay, n) + ([Push(R0)] + (GenExpr(e.r, lay, n + LabelsE(e.l, lay)) + [Move(R1, R0), Pop(R0)]))
  }

  function GenExpr(e: Expr, lay: Layout, n: nat): Code
    requires WellFormed(e, lay)
    decreases e, Rank(e, false)
  {
    match e
    case Num(w, _) => [LoadImm(R0, w)]
    case Var(off) => [LoadFrom(lay[off], R7, off)]
    case Cast(t, l) => GenExpr(l, lay, n) + Convert(TypeOf(l, lay), t)
    case Assign(off, r) =>
      GenExpr(r, lay, n) + (Convert(TypeOf(r, lay), lay[off]) + [Lea(R1, R7, off), StoreTo(lay[off])])
    case OpAssign(op, off, r) =>
      [Lea(R0, R7, off), Push(R0), LoadFrom(lay[off], R0, 0), Push(R0)]
      + (GenExpr(r, lay, n)
         + ([Move(R1, R0), Pop(R0), BinInstr(op, BinType(op, lay[off], TypeOf(r, lay)).uns)]
            + (Convert(CInt(false), lay[off]) + [Pop(R1), StoreTo(lay[off])])))
    case IncDec(off, dec, post, k) =>
      [Lea(R0, R7, off), Move(R1, R0), Move(R2, R0), LoadFrom(lay[off], R0, 0)]
      + ((if post then [Push(R0)] else [])
         + ([if dec then SubImm(R0, k) else AddImm(R0, k)]
            + (Convert(CInt(false), lay[off])
               + ([Move(R1, R2), StoreTo(lay[off])] + (if post then [Pop(R0)] else [])))))
    case Ternary(c, l, r) =>
      var nc := n + 2;
      var nl := nc + LabelsB(c, lay, false);
      var nr := nl + LabelsE(l, lay);
      var t := TypeOf(e, lay);
      GenBranch(c, lay, nc, n, false)
      + ((GenExpr(l, lay, nl) + Convert(TypeOf(l, lay), t))
         + ([Jump(n + 1), Label(n)]
            + ((GenExpr(r, lay, nr) + Convert(TypeOf(r, lay), t)) + [Label(n + 1)])))
    case Comma(l, r) => GenExpr(l, lay, n) + GenExpr(r, lay, n + LabelsE(l, lay))
    case Negate(l) => GenExpr(l, lay, n) + [Neg(R0)]
    case BitNot(l) => GenExpr(l, lay, n) + [XorImm(R0, 0xFFFF_FFFF)]
    case Bin(op, _, _) =>
      GenOperands(e, lay, n)
      + [BinInstr(op, TypeOf(e, lay).uns)]
    case _ =>
      GenBranch(e, lay, n + 2, n, true)
      + [LoadImm(R0, 0), Jump(n + 1), Label(n), LoadImm(R0, 1), Label(n + 1)]
  }

  /** Code that goes to lab exactly when the truth of e is `when`. */
  function GenBranch(e: Expr, lay: Layout, n: nat, lab: nat, when: bool): Code
    requires WellFormed(e, lay)
    decreases e, Rank(e, true)
  {
    match e
    case Compare(rel, l, r) =>
      GenOperands(e, lay, n)
      + [Cmp(R0, R1), Branch(CmpBranch(rel, ArithConv(TypeOf(l, lay), TypeOf(r, lay)).uns, !when), lab)]
    case Not(l) => GenBranch(l, lay, n, lab, !when)
    case LogAnd(l, r) =>
      if when then
        GenBranch(l, lay, n + 1, n, false)
        + (GenBranch(r, lay, n + 1 + LabelsB(l, lay, false), lab, true) + [Label(n)])
      else
        GenBranch(l, lay, n, lab, false) + GenBranch(r, lay, n + LabelsB(l, lay, false), lab, false)
    case LogOr(l, r) =>
      if when then
        GenBranch(l, lay, n, lab, true) + GenBranch(r, lay, n + LabelsB(l, lay, true), lab, true)
      else
        GenBranch(l, lay, n + 1, n, true)
        + (GenBranch(r, lay, n + 1 + LabelsB(l, lay, true), lab, false) + [Label(n)])
    case _ => GenExpr(e, lay, n) + [Test(R0, R0), Branch(if when then Ne else Eq, lab)]
  }

  /** How many labels gen_expr and gen_branch take from the counter. */
  function LabelsE(e: Expr, lay: Layout): nat
    requires WellFormed(e, lay)
    decreases e, Rank(e, false)
  {
    match e
    case Num(_, _) => 0
    case Var(_) => 0
    case Cast(_, l) => LabelsE(l, lay)
    case Assign(_, r) => LabelsE(r, lay)
    case OpAssign(_, _, r) => LabelsE(r, lay)
    case IncDec(_, _, _, _) => 0
    case Ternary(c, l, r) => 2 + LabelsB(c, lay, false) + LabelsE(l, lay) + LabelsE(r, lay)
    case Comma(l, r) => LabelsE(l, lay) + LabelsE(r, lay)
    case Negate(l) => LabelsE(l, lay)
    case BitNot(l) => LabelsE(l, lay)
    case Bin(_, _, _) => LabelsO(e, lay)
    case _ => 2 + LabelsB(e, lay, true)
  }

  function LabelsB(e: Expr, lay: Layout, when: bool): nat
    requires WellFormed(e, lay)
    decreases e, Rank(e, true)
  {
    match e
    case Compare(_, _, _) => LabelsO(e, lay)
    case Not(l) => LabelsB(l, lay, !when)
    case LogAnd(l, r) => (if when then 1 else 0) + LabelsB(l, lay, false) + LabelsB(r, lay, when)
    case LogOr(l, r) => (if when then 0 else 1) + LabelsB(l, lay, true) + LabelsB(r, lay, when)
    case _ => LabelsE(e, lay)
  }

  function LabelsO(e: Expr, lay: Layout): nat
    requires WellFormed(e, lay) && TwoOperands(e)
    decreases e, 0
  {
    LabelsE(e.l, lay) + if SimpleRhs(e.r, lay) then 0 else LabelsE(e.r, lay)
  }

  /** Words of stack the code for e pushes at most. */
  function Need(e: Expr, lay: Layout): nat
    requires WellFormed(e, lay)
  {
    match e
    case Num(_, _) => 0
    case Var(_) => 0
    case Bin(_, l, r) => Max(Need(l, lay), if SimpleRhs(r, lay) then 0 else 1 + Need(r, lay))
    case Compare(_, l, r) => Max(Need(l, lay), if SimpleRhs(r, lay) then 0 else 1 + Need(r, lay))
    case LogAnd(l, r) => Max(Need(l, lay), Need(r, lay))
    case LogOr(l, r) => Max(Need(l, lay), Need(r, lay))
    case Not(l) => Need(l, lay)
    case BitNot(l) => Need(l, lay)
    case Negate(l) => Need(l, lay)
    case Cast(_, l) => Need(l, lay)
    case Assign(_, r) => Need(r, lay)
    case OpAssign(_, _, r) => 2 + Need(r, lay)
    case IncDec(_, _, post, _) => if post then 1 else 0
    case Ternary(c, l, r) => Max(Need(c, lay), Max(Need(l, lay), Need(r, lay)))
    case Comma(l, r) => Max(Need(l, lay), Need(r, lay))
  }

  function Max(a: nat, b: nat): nat {
    if a < b then b else a
  }

  /** The constant under a cast in a right operand has the same pattern with and without the cast. */
  predicate CastFits(e: Expr) {
    e.Cast? && e.l.Num? ==> Repr(e.ty.Wrap(e.l.val)) == e.l.val
  }

  /** No right operand of a binary operator or comparison is a constant changed by its cast. */
  predicate CastsFit(e: Expr) {
    match e
    case Num(_, _) => true
    case Var(_) => true
    case Bin(_, l, r) => CastsFit(l) && CastsFit(r) && CastFits(r)
    case Compare(_, l, r) => CastsFit(l) && CastsFit(r) && CastFits(r)
    case LogAnd(l, r) => CastsFit(l) && CastsFit(r)
    case LogOr(l, r) => CastsFit(l) && CastsFit(r)
    case Not(l) => CastsFit(l)
    case BitNot(l) => CastsFit(l)
    case Negate(l) => CastsFit(l)
    case Cast(_, l) => CastsFit(l)
    case Assign(_, r) => CastsFit(r)
    case OpAssign(_, _, r) => CastsFit(r)
    case IncDec(_, _, _, _) => true
    case Ternary(c, l, r) => CastsFit(c) && CastsFit(l) && CastsFit(r)
    case Comma(l, r) => CastsFit(l) && CastsFit(r)
  }

  /** && and || share one shape: stop is the truth of the left operand that decides the result. */
  lemma LogicalShape(e: Expr, lay: Layout, n: nat, lab: nat, when: bool)
    requires (e.LogAnd? || e.LogOr?) && WellFormed(e, lay)
    ensures WellFormed(e.l, lay) && WellFormed(e.r, lay)
    ensures
      var stop := e.LogOr?;
      var skip := when != stop;
      var nl, ll := if skip then n + 1 else n, if skip then n else lab;
      && GenBranch(e, lay, n, lab, when)
         == GenBranch(e.l, lay, nl, ll, stop)
            + (GenBranch(e.r, lay, nl + LabelsB(e.l, lay, stop), lab, when) + (if skip then [Label(n)] else []))
      && LabelsB(e, lay, when) == (if skip then 1 else 0) + LabelsB(e.l, lay, stop) + LabelsB(e.r, lay, when)
  {
    var stop := e.LogOr?;
    var skip := when != stop;
    var nl := if skip then n + 1 else n;
    var cr := GenBranch(e.r, lay, nl + LabelsB(e.l, lay, stop), lab, when);
    if !skip {
      assert cr + [] == cr;
    }
  }

  /** The code of a conditional, arm by arm. */
  lemma TernaryCode(e: Expr, lay: Layout, n: nat)
    requires e.Ternary? && WellFormed(e, lay)
    ensures WellFormed(e.c, lay) && WellFormed(e.l, lay) && WellFormed(e.r, lay)
    ensures LabelsE(e, lay) == 2 + LabelsB(e.c, lay, false) + LabelsE(e.l, lay) + LabelsE(e.r, lay)
    ensures var t, nl := TypeOf(e, lay), n + 2 + LabelsB(e.c, lay, false);
      GenExpr(e, lay, n)
      == GenBranch(e.c, lay, n + 2, n, false)
         + ((GenExpr(e.l, lay, nl) + Convert(TypeOf(e.l, lay), t))
            + ([Jump(n + 1), Label(n)]
               + ((GenExpr(e.r, lay, nl + LabelsE(e.l, lay)) + Convert(TypeOf(e.r, lay), t)) + [Label(n + 1)])))
  {
    hide TypeOf, Convert;
  }
}
