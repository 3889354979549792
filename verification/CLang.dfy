/** The integer part of the compiled language: types, expression trees over the local
    variables of one function, and their left-to-right meaning on mathematical integers. */
module CLang {
  import opened Wrappers
  import opened Words
  import opened Machine

  datatype Ty = CChar(uns: bool) | CShort(uns: bool) | CInt(uns: bool) {
    function Size(): nat {
      match this
      case CChar(_) => 1
      case CShort(_) => 2
      case CInt(_) => 4
    }

    /** Number of values of the type. */
    function Card(): nat {
      match this
      case CChar(_) => 0x100
      case CShort(_) => 0x1_0000
      case CInt(_) => WORD_MOD
    }

    predicate Has(v: int) {
      if uns then 0 <= v < Card() else -(Card() / 2) <= v < Card() / 2
    }

    /** Conversion of an integer to the type: the value congruent to it modulo Card. */
    function Wrap(v: int): (r: int)
      ensures Has(r)
    {
      var r := v % Card();
      if !uns && r >= Card() / 2 then r - Card() else r
    }
  }

  function Promote(t: Ty): Ty {
    if t.CInt? then t else CInt(false)
  }

  function ArithConv(a: Ty, b: Ty): Ty {
    CInt(Promote(a).uns || Promote(b).uns)
  }

  datatype BinOp = OAdd | OSub | OMul | ODiv | OMod | OAnd | OOr | OXor | OShl | OShr

  datatype Rel = REq | RNe | RLt | RLe | RGt | RGe

  /** Locals are named by their frame offset. */
  datatype Expr =
    | Num(val: Word, uns: bool)
    | Var(off: int)
    | Bin(op: BinOp, l: Expr, r: Expr)
    | Compare(rel: Rel, l: Expr, r: Expr)
    | LogAnd(l: Expr, r: Expr)
    | LogOr(l: Expr, r: Expr)
    | Not(l: Expr)
    | BitNot(l: Expr)
    | Negate(l: Expr)
    | Cast(ty: Ty, l: Expr)
    | Assign(off: int, r: Expr)
    | OpAssign(op: BinOp, off: int, r: Expr)
    | IncDec(off: int, dec: bool, post: bool, amount: Word)
    | Ternary(c: Expr, l: Expr, r: Expr)
    | Comma(l: Expr, r: Expr)

  type Layout = map<int, Ty>
  type Env = map<int, int>

  predicate WellFormed(e: Expr, lay: Layout) {
    match e
    case Num(_, _) => true
    case Var(off) => off in lay
    case Bin(_, l, r) => WellFormed(l, lay) && WellFormed(r, lay)
    case Compare(_, l, r) => WellFormed(l, lay) && WellFormed(r, lay)
    case LogAnd(l, r) => WellFormed(l, lay) && WellFormed(r, lay)
    case LogOr(l, r) => WellFormed(l, lay) && WellFormed(r, lay)
    case Not(l) => WellFormed(l, lay)
    case BitNot(l) => WellFormed(l, lay)
    case Negate(l) => WellFormed(l, lay)
    case Cast(_, l) => WellFormed(l, lay)
    case Assign(off, r) => off in lay && WellFormed(r, lay)
    case OpAssign(_, off, r) => off in lay && WellFormed(r, lay)
    case IncDec(off, _, _, _) => off in lay
    case Ternary(c, l, r) => WellFormed(c, lay) && WellFormed(l, lay) && WellFormed(r, lay)
    case Comma(l, r) => WellFormed(l, lay) && WellFormed(r, lay)
  }

  function BinType(op: BinOp, a: Ty, b: Ty): Ty {
    if op.OShl? || op.OShr? then Promote(a) else ArithConv(a, b)
  }

  function TypeOf(e: Expr, lay: Layout): Ty
    requires WellFormed(e, lay)
  {
    match e
    case Num(_, u) => CInt(u)
    case Var(off) => lay[off]
    case Bin(op, l, r) => BinType(op, TypeOf(l, lay), TypeOf(r, lay))
    case Compare(_, _, _) => CInt(false)
    case LogAnd(_, _) => CInt(false)
    case LogOr(_, _) => CInt(false)
    case Not(_) => CInt(false)
    case BitNot(l) => Promote(TypeOf(l, lay))
    case Negate(l) => Promote(TypeOf(l, lay))
    case Cast(t, _) => t
    case Assign(off, _) => lay[off]
    case OpAssign(_, off, _) => lay[off]
    case IncDec(off, _, _, _) => lay[off]
    case Ternary(_, l, r) => ArithConv(TypeOf(l, lay), TypeOf(r, lay))
    case Comma(_, r) => TypeOf(r, lay)
  }

  /** Every local holds a value of its type. */
  ghost predicate Typed(lay: Layout, env: Env) {
    env.Keys == lay.Keys && forall off :: off in lay ==> lay[off].Has(env[off])
  }

  /** a op b in type t; None when a division has no result.  Shift counts are taken modulo 32. */
  function Apply(op: BinOp, t: Ty, a: int, b: int): (r: Option<int>)
    requires t.CInt?
    ensures r.Some? ==> t.Has(r.value)
  {
    var x, y := t.Wrap(a), t.Wrap(b);
    match op
    case OAdd => Some(t.Wrap(x + y))
    case OSub => Some(t.Wrap(x - y))
    case OMul => Some(t.Wrap(x * y))
    case ODiv =>
      if y == 0 || !t.Has(TruncDiv(x, y)) then None else Some(TruncDiv(x, y))
    case OMod =>
      if y == 0 || !t.Has(TruncDiv(x, y)) then None else Some(t.Wrap(x - y * TruncDiv(x, y)))
    case OAnd => Some(t.Wrap(Bitwise(BitAnd, Repr(x), Repr(y))))
    case OOr => Some(t.Wrap(Bitwise(BitOr, Repr(x), Repr(y))))
    case OXor => Some(t.Wrap(Bitwise(BitXor, Repr(x), Repr(y))))
    case OShl => Some(t.Wrap(x * Pow2(b % 32)))
    case OShr => DivBounds(x, Pow2(b % 32)); Some(x / Pow2(b % 32))
  }

  predicate Related(rel: Rel, a: int, b: int) {
    match rel
    case REq => a == b
    case RNe => a != b
    case RLt => a < b
    case RLe => a <= b
    case RGt => a > b
    case RGe => a >= b
  }

  function Truth(b: bool): int {
    if b then 1 else 0
  }

  /** The value and the updated locals, or the trap raised by a division without result. */
  datatype Outcome = Val(v: int, env: Env) | DivTrap

  function Eval(e: Expr, lay: Layout, env: Env): (o: Outcome)
    requires WellFormed(e, lay) && env.Keys == lay.Keys
    ensures o.Val? ==> o.env.Keys == lay.Keys
    decreases e
  {
    match e
    case Num(w, u) => Val(if u then w else Signed(w), env)
    case Var(off) => Val(env[off], env)
    case Bin(op, l, r) =>
      (match Eval(l, lay, env)
       case DivTrap => DivTrap
       case Val(a, env1) =>
         match Eval(r, lay, env1)
         case DivTrap => DivTrap
         case Val(b, env2) =>
           match Apply(op, TypeOf(e, lay), a, b)
           case None => DivTrap
           case Some(v) => Val(v, env2))
    case Compare(rel, l, r) =>
      (match Eval(l, lay, env)
       case DivTrap => DivTrap
       case Val(a, env1) =>
         match Eval(r, lay, env1)
         case DivTrap => DivTrap
         case Val(b, env2) =>
           var t := ArithConv(TypeOf(l, lay), TypeOf(r, lay));
           Val(Truth(Related(rel, t.Wrap(a), t.Wrap(b))), env2))
    case LogAnd(l, r) =>
      (match Eval(l, lay, env)
       case DivTrap => DivTrap
       case Val(a, env1) =>
         if a == 0 then Val(0, env1)
         else
           match Eval(r, lay, env1)
           case DivTrap => DivTrap
           case Val(b, env2) => Val(Truth(b != 0), env2))
    case LogOr(l, r) =>
      (match Eval(l, lay, env)
       case DivTrap => DivTrap
       case Val(a, env1) =>
         if a != 0 then Val(1, env1)
         else
           match Eval(r, lay, env1)
           case DivTrap => DivTrap
           case Val(b, env2) => Val(Truth(b != 0), env2))
    case Not(l) =>
      (match Eval(l, lay, env)
       case DivTrap => DivTrap
       case Val(a, env1) => Val(Truth(a == 0), env1))
    case BitNot(l) =>
      (match Eval(l, lay, env)
       case DivTrap => DivTrap
       case Val(a, env1) => Val(TypeOf(e, lay).Wrap(-1 - a), env1))
    case Negate(l) =>
      (match Eval(l, lay, env)
       case DivTrap => DivTrap
       case Val(a, env1) => Val(TypeOf(e, lay).Wrap(-a), env1))
    case Cast(t, l) =>
      (match Eval(l, lay, env)
       case DivTrap => DivTrap
       case Val(a, env1) => Val(t.Wrap(a), env1))
    case Assign(off, r) =>
      (match Eval(r, lay, env)
       case DivTrap => DivTrap
       case Val(a, env1) => var v := lay[off].Wrap(a); Val(v, env1[off := v]))
    case OpAssign(op, off, r) =>
      (match Eval(r, lay, env)
       case DivTrap => DivTrap
       case Val(b, env1) =>
         // the old value is read before the right operand is evaluated
         match Apply(op, BinType(op, lay[off], TypeOf(r, lay)), env[off], b)
         case None => DivTrap
         case Some(x) => var v := lay[off].Wrap(x); Val(v, env1[off := v]))
    case IncDec(off, dec, post, k) =>
      var v := lay[off].Wrap(if dec then env[off] - k else env[off] + k);
      Val(if post then env[off] else v, env[off := v])
    case Ternary(c, l, r) =>
      (match Eval(c, lay, env)
       case DivTrap => DivTrap
       case Val(a, env1) =>
         match Eval(if a != 0 then l else r, lay, env1)
         case DivTrap => DivTrap
         case Val(b, env2) => Val(TypeOf(e, lay).Wrap(b), env2))
    case Comma(l, r) =>
      (match Eval(l, lay, env)
       case DivTrap => DivTrap
       case Val(_, env1) => Eval(r, lay, env1))
  }

  /** Evaluation keeps every local and the result inside its type. */
  lemma {:induction false} EvalTyped(e: Expr, lay: Layout, env: Env)
    requires WellFormed(e, lay) && Typed(lay, env)
    ensures var o := Eval(e, lay, env); o.Val? ==> TypeOf(e, lay).Has(o.v) && Typed(lay, o.env)
    decreases e, 1
  {
    hide Apply, Bitwise, Ty.Wrap;
    match e
    case Num(_, _) =>
    case Var(_) =>
    case Bin(_, l, r) => EvalTyped2(e, l, r, lay, env);
    case Compare(_, l, r) => EvalTyped2(e, l, r, lay, env);
    case LogAnd(l, r) => EvalTyped2(e, l, r, lay, env);
    case LogOr(l, r) => EvalTyped2(e, l, r, lay, env);
    case Not(l) => EvalTyped(l, lay, env);
    case BitNot(l) => EvalTyped(l, lay, env);
    case Negate(l) => EvalTyped(l, lay, env);
    case Cast(_, l) => EvalTyped(l, lay, env);
    case Assign(_, _) => StoreTyped(e, lay, env);
    case OpAssign(_, _, _) => StoreTyped(e, lay, env);
    case IncDec(_, _, _, _) => StoreTyped(e, lay, env);
    case Ternary(c, l, r) =>
      EvalTyped2(e, c, l, lay, env);
      EvalTyped2(e, c, r, lay, env);
    case Comma(l, r) => EvalTyped2(e, l, r, lay, env);
  }

  lemma {:induction false} StoreTyped(e: Expr, lay: Layout, env: Env)
    requires WellFormed(e, lay) && Typed(lay, env) && (e.Assign? || e.OpAssign? || e.IncDec?)
    ensures var o := Eval(e, lay, env); o.Val? ==> TypeOf(e, lay).Has(o.v) && Typed(lay, o.env)
    decreases e, 0
  {
    hide Apply, Bitwise, Ty.Wrap;
    if !e.IncDec? {
      EvalTyped(e.r, lay, env);
    }
  }

  lemma {:induction false} EvalTyped2(e: Expr, l: Expr, r: Expr, lay: Layout, env: Env)
    requires l < e && r < e
    requires WellFormed(l, lay) && WellFormed(r, lay) && Typed(lay, env)
    ensures var o := Eval(l, lay, env);
      o.Val? ==>
        && TypeOf(l, lay).Has(o.v) && Typed(lay, o.env)
        && var o' := Eval(r, lay, o.env);
           o'.Val? ==> TypeOf(r, lay).Has(o'.v) && Typed(lay, o'.env)
    decreases e, 0
  {
    EvalTyped(l, lay, env);
    var o := Eval(l, lay, env);
    if o.Val? {
      EvalTyped(r, lay, o.env);
    }
  }
}
