/** Each machine operation the compiler picks computes the C operation on bit patterns. */
module Values {
  import opened Wrappers
  import opened Words
  import opened Machine
  import opened CLang
  import opened CodeGen

  lemma WrapRepr(t: Ty, v: int)
    requires t.CInt?
    ensures Repr(t.Wrap(v)) == Repr(v)
  {
  }

  lemma WrapId(t: Ty, v: int)
    requires t.Has(v)
    ensures t.Wrap(v) == v
  {
  }

  lemma ReprZero(t: Ty, v: int)
    requires t.Has(v)
    ensures Repr(v) == 0 <==> v == 0
  {
  }

  lemma ReprOfWrapped(t: Ty, v: int)
    requires t.CInt? && t.Has(v)
    ensures if t.uns then Repr(v) == v else Signed(Repr(v)) == v
  {
  }

  lemma Mod32(b: int)
    ensures Repr(b) % 32 == b % 32
  {
    var q := b / WORD_MOD;
    assert b == q * WORD_MOD + Repr(b);
    assert b == Repr(b) + (q * 0x800_0000) * 32;
    ModShift(Repr(b), q * 0x800_0000, 32);
  }

  lemma MulRepr(t: Ty, x: int, y: int)
    requires t.CInt? && t.Has(x) && t.Has(y)
    ensures Repr(Signed(Repr(x)) * Signed(Repr(y))) == Repr(x * y)
  {
    var sx, sy := Signed(Repr(x)), Signed(Repr(y));
    ReprSigned(Repr(x));
    ReprSigned(Repr(y));
    ReprMul(sx, sy);
    ReprMul(x, y);
  }

  lemma TruncDivBounds(x: int, y: int)
    requires y != 0
    ensures Abs(TruncDiv(x, y)) <= Abs(x)
    ensures x >= 0 && y > 0 ==> TruncDiv(x, y) == x / y
    ensures y == 1 ==> TruncDiv(x, y) == x
    ensures y == -1 ==> TruncDiv(x, y) == -x
    ensures Abs(y) >= 2 && x != 0 ==> Abs(TruncDiv(x, y)) < Abs(x)
  {
    DivBounds(Abs(x), Abs(y));
    if Abs(y) >= 2 && x != 0 {
      QuotientShrinks(Abs(x), Abs(y));
    }
  }

  lemma QuotientShrinks(a: nat, b: nat)
    requires a >= 1 && b >= 2
    ensures a / b < a
  {
    DivMod(a, b);
    DivBounds(a, b);
    MulGrows(a / b, b - 1);
    assert (a / b) * (b - 1) == (a / b) * b - a / b;
  }

  /** Division overflows only for the most negative number divided by minus one. */
  lemma DivOverflow(t: Ty, x: int, y: int)
    requires t.CInt? && t.Has(x) && t.Has(y) && y != 0
    ensures !t.Has(TruncDiv(x, y)) <==> !t.uns && x == -SIGN_BIT && y == -1
  {
    TruncDivBounds(x, y);
    if x == 0 {
      assert TruncDiv(x, y) == 0;
    }
    if t.uns {
      DivBounds(x, y);
    }
  }

  lemma UDivRepr(op: BinOp, x: int, y: int, f: Flags)
    requires op.ODiv? || op.OMod?
    requires 0 <= x < WORD_MOD && 0 < y < WORD_MOD
    ensures
      var o := AluResult(BinInstr(op, true).op, x, y, f);
      o.AluOut? && o.r == if op.ODiv? then TruncDiv(x, y) else x - y * TruncDiv(x, y)
  {
    TruncDivBounds(x, y);
    DivMod(x, y);
    assert y * (x / y) == (x / y) * y;
  }

  lemma UDivInRange(x: int, y: int)
    requires 0 <= x < WORD_MOD && 0 < y < WORD_MOD
    ensures 0 <= TruncDiv(x, y) <= x && 0 <= x - y * TruncDiv(x, y) < WORD_MOD
  {
    TruncDivBounds(x, y);
    DivMod(x, y);
    DivBounds(x, y);
    assert y * (x / y) == (x / y) * y;
  }

  lemma Extremes(x: int, y: int)
    requires -SIGN_BIT <= x < SIGN_BIT && -SIGN_BIT <= y < SIGN_BIT
    ensures Repr(x) == SIGN_BIT <==> x == -SIGN_BIT
    ensures Repr(y) == WORD_MOD - 1 <==> y == -1
  {
  }

  lemma DivRepr(op: BinOp, t: Ty, x: int, y: int, f: Flags)
    requires op.ODiv? || op.OMod?
    requires t.CInt? && t.Has(x) && t.Has(y)
    ensures
      var o := AluResult(BinInstr(op, t.uns).op, Repr(x), Repr(y), f);
      if y == 0 || !t.Has(TruncDiv(x, y)) then o == DivError
      else o.AluOut? && o.r == Repr(if op.ODiv? then TruncDiv(x, y) else x - y * TruncDiv(x, y))
  {
    hide Repr, TruncDiv, Nzcv;
    ReprOfWrapped(t, x);
    ReprOfWrapped(t, y);
    ReprZero(t, y);
    if y != 0 {
      DivOverflow(t, x, y);
      if t.uns {
        UDivRepr(op, x, y, f);
        UDivInRange(x, y);
        WordRepr(TruncDiv(x, y));
        WordRepr(x - y * TruncDiv(x, y));
      } else {
        Extremes(x, y);
      }
    }
  }

  lemma ShiftRepr(op: BinOp, t: Ty, x: int, b: int, f: Flags)
    requires op.OShl? || op.OShr?
    requires t.CInt? && t.Has(x)
    ensures
      var o := AluResult(BinInstr(op, t.uns).op, Repr(x), Repr(b), f);
      o.AluOut? && o.r == Repr(if op.OShl? then x * Pow2(b % 32) else x / Pow2(b % 32))
  {
    hide Nzcv, Bitwise, Pow2;
    Mod32(b);
    ReprOfWrapped(t, x);
    if op.OShl? {
      ReprMulLeft(x, Pow2(b % 32));
    } else {
      PowPositive(b % 32);
      DivBounds(x, Pow2(b % 32));
    }
  }

  lemma PowPositive(k: nat)
    ensures Pow2(k) > 0
  {
  }

  /** The instruction chosen for op computes Apply, and traps exactly when Apply has no result. */
  ghost predicate Computes(op: BinOp, t: Ty, a: int, b: int, f: Flags)
    requires t.CInt?
  {
    var o := AluResult(BinInstr(op, t.uns).op, Repr(a), Repr(b), f);
    match Apply(op, t, a, b)
    case None => o == DivError
    case Some(v) => o.AluOut? && o.r == Repr(v)
  }

  lemma ApplyRepr(op: BinOp, t: Ty, a: int, b: int, f: Flags)
    requires t.CInt?
    ensures Computes(op, t, a, b, f)
  {
    match op
    case OAdd => AddRepr(op, t, a, b, f);
    case OSub => AddRepr(op, t, a, b, f);
    case OMul => ProductRepr(t, a, b, f);
    case ODiv => QuotientRepr(op, t, a, b, f);
    case OMod => QuotientRepr(op, t, a, b, f);
    case OAnd => BitwiseRepr(op, t, a, b, f);
    case OOr => BitwiseRepr(op, t, a, b, f);
    case OXor => BitwiseRepr(op, t, a, b, f);
    case OShl => ShiftedRepr(op, t, a, b, f);
    case OShr => ShiftedRepr(op, t, a, b, f);
  }

  lemma AddRepr(op: BinOp, t: Ty, a: int, b: int, f: Flags)
    requires t.CInt? && (op.OAdd? || op.OSub?)
    ensures Computes(op, t, a, b, f)
  {
    hide Repr, Ty.Wrap, Nzcv;
    var x, y := t.Wrap(a), t.Wrap(b);
    WrapRepr(t, a);
    WrapRepr(t, b);
    ReprAdd(x, y);
    WrapRepr(t, x + y);
    WrapRepr(t, x - y);
  }

  lemma ProductRepr(t: Ty, a: int, b: int, f: Flags)
    requires t.CInt?
    ensures Computes(OMul, t, a, b, f)
  {
    hide Repr, Ty.Wrap, Nzcv, Signed;
    var x, y := t.Wrap(a), t.Wrap(b);
    WrapRepr(t, a);
    WrapRepr(t, b);
    MulRepr(t, x, y);
    WrapRepr(t, x * y);
  }

  lemma QuotientRepr(op: BinOp, t: Ty, a: int, b: int, f: Flags)
    requires t.CInt? && (op.ODiv? || op.OMod?)
    ensures Computes(op, t, a, b, f)
  {
    var x, y := t.Wrap(a), t.Wrap(b);
    WrapRepr(t, a);
    WrapRepr(t, b);
    DivRepr(op, t, x, y, f);
    if y != 0 {
      WrapRepr(t, x - y * TruncDiv(x, y));
    }
  }

  lemma BitwiseRepr(op: BinOp, t: Ty, a: int, b: int, f: Flags)
    requires t.CInt? && (op.OAnd? || op.OOr? || op.OXor?)
    ensures Computes(op, t, a, b, f)
  {
    hide Bits, ShiftLeft, ShiftRight, ShiftArith, TruncDiv, Pow2;
    WrapRepr(t, a);
    WrapRepr(t, b);
    var bit := if op.OAnd? then BitAnd else if op.OOr? then BitOr else BitXor;
    var w := Bitwise(bit, Repr(a), Repr(b));
    assert AluResult(BinInstr(op, t.uns).op, Repr(a), Repr(b), f) == AluOut(w, f);
    assert Apply(op, t, a, b) == Some(t.Wrap(w));
    WrapRepr(t, w);
  }

  lemma ShiftedRepr(op: BinOp, t: Ty, a: int, b: int, f: Flags)
    requires t.CInt? && (op.OShl? || op.OShr?)
    ensures Computes(op, t, a, b, f)
  {
    var x := t.Wrap(a);
    WrapRepr(t, a);
    ShiftRepr(op, t, x, b, f);
    WrapRepr(t, x * Pow2(b % 32));
  }

  /** cmp_branch: after CMP32 the chosen condition is the C comparison, negated on request. */
  lemma CompareRepr(rel: Rel, t: Ty, a: int, b: int, neg: bool)
    requires t.CInt?
    ensures Holds(CmpBranch(rel, t.uns, neg), SubFlags(Repr(a), Repr(b)).1)
            <==> Related(rel, t.Wrap(a), t.Wrap(b)) != neg
  {
    var x, y := t.Wrap(a), t.Wrap(b);
    WrapRepr(t, a);
    WrapRepr(t, b);
    ReprOfWrapped(t, x);
    ReprOfWrapped(t, y);
    SubtractFlags(Repr(x), Repr(y));
  }

  /** What the flags of a subtraction say about its operands, read unsigned and signed. */
  lemma SubtractFlags(p: Word, q: Word)
    ensures var f := SubFlags(p, q).1;
      && (f.z <==> p == q)
      && (f.c <==> p < q)
      && (f.s != f.v <==> Signed(p) < Signed(q))
  {
  }

  lemma ModOfMod(t: Ty, v: int)
    ensures Repr(v) % t.Card() == v % t.Card()
  {
    var q := v / WORD_MOD;
    assert v == q * WORD_MOD + Repr(v);
    match t
    case CChar(_) => ModShift(Repr(v), q * 0x100_0000, 0x100);
    case CShort(_) => ModShift(Repr(v), q * 0x1_0000, 0x1_0000);
    case CInt(_) =>
  }

  lemma CardIsPow2(t: Ty)
    ensures t.Card() == Pow2(8 * t.Size())
  {
    Pow2Of32();
  }

  /** Loading the bytes of a typed local gives its pattern. */
  lemma LoadRepr(t: Ty, v: int, w: nat)
    requires t.Has(v) && w == v % Pow2(8 * t.Size())
    ensures w < Pow2(8 * WidthOf(t).Size())
    ensures Extend(WidthOf(t), !t.uns && !t.CInt?, w) == Repr(v)
  {
    hide Pow2, Bits;
    CardIsPow2(t);
    if t.uns || t.CInt? {
      assert w == Repr(v);
    } else {
      assert w == if v < 0 then v + t.Card() else v;
    }
  }

  /** Masking or shifting up and back down is conversion to a narrower type. */
  lemma MaskTo(t: Ty, v: int)
    requires !t.CInt?
    ensures Bitwise(BitAnd, Repr(v), t.Card() - 1) == v % t.Card()
  {
    Pow2Of32();
    MaskLow(Repr(v), 8 * t.Size(), WORD_BITS);
    CardIsPow2(t);
    ModOfMod(t, v);
  }

  lemma ShiftUpDown(v: int, k: nat, half: nat)
    requires (k == 24 && half == 0x80) || (k == 16 && half == 0x8000)
    ensures
      var r := v % (2 * half);
      ShiftArith(ShiftLeft(Repr(v), k), k) == Repr(if r >= half then r - 2 * half else r)
  {
    hide Repr, Pow2;
    var r, p := v % (2 * half), Pow2(k);
    var s := if r >= half then r - 2 * half else r;
    ShiftedUp(v, k, half, r);
    assert (s * p) / p == s by { ModUnique(s * p, p, s, 0); }
  }

  /** What is left of v after shifting it up, read as a signed number. */
  lemma ShiftedUp(v: int, k: nat, half: nat, r: nat)
    requires ((k == 24 && half == 0x80) || (k == 16 && half == 0x8000)) && r == v % (2 * half)
    ensures Signed(ShiftLeft(Repr(v), k)) == (if r >= half then r - 2 * half else r) * Pow2(k)
  {
    hide Pow2;
    Pow2Of32();
    var q := v / (2 * half);
    assert v * Pow2(k) == r * Pow2(k) + q * WORD_MOD;
    ReprMulLeft(v, Pow2(k));
    ModShift(r * Pow2(k), q, WORD_MOD);
  }

  /** Where Convert emits nothing the pattern is already right. */
  lemma ConvertNothing(from: Ty, to: Ty, v: int)
    requires from.Has(v) && Convert(from, to) == []
    ensures Repr(to.Wrap(v)) == Repr(v)
  {
    if to.CInt? {
      WrapRepr(to, v);
    } else {
      WrapId(to, v);
    }
  }

  /** Where it emits code, the code computes the conversion. */
  lemma ConvertMask(to: Ty, v: int)
    requires !to.CInt? && to.uns
    ensures Bitwise(BitAnd, Repr(v), to.Card() - 1) == Repr(to.Wrap(v))
  {
    MaskTo(to, v);
    var r := v % to.Card();
    assert 0 <= r < WORD_MOD;
    assert to.Wrap(v) == r;
  }

  lemma ConvertShift(to: Ty, v: int)
    requires !to.CInt? && !to.uns
    ensures var k := if to.CChar? then 24 else 16;
      ShiftArith(ShiftLeft(Repr(v), k), k) == Repr(to.Wrap(v))
  {
    if to.CChar? {
      ShiftUpDown(v, 24, 0x80);
    } else {
      ShiftUpDown(v, 16, 0x8000);
    }
  }

  /** XOR with all ones and NEG are the C complement and negation. */
  lemma ComplementRepr(v: int)
    ensures Bitwise(BitXor, Repr(v), 0xFFFF_FFFF) == Repr(-1 - v)
    ensures SubFlags(0, Repr(v)).0 == Repr(-v)
  {
    hide Bitwise, SubFlags, Repr;
    ComplementXor(v);
    NegateSub(v);
  }

  lemma ComplementXor(v: int)
    ensures Bitwise(BitXor, Repr(v), 0xFFFF_FFFF) == Repr(-1 - v)
  {
    hide Pow2, Bits;
    Pow2Of32();
    XorOnes(Repr(v), 32);
    ReprAdd(-1, v);
  }

  lemma NegateSub(v: int)
    ensures SubFlags(0, Repr(v)).0 == Repr(-v)
  {
    ReprAdd(0, v);
  }

  /** gen_r1 loads the value of its operand exactly when the dropped cast does not change it. */
  lemma R1Exact(e: Expr, lay: Layout, env: Env)
    requires WellFormed(e, lay) && Typed(lay, env) && e.Cast? && e.l.Num?
    ensures Eval(e, lay, env).Val?
    ensures GenR1(e, lay) == LoadImm(R1, Repr(Eval(e, lay, env).v)) <==> CastFits(e)
  {
    var k := e.l;
    var c := if k.uns then k.val else Signed(k.val);
    assert Repr(c) == k.val;
    ModOfMod(e.ty, c);
  }
}
