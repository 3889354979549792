/** 32-bit words as the machine and the compiler see them: bit patterns are naturals below
    2^32, C values are integers, and the two are related by reduction modulo 2^32. */
module Words {

  const WORD_MOD := 0x1_0000_0000
  const SIGN_BIT := 0x8000_0000
  const WORD_BITS: nat := 32

  type Word = x: int | 0 <= x < WORD_MOD
  type Byte = x: int | 0 <= x < 256

  /** The bit pattern of an integer. */
  function Repr(v: int): Word {
    v % WORD_MOD
  }

  /** The two's complement reading of a pattern. */
  function Signed(w: Word): int {
    if w < SIGN_BIT then w else w - WORD_MOD
  }

  predicate Negative(w: Word) {
    w >= SIGN_BIT
  }

  function Pow2(n: nat): (p: nat)
    ensures p >= 1
  {
    if n == 0 then 1 else 2 * Pow2(n - 1)
  }

  datatype BitOp = BitAnd | BitOr | BitXor

  function Bit(op: BitOp, a: nat, b: nat): (r: nat)
    ensures r <= 1
  {
    var x, y := a % 2, b % 2;
    match op
    case BitAnd => if x == 1 && y == 1 then 1 else 0
    case BitOr => if x == 1 || y == 1 then 1 else 0
    case BitXor => if x != y then 1 else 0
  }

  /** Bitwise operator on the low n bits. */
  function Bits(op: BitOp, a: nat, b: nat, n: nat): (r: nat)
    ensures r < Pow2(n)
  {
    if n == 0 then 0 else 2 * Bits(op, a / 2, b / 2, n - 1) + Bit(op, a, b)
  }

  function Bitwise(op: BitOp, a: Word, b: Word): Word {
    Pow2Of32();
    Bits(op, a, b, WORD_BITS)
  }

  lemma Pow2Of32()
    ensures Pow2(32) == WORD_MOD
    ensures Pow2(8) == 256 && Pow2(16) == 0x1_0000 && Pow2(24) == 0x100_0000
  {
    assert Pow2(4) == 16;
    assert Pow2(8) == 256;
    assert Pow2(12) == 0x1000;
    assert Pow2(16) == 0x1_0000;
    assert Pow2(20) == 0x10_0000;
    assert Pow2(24) == 0x100_0000;
    assert Pow2(28) == 0x1000_0000;
  }

  lemma OnesHalf(k: nat)
    requires k > 0
    ensures (Pow2(k) - 1) / 2 == Pow2(k - 1) - 1 && (Pow2(k) - 1) % 2 == 1
  {
  }

  lemma MaskNone(a: nat, n: nat)
    ensures Bits(BitAnd, a, Pow2(0) - 1, n) == a % Pow2(0)
  {
    hide Bits;
    AndZero(a, n);
  }

  /** Masking with 2^k - 1 keeps the low k bits. */
  lemma {:induction false} MaskLow(a: nat, k: nat, n: nat)
    requires k <= n
    ensures Bits(BitAnd, a, Pow2(k) - 1, n) == a % Pow2(k)
  {
    hide Bits, Pow2;
    if k == 0 {
      MaskNone(a, n);
    } else {
      MaskStep(a, k, n);
      MaskLow(a / 2, k - 1, n - 1);
      ModPow2(a, k);
    }
  }

  lemma ModPow2(a: nat, k: nat)
    requires k > 0
    ensures a % Pow2(k) == 2 * ((a / 2) % Pow2(k - 1)) + a % 2
  {
    HalfMod(a, Pow2(k - 1));
  }

  lemma MaskStep(a: nat, k: nat, n: nat)
    requires 0 < k <= n
    ensures Bits(BitAnd, a, Pow2(k) - 1, n) == 2 * Bits(BitAnd, a / 2, Pow2(k - 1) - 1, n - 1) + a % 2
  {
    OnesHalf(k);
  }

  lemma {:induction false} AndSelf(a: nat, n: nat)
    requires a < Pow2(n)
    ensures Bits(BitAnd, a, a, n) == a
  {
    if n == 0 {
    } else {
      AndSelf(a / 2, n - 1);
    }
  }

  lemma {:induction false} AndZero(a: nat, n: nat)
    ensures Bits(BitAnd, a, 0, n) == 0
  {
    if n == 0 {
    } else {
      AndZero(a / 2, n - 1);
    }
  }

  /** a % 2p splits into the parity of a and the rest. */
  lemma HalfMod(a: nat, p: nat)
    requires p >= 1
    ensures a % (2 * p) == 2 * ((a / 2) % p) + a % 2
  {
    ModSplit(a, 2, p);
  }

  /** Reduction modulo k * p digit by digit in base k. */
  lemma ModSplit(a: nat, k: nat, p: nat)
    requires p >= 1 && k >= 1
    ensures k * p >= 1 && a % (k * p) == k * ((a / k) % p) + a % k
  {
    var q, r, s := (a / k) / p, (a / k) % p, a % k;
    DivMod(a, k);
    DivMod(a / k, p);
    SplitSum(a, k, p, q, r, s);
    SplitBound(k, p, r, s);
    ModUnique(a, k * p, q, k * r + s);
  }

  lemma SplitSum(a: int, k: int, p: int, q: int, r: int, s: int)
    requires a == (q * p + r) * k + s
    ensures a == q * (k * p) + (k * r + s)
  {
    assert (q * p + r) * k == (q * p) * k + r * k;
    assert (q * p) * k == q * (k * p);
    assert r * k == k * r;
  }

  lemma SplitBound(k: int, p: int, r: int, s: int)
    requires k >= 1 && p >= 1 && 0 <= r < p && 0 <= s < k
    ensures k * p >= 1 && 0 <= k * r + s < k * p
  {
    MulGrows(k, p);
    assert k * (p - 1 - r) >= 0;
    assert k * (p - 1 - r) == k * p - k - k * r;
  }

  lemma MulBound(d: int, m: int)
    requires m > 0
    ensures d >= 1 ==> d * m >= m
    ensures d <= -1 ==> d * m <= -m
  {
  }

  lemma ModUnique(a: int, m: int, q: int, r: int)
    requires m > 0 && 0 <= r < m && a == q * m + r
    ensures a % m == r && a / m == q
  {
    var q', r' := a / m, a % m;
    assert a == q' * m + r';
    assert (q - q') * m == q * m - q' * m;
    MulBound(q - q', m);
  }

  lemma DivMod(a: int, b: int)
    requires b > 0
    ensures a == (a / b) * b + a % b && 0 <= a % b < b
  {
  }

  lemma MulGrows(q: int, b: int)
    requires q >= 0 && b >= 1
    ensures q * b >= q
  {
  }

  /** Floor division by a positive number moves a value towards zero or keeps it. */
  lemma DivBounds(a: int, b: int)
    requires b > 0
    ensures a >= 0 ==> 0 <= a / b <= a
    ensures a < 0 ==> a <= a / b < 0
  {
    DivMod(a, b);
    var q := a / b;
    MulBound(q, b);
    if q >= 0 {
      MulGrows(q, b);
    } else {
      MulGrows(-q - 1, b);
      assert (-q - 1) * b == -(q * b) - b;
    }
  }

  lemma Pow2Plus8(k: nat)
    ensures Pow2(k + 8) == 256 * Pow2(k)
  {
    assert Pow2(k + 2) == 2 * Pow2(k + 1) == 4 * Pow2(k);
    assert Pow2(k + 4) == 2 * Pow2(k + 3) == 4 * Pow2(k + 2);
    assert Pow2(k + 6) == 2 * Pow2(k + 5) == 4 * Pow2(k + 4);
    assert Pow2(k + 8) == 2 * Pow2(k + 7) == 4 * Pow2(k + 6);
  }

  /** Exclusive or with all ones is the one's complement. */
  lemma {:induction false} XorOnes(a: nat, n: nat)
    requires a < Pow2(n)
    ensures Bits(BitXor, a, Pow2(n) - 1, n) == Pow2(n) - 1 - a
  {
    if n == 0 {
    } else {
      OnesHalf(n);
      XorOnes(a / 2, n - 1);
    }
  }

  // Reduction modulo 2^32 commutes with the ring operations.

  lemma ModShift(a: int, k: int, m: int)
    requires m > 0
    ensures (a + k * m) % m == a % m
  {
    ModUnique(a + k * m, m, a / m + k, a % m) by {
      assert a == (a / m) * m + a % m;
      assert (a / m + k) * m == (a / m) * m + k * m;
    }
  }

  lemma ReprAdd(a: int, b: int)
    ensures Repr(Repr(a) + Repr(b)) == Repr(a + b)
    ensures Repr(Repr(a) - Repr(b)) == Repr(a - b)
  {
    var qa, qb := a / WORD_MOD, b / WORD_MOD;
    assert a == qa * WORD_MOD + Repr(a);
    assert b == qb * WORD_MOD + Repr(b);
    ModShift(Repr(a) + Repr(b), qa + qb, WORD_MOD);
    ModShift(Repr(a) - Repr(b), qa - qb, WORD_MOD);
  }

  lemma ReprMulLeft(a: int, b: int)
    ensures Repr(Repr(a) * b) == Repr(a * b)
  {
    var q := a / WORD_MOD;
    assert a == q * WORD_MOD + Repr(a);
    assert a * b == Repr(a) * b + (q * b) * WORD_MOD by {
      MulExpand(q, Repr(a), b);
    }
    ModShift(Repr(a) * b, q * b, WORD_MOD);
  }

  lemma MulExpand(q: int, r: int, b: int)
    ensures (q * WORD_MOD + r) * b == r * b + (q * b) * WORD_MOD
  {
    assert (q * WORD_MOD + r) * b == (q * WORD_MOD) * b + r * b;
    assert (q * WORD_MOD) * b == (q * b) * WORD_MOD;
  }

  lemma ReprMul(a: int, b: int)
    ensures Repr(Repr(a) * Repr(b)) == Repr(a * b)
  {
    ReprMulLeft(a, Repr(b));
    assert Repr(a * Repr(b)) == Repr(Repr(b) * a) by { assert a * Repr(b) == Repr(b) * a; }
    ReprMulLeft(b, a);
    assert b * a == a * b;
  }

  lemma WordRepr(w: Word)
    ensures Repr(w) == w
  {
  }

  lemma ReprSigned(w: Word)
    ensures Repr(Signed(w)) == w
  {
  }
}
