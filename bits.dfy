/** C's bitwise operators on non-negative integers, defined bit by bit from
    the lowest bit, and the facts about them the instruction rules use. */
module Bits {

  function Pow2(k: nat): (p: nat)
    ensures p >= 1
  {
    if k == 0 then 1 else 2 * Pow2(k - 1)
  }

  lemma Pow2Values()
    ensures Pow2(4) == 0x10 && Pow2(7) == 0x80 && Pow2(8) == 0x100 && Pow2(16) == 0x1_0000
  {
  }

  datatype Logic = And | Or | Xor

  /** The value one bit of the result takes from the two operand bits. */
  function BitOf(op: Logic, p: bool, q: bool): (b: bool) {
    match op
    case And => p && q
    case Or => p || q
    case Xor => p != q
  }

  /** `x op y`: 0 for two zero operands, otherwise built from the lowest
      bits and the rest. All three operators map 0, 0 to 0. */
  function BitOp(op: Logic, x: nat, y: nat): (r: nat)
    decreases x + y, 1
  {
    if x == 0 && y == 0 then 0 else Shifted(op, x, y)
  }

  /** The result for operands not both zero: the operator on the rest,
      shifted up one bit, plus the bit it puts at position 0. */
  function Shifted(op: Logic, x: nat, y: nat): (r: nat)
    requires !(x == 0 && y == 0)
    decreases x + y, 0
  {
    2 * BitOp(op, x / 2, y / 2) + LowBit(op, x, y)
  }

  lemma MulAtLeast(e: nat, d: nat)
    requires e >= 1
    ensures e * d >= d
  {
    assert e * d == (e - 1) * d + d;
  }

  /** Division with remainder is unique. */
  lemma DivMod(n: nat, d: nat, q: nat, m: nat)
    requires 0 <= m < d && n == q * d + m
    ensures n % d == m && n / d == q
  {
    var q2, m2 := n / d, n % d;
    assert n == q2 * d + m2;
    if q2 > q {
      MulAtLeast(q2 - q, d);
      assert false;
    } else if q2 < q {
      MulAtLeast(q - q2, d);
      assert false;
    }
  }

  /** Splitting off the lowest bit commutes with reduction mod 2^j. */
  lemma ModTwice(n: nat, r: nat, b: nat, p: nat, m: nat)
    requires b < 2 && p >= 1 && n == 2 * r + b && m == 2 * p
    ensures n % m == 2 * (r % p) + b
  {
    DivMod(n, m, r / p, 2 * (r % p) + b);
  }

  /** The low bit and the rest of `y` mod 2^j. */
  lemma LowBits(y: nat, j: nat)
    requires j >= 1
    ensures (y % Pow2(j)) % 2 == y % 2 && (y % Pow2(j)) / 2 == (y / 2) % Pow2(j - 1)
  {
    var p := Pow2(j - 1);
    ModTwice(y, y / 2, y % 2, p, Pow2(j));
    DivMod(y % Pow2(j), 2, (y / 2) % p, y % 2);
  }

  /** The bit the operator puts at position 0. */
  function LowBit(op: Logic, x: nat, y: nat): (b: nat) {
    if BitOf(op, x % 2 == 1, y % 2 == 1) then 1 else 0
  }

  /** One step of the definition, which also holds when both operands are 0. */
  lemma Unfold(op: Logic, x: nat, y: nat)
    ensures BitOp(op, x, y) == 2 * BitOp(op, x / 2, y / 2) + LowBit(op, x, y)
  {
  }

  /** The low `j` bits of the result come from the low `j` bits of the
      operands alone. */
  lemma {:induction false} LowBitsOnly(op: Logic, x: nat, y: nat, j: nat)
    ensures BitOp(op, x, y) % Pow2(j) == BitOp(op, x % Pow2(j), y % Pow2(j))
    decreases j
  {
    if j > 0 {
      LowBitsOnly(op, x / 2, y / 2, j - 1);
      LowBitsStep(op, x, y, j);
    }
  }

  /** The step of LowBitsOnly: bits 1 .. j-1 come from the halved operands
      and bit 0 from the operands' own lowest bits. */
  lemma LowBitsStep(op: Logic, x: nat, y: nat, j: nat)
    requires j >= 1
    requires BitOp(op, x / 2, y / 2) % Pow2(j - 1) ==
             BitOp(op, (x / 2) % Pow2(j - 1), (y / 2) % Pow2(j - 1))
    ensures BitOp(op, x, y) % Pow2(j) == BitOp(op, x % Pow2(j), y % Pow2(j))
  {
    var xl, yl := x % Pow2(j), y % Pow2(j);
    var p, b := Pow2(j - 1), LowBit(op, x, y);
    LowBits(x, j);
    LowBits(y, j);
    var rl := BitOp(op, xl / 2, yl / 2);
    assert BitOp(op, x / 2, y / 2) % p == rl;
    assert LowBit(op, xl, yl) == b;
    Unfold(op, x, y);
    Unfold(op, xl, yl);
    ModTwice(BitOp(op, x, y), BitOp(op, x / 2, y / 2), b, p, Pow2(j));
  }

  /** Operands below 2^j give a result below 2^j; for AND one operand
      suffices. */
  lemma {:induction false} Narrow(op: Logic, x: nat, y: nat, j: nat)
    requires x < Pow2(j) && (op == And || y < Pow2(j))
    ensures BitOp(op, x, y) < Pow2(j)
    decreases x + y
  {
    if !(x == 0 && y == 0) {
      if j == 0 {
        Narrow(op, x / 2, y / 2, 0);
      } else {
        Narrow(op, x / 2, y / 2, j - 1);
      }
    }
  }

  /** OR is zero exactly when both operands are. */
  lemma {:induction false} OrZero(x: nat, y: nat)
    ensures BitOp(Or, x, y) == 0 <==> x == 0 && y == 0
    decreases x + y
  {
    if !(x == 0 && y == 0) {
      OrZero(x / 2, y / 2);
    }
  }

  /** XOR is zero exactly when the operands are equal. */
  lemma {:induction false} XorZero(x: nat, y: nat)
    ensures BitOp(Xor, x, y) == 0 <==> x == y
    decreases x + y
  {
    if !(x == 0 && y == 0) {
      XorZero(x / 2, y / 2);
    }
  }

  /** Dividing by 2^i is halving once and then dividing by 2^(i-1). */
  lemma HalfDiv(n: nat, i: nat)
    requires i >= 1
    ensures n / Pow2(i) == (n / 2) / Pow2(i - 1)
  {
    var p := Pow2(i - 1);
    var q, r := (n / 2) / p, (n / 2) % p;
    assert n / 2 == q * p + r;
    assert n == q * (2 * p) + (2 * r + n % 2);
    DivMod(n, 2 * p, q, 2 * r + n % 2);
  }

  /** Bit `i` of the result is the operator applied to bit `i` of each
      operand: BitOp is C's `&`, `|` and `^`. */
  lemma {:induction false} BitAt(op: Logic, x: nat, y: nat, i: nat)
    ensures (BitOp(op, x, y) / Pow2(i)) % 2 == 1 <==>
            BitOf(op, (x / Pow2(i)) % 2 == 1, (y / Pow2(i)) % 2 == 1)
    decreases i
  {
    var n := BitOp(op, x, y);
    Unfold(op, x, y);
    DivMod(n, 2, BitOp(op, x / 2, y / 2), LowBit(op, x, y));
    if i > 0 {
      HalfDiv(n, i);
      HalfDiv(x, i);
      HalfDiv(y, i);
      BitAt(op, x / 2, y / 2, i - 1);
    }
  }

  /** AND with 0 is 0. */
  lemma {:induction false} AndZero(x: nat)
    ensures BitOp(And, x, 0) == 0
    decreases x
  {
    if x != 0 {
      AndZero(x / 2);
    }
  }

  /** AND with 2^k keeps bit k of the other operand and clears the rest. */
  lemma {:induction false} AndPow2(x: nat, k: nat)
    ensures BitOp(And, x, Pow2(k)) == Pow2(k) * ((x / Pow2(k)) % 2)
    decreases k
  {
    var m := Pow2(k);
    Unfold(And, x, m);
    if k == 0 {
      AndZero(x / 2);
      assert x / m == x;
    } else {
      var p := Pow2(k - 1);
      DivMod(m, 2, p, 0);
      assert LowBit(And, x, m) == 0;
      AndPow2(x / 2, k - 1);
      HalfDiv(x, k);
      var b := (x / m) % 2;
      assert BitOp(And, x, m) == 2 * (p * b);
    }
  }

  /** OR of two operands with no bit in common is their sum: `x` lies
      below 2^k and `y` is a multiple of 2^k. */
  lemma {:induction false} OrDisjoint(x: nat, y: nat, k: nat)
    requires x < Pow2(k) && y % Pow2(k) == 0
    ensures BitOp(Or, x, y) == x + y
    decreases x + y
  {
    if !(x == 0 && y == 0) {
      Unfold(Or, x, y);
      var m := Pow2(k);
      if k == 0 {
        assert x == 0;
        OrDisjoint(0, y / 2, 0);
      } else {
        var p, q := Pow2(k - 1), y / m;
        assert y == m * q;
        assert y == 2 * (p * q);
        DivMod(y, 2, p * q, 0);
        DivMod(y / 2, p, q, 0);
        assert x / 2 < p;
        assert LowBit(Or, x, y) == x % 2;
        OrDisjoint(x / 2, y / 2, k - 1);
      }
    }
  }

  // The byte and word facts the AND, OR and XOR instructions need.

  /** The low byte of the result comes from the low bytes of the operands. */
  lemma LowByte(op: Logic, x: nat, y: nat)
    ensures BitOp(op, x, y) % 0x100 == BitOp(op, x % 0x100, y % 0x100)
  {
    Pow2Values();
    LowBitsOnly(op, x, y, 8);
  }

  /** A value below the modulus is its own remainder. */
  lemma ModSmall(w: nat, m: nat)
    requires w < m
    ensures w % m == w
  {
  }

  /** AND with a byte is a byte and sees only the other operand's low byte. */
  lemma AndByte(x: nat, y: nat)
    requires x < 0x100
    ensures BitOp(And, x, y) < 0x100 && BitOp(And, x, y) == BitOp(And, x, y % 0x100)
  {
    Pow2Values();
    Narrow(And, x, y, 8);
    LowByte(And, x, y);
    ModSmall(x, 0x100);
    ModSmall(BitOp(And, x, y), 0x100);
  }

  /** OR of a byte and a word is a word whose low byte is the OR with the
      word's low byte. */
  lemma OrByteWord(x: nat, y: nat)
    requires x < 0x100 && y < 0x1_0000
    ensures BitOp(Or, x, y) < 0x1_0000 && BitOp(Or, x, y % 0x100) < 0x100
    ensures BitOp(Or, x, y) % 0x100 == BitOp(Or, x, y % 0x100)
  {
    Pow2Values();
    Narrow(Or, x, y, 16);
    Narrow(Or, x, y % 0x100, 8);
    LowByte(Or, x, y);
    ModSmall(x, 0x100);
  }

  /** XOR of two bytes is a byte. */
  lemma XorBytes(x: nat, y: nat)
    requires x < 0x100 && y < 0x100
    ensures BitOp(Xor, x, y) < 0x100
  {
    Pow2Values();
    Narrow(Xor, x, y, 8);
  }
}
