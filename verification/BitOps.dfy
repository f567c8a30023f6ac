/** The bit operations |, & and ^ of C on numbers that are not negative, and what they come to with
    the masks of the source. */
module BitOps {
  import opened Bits

  /** a | b */
  function Or(a: nat, b: nat): nat {
    if a == 0 then b else 2 * Or(a / 2, b / 2) + (if a % 2 == 1 || b % 2 == 1 then 1 else 0)
  }

  /** a & b */
  function And(a: nat, b: nat): nat {
    if a == 0 then 0 else 2 * And(a / 2, b / 2) + (if a % 2 == 1 && b % 2 == 1 then 1 else 0)
  }

  /** a ^ b */
  function Xor(a: nat, b: nat): nat {
    if a == 0 then b else 2 * Xor(a / 2, b / 2) + (if a % 2 != b % 2 then 1 else 0)
  }

  /** n ones */
  function Ones(n: nat): nat { Pow2(n) - 1 }

  lemma {:induction false} OrZero(a: nat)
    ensures Or(a, 0) == a
  {
    if a > 0 { OrZero(a / 2); }
  }

  lemma {:induction false} OrCommutes(a: nat, b: nat)
    ensures Or(a, b) == Or(b, a)
    decreases a
  {
    if a == 0 || b == 0 {
      OrZero(a);
      OrZero(b);
    } else {
      OrCommutes(a / 2, b / 2);
    }
  }

  /** Bits above those of a: the sum. */
  lemma {:induction false} OrAbove(a: nat, x: nat, k: nat)
    requires a < Pow2(k)
    ensures Or(a, ShiftLeft(x, k)) == a + ShiftLeft(x, k)
  {
    if a > 0 {
      OrAbove(a / 2, x, k - 1);
      assert ShiftLeft(x, k) == 2 * ShiftLeft(x, k - 1);
    }
  }

  lemma {:induction false} ShiftRoom(c: nat, k: nat, n: nat)
    requires c < Pow2(n)
    ensures ShiftLeft(c, k) + Pow2(k) <= Pow2(n + k)
  {
    if k > 0 { ShiftRoom(c, k - 1, n); }
  }

  /** Bits below those of a: the sum. */
  lemma OrBelow(v: nat, k: nat, c: nat, n: nat, m: nat)
    requires c < Pow2(n) && k == n + m
    ensures Or(ShiftLeft(v, k), ShiftLeft(c, m)) == ShiftLeft(v, k) + ShiftLeft(c, m)
  {
    ShiftRoom(c, m, n);
    OrCommutes(ShiftLeft(v, k), ShiftLeft(c, m));
    OrAbove(ShiftLeft(c, m), v, k);
  }

  lemma {:induction false} AndOnes(a: nat, n: nat)
    ensures And(a, Ones(n)) == LowBits(a, n)
    decreases n
  {
    if n == 0 {
      AndZero(a);
    } else if a == 0 {
      LowBitsSmall(0, n);
    } else {
      AndOnes(a / 2, n - 1);
      assert Ones(n) == 2 * Ones(n - 1) + 1;
    }
  }

  lemma {:induction false} AndZero(a: nat)
    ensures And(a, 0) == 0
  {
    if a > 0 { AndZero(a / 2); }
  }

  /** A mask of n ones at place `shift` leaves the n bits there, in place. */
  lemma {:induction false} AndMask(a: nat, n: nat, shift: nat)
    ensures And(a, ShiftLeft(Ones(n), shift)) == ShiftLeft(LowBits(ShiftRight(a, shift), n), shift)
    decreases shift
  {
    if shift == 0 {
      AndOnes(a, n);
    } else if a == 0 {
      ShiftRightZero(shift);
      LowBitsSmall(0, n);
      ShiftLeftZero(shift);
    } else {
      AndMask(a / 2, n, shift - 1);
      assert ShiftLeft(Ones(n), shift) == 2 * ShiftLeft(Ones(n), shift - 1);
    }
  }

  lemma {:induction false} ShiftRightZero(n: nat)
    ensures ShiftRight(0, n) == 0
    decreases n
  {
    if n > 0 { ShiftRightZero(n - 1); }
  }

  lemma {:induction false} XorZero(a: nat)
    ensures Xor(a, 0) == a
  {
    if a > 0 { XorZero(a / 2); }
  }

  /** Exclusive or with ones is what remains to all ones. */
  lemma {:induction false} XorOnes(a: nat, n: nat)
    requires a < Pow2(n)
    ensures Xor(a, Ones(n)) == Ones(n) - a
    decreases n
  {
    if a > 0 {
      XorOnes(a / 2, n - 1);
      assert Ones(n) == 2 * Ones(n - 1) + 1;
    }
  }

  /** The highest bit. */
  lemma {:induction false} TopBit(a: nat, n: nat)
    requires n >= 1 && a < Pow2(n)
    ensures ShiftRight(a, n - 1) == if a >= Pow2(n - 1) then 1 else 0
    decreases n
  {
    if n > 1 { TopBit(a / 2, n - 1); }
  }

  /** The test of the highest bit with a mask. */
  lemma AndTop(a: nat, n: nat)
    requires n >= 1 && a < Pow2(n)
    ensures And(a, ShiftLeft(1, n - 1)) == if a >= Pow2(n - 1) then Pow2(n - 1) else 0
  {
    assert Ones(1) == 1;
    AndMask(a, 1, n - 1);
    TopBit(a, n);
    ShiftLeftOne(n - 1);
    ShiftLeftZero(n - 1);
    assert LowBits(1, 1) == 1 && LowBits(0, 1) == 0;
  }
}
