/**
 * The bitwise operators `|`, `&` and `^` of JavaScript on non-negative
 * integers, defined one bit at a time from the least significant, and the
 * powers of two that `>>` and `<<` divide and multiply by.
 */
module Bits {
  function Pow2(k: nat): (p: nat)
    ensures p >= 1
  {
    if k == 0 then 1 else 2 * Pow2(k - 1)
  }

  function Or(a: nat, b: nat): nat
  {
    if a == 0 then b
    else 2 * Or(a / 2, b / 2) + (if a % 2 == 1 || b % 2 == 1 then 1 else 0)
  }

  function And(a: nat, b: nat): nat
  {
    if a == 0 then 0
    else 2 * And(a / 2, b / 2) + (if a % 2 == 1 && b % 2 == 1 then 1 else 0)
  }

  function Xor(a: nat, b: nat): nat
  {
    if a == 0 then b
    else 2 * Xor(a / 2, b / 2) + (if a % 2 != b % 2 then 1 else 0)
  }

  /** Each operator works bit by bit: its lowest bit comes from the lowest bits, the rest from the rest. */
  lemma Halves(a: nat, b: nat)
    ensures Or(a, b) / 2 == Or(a / 2, b / 2) && Or(a, b) % 2 == (if a % 2 == 1 || b % 2 == 1 then 1 else 0)
    ensures And(a, b) / 2 == And(a / 2, b / 2) && And(a, b) % 2 == (if a % 2 == 1 && b % 2 == 1 then 1 else 0)
    ensures Xor(a, b) / 2 == Xor(a / 2, b / 2) && Xor(a, b) % 2 == (if a % 2 != b % 2 then 1 else 0)
  {
  }

  /** On k-bit operands the results have k bits, and AND is no larger than either operand. */
  lemma {:induction false} Bounded(a: nat, b: nat, k: nat)
    requires a < Pow2(k) && b < Pow2(k)
    ensures Or(a, b) < Pow2(k) && Xor(a, b) < Pow2(k)
    ensures And(a, b) <= a && And(a, b) <= b
  {
    if k == 0 {
    } else if a == 0 {
    } else {
      Bounded(a / 2, b / 2, k - 1);
    }
  }

  /** The operators map bytes to bytes. */
  lemma ByteBounded(a: nat, b: nat)
    requires a < 256 && b < 256
    ensures Or(a, b) < 256 && And(a, b) < 256 && Xor(a, b) < 256
    ensures And(a, b) <= a && And(a, b) <= b
  {
    assert Pow2(8) == 256;
    Bounded(a, b, 8);
  }

  /** `(a ^ b) ^ b == a`. */
  lemma {:induction false} XorInverse(a: nat, b: nat)
    ensures Xor(Xor(a, b), b) == a
    decreases a + b
  {
    if a + b > 0 {
      var c := Xor(a, b);
      Halves(a, b);
      Halves(c, b);
      XorInverse(a / 2, b / 2);
    }
  }

  /** `a ^ a == 0`, `a & a == a`, `a | a == a`. */
  lemma {:induction false} SelfCombination(a: nat)
    ensures Xor(a, a) == 0 && And(a, a) == a && Or(a, a) == a
  {
    if a > 0 {
      SelfCombination(a / 2);
    }
  }
}
