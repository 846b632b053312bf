/**
 * JavaScript's `<<` and `|` on the non-negative integers below 2^31 that the
 * colour packing feeds them; on that range ToInt32 is the identity.
 */
module Bits {

  function Pow2(k: nat): (p: nat)
    ensures p >= 1
  {
    if k == 0 then 1 else 2 * Pow2(k - 1)
  }

  /** `x << k`, for results that stay below 2^31. */
  function ShiftLeft(x: nat, k: nat): nat {
    x * Pow2(k)
  }

  /** `a | b`: bit-wise or, computed one binary digit at a time. */
  function BitOr(a: nat, b: nat): nat {
    if a == 0 then b
    else if b == 0 then a
    else 2 * BitOr(a / 2, b / 2) + (if a % 2 == 1 || b % 2 == 1 then 1 else 0)
  }

  /** Or-ing only sets bits: the result is at least each operand and at most their sum. */
  lemma {:induction false} BitOrBounds(a: nat, b: nat)
    ensures a <= BitOr(a, b) && b <= BitOr(a, b) && BitOr(a, b) <= a + b
  {
    if a != 0 && b != 0 {
      BitOrBounds(a / 2, b / 2);
    }
  }

  /**
   * Or-ing a multiple of 2^k with a number below 2^k sets disjoint bits,
   * so it is plain addition.
   */
  lemma {:induction false} BitOrDisjoint(a: nat, b: nat, k: nat)
    requires b < Pow2(k)
    ensures BitOr(a * Pow2(k), b) == a * Pow2(k) + b
  {
    if k > 0 && a != 0 && b != 0 {
      var high := a * Pow2(k);
      assert high == 2 * (a * Pow2(k - 1));
      assert high / 2 == a * Pow2(k - 1) && high % 2 == 0;
      BitOrDisjoint(a, b / 2, k - 1);
    }
  }
}
