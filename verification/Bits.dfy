/** Bitwise operators of the 64-bit words the kernel computes addresses with, on natural numbers,
    and what they mean for a mask with a single bit set. */
module Bits {
  function Pow2(n: nat): (r: nat)
    ensures r >= 1
  {
    if n == 0 then 1 else 2 * Pow2(n - 1)
  }

  /** `a ^ b`, bit by bit. */
  function Xor(a: nat, b: nat): nat
    decreases a + b
  {
    if a == 0 && b == 0 then 0
    else 2 * Xor(a / 2, b / 2) + if a % 2 != b % 2 then 1 else 0
  }

  /** `a & b`, bit by bit. */
  function And(a: nat, b: nat): nat
  {
    if a == 0 then 0
    else 2 * And(a / 2, b / 2) + if a % 2 == 1 && b % 2 == 1 then 1 else 0
  }

  /** `~a` for a word of `width` bits. */
  function Not(width: nat, a: nat): nat
    requires a < Pow2(width)
  {
    Pow2(width) - 1 - a
  }

  /** Whether bit `n` of `a` is set. */
  predicate Bit(a: nat, n: nat)
  {
    if n == 0 then a % 2 == 1 else Bit(a / 2, n - 1)
  }

  lemma {:induction false} XorZero(a: nat)
    ensures Xor(a, 0) == a
  {
    if a != 0 { XorZero(a / 2); }
  }

  /** Flipping one bit adds or subtracts its weight. */
  lemma {:induction false} XorPow2(a: nat, n: nat)
    ensures Bit(a, n) ==> a >= Pow2(n)
    ensures Xor(a, Pow2(n)) == if Bit(a, n) then a - Pow2(n) else a + Pow2(n)
  {
    if n == 0 {
      XorZero(a / 2);
    } else {
      XorPow2(a / 2, n - 1);
      assert Pow2(n) / 2 == Pow2(n - 1) && Pow2(n) % 2 == 0;
      assert Xor(a, Pow2(n)) == 2 * Xor(a / 2, Pow2(n - 1)) + a % 2;
    }
  }

  lemma {:induction false} AndOnes(a: nat, width: nat)
    requires a < Pow2(width)
    ensures And(a, Pow2(width) - 1) == a
  {
    if width > 0 && a != 0 {
      AndOnes(a / 2, width - 1);
    }
  }

  /** Masking with the complement of one bit subtracts its weight when it is set. */
  lemma {:induction false} AndNotPow2(width: nat, a: nat, n: nat)
    requires n < width && a < Pow2(width)
    ensures Pow2(n) < Pow2(width)
    ensures Bit(a, n) ==> a >= Pow2(n)
    ensures And(a, Not(width, Pow2(n))) == if Bit(a, n) then a - Pow2(n) else a
  {
    Pow2Less(n, width);
    if n == 0 {
      AndOnes(a / 2, width - 1);
    } else {
      AndNotPow2(width - 1, a / 2, n - 1);
      var mask := Not(width, Pow2(n));
      assert mask / 2 == Not(width - 1, Pow2(n - 1)) && mask % 2 == 1;
      assert And(a, mask) == 2 * And(a / 2, mask / 2) + a % 2;
    }
  }

  lemma {:induction false} Pow2Less(n: nat, m: nat)
    requires n < m
    ensures Pow2(n) < Pow2(m)
  {
    if n + 1 < m { Pow2Less(n, m - 1); }
  }
}
