/** Bitwise `a & b` and `a & ~b` on unbounded naturals, as far as the block cache needs them. */
module Masks {
  import opened Arithmetic

  function And(a: nat, b: nat): nat {
    if a == 0 then 0 else 2 * And(a / 2, b / 2) + (if b % 2 == 1 then a % 2 else 0)
  }

  function AndNot(a: nat, b: nat): nat {
    if a == 0 then 0 else 2 * AndNot(a / 2, b / 2) + (if b % 2 == 1 then 0 else a % 2)
  }

  /** Masking splits a number in two, and the masked-out part is no larger than the mask. */
  lemma {:induction false} MaskSplits(a: nat, b: nat)
    ensures a == AndNot(a, b) + And(a, b) && And(a, b) <= b
  {
    if a != 0 { MaskSplits(a / 2, b / 2); }
  }

  /** A mask of `k` one bits is the remainder modulo 2^k. */
  lemma {:induction false} LowMask(a: nat, m: nat)
    requires m > 0 && IsPow2(m)
    ensures And(a, m - 1) == a % m
  {
    if a != 0 && m > 1 {
      LowMask(a / 2, m / 2);
      assert (m - 1) / 2 == m / 2 - 1;
      HalfMod(a, m / 2);
    } else if m == 1 {
      AndZero(a);
    }
  }

  predicate IsPow2(m: nat) { m == 1 || (m > 1 && m % 2 == 0 && IsPow2(m / 2)) }

  lemma {:induction false} AndZero(a: nat)
    ensures And(a, 0) == 0
  {
    if a != 0 { AndZero(a / 2); }
  }

  lemma {:induction false} HalfMod(a: nat, h: nat)
    requires h > 0
    ensures a % (2 * h) == 2 * (a / 2 % h) + a % 2
  {
    var q, r := a / 2 / h, a / 2 % h;
    assert a / 2 == h * q + r;
    assert 2 * h * q == 2 * (h * q);
    DivUnique(a, 2 * h, q, 2 * r + a % 2);
  }
}
