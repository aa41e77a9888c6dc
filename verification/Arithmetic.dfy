/** Small facts about integers that several components need. */
module Arithmetic {

  const COORDS: nat := 0x1_0000  // coordinates are uint16_t
  const TWO_32: nat := 0x1_0000_0000

  function Abs(n: int): nat { if n < 0 then -n else n }
  function Min(a: int, b: int): int { if a < b then a else b }
  function Max(a: int, b: int): int { if a < b then b else a }

  lemma {:induction false} ScaleAtLeast(a: nat, b: nat)
    requires b >= 1
    ensures a * b >= a
  {
    assert a * b == a + a * (b - 1);
  }

  lemma {:induction false} ScaleMonotone(a: nat, b: nat, c: nat)
    requires a <= b
    ensures a * c <= b * c
  {
  }

  lemma {:induction false} ScaleStrict(r: nat, a: nat, b: nat)
    requires r < a && b > 0
    ensures 0 <= r * b < a * b
  {
    assert a * b == r * b + (a - r) * b;
    assert (a - r) * b >= 1 by { assert (a - r) * b == b + (a - r - 1) * b; }
  }

  lemma {:induction false} ScaleBelow(a: nat, t: int)
    requires a > 0 && a * t < a
    ensures t <= 0
  {
    if t >= 1 { ScaleAtLeast(a, t); }
  }

  lemma {:induction false} Spread(a: int, b: int, c: int)
    ensures a * (b - c) == a * b - a * c
  {
  }

  lemma {:induction false} Product3(a: int, b: int, q: int)
    ensures a * q * b == a * b * q
  {
  }

  /** Quotient and remainder are determined by their equation. */
  lemma {:induction false} DivUnique(n: int, den: nat, q: int, r: int)
    requires den > 0 && n == den * q + r && 0 <= r < den
    ensures n / den == q && n % den == r
  {
    var q', r' := n / den, n % den;
    assert n == den * q' + r';
    Spread(den, q, q');
    Spread(den, q', q);
    ScaleBelow(den, q - q');
    ScaleBelow(den, q' - q);
  }
}
