/** The bit arithmetic of the quadtree: reading coordinates from the top bit down, as
    `QTreeNode::getLeaf` does by doubling and testing bit 15 (font/map.cpp). */
module Prefix {
  import opened Arithmetic

  const TREE_DEPTH: nat := 13  // from level 15 down to FLOOR_BITS
  const FLOOR_SIZE: nat := 8

  function Pow2(n: nat): (p: nat)
    ensures p >= 1
  {
    if n == 0 then 1 else 2 * Pow2(n - 1)
  }

  /** A node of the tree by its depth and the leading bits of the coordinates it covers. */
  datatype Key = Key(d: nat, px: nat, py: nat)

  /** `(x & 0x8000) >> 15`. */
  function TopBit(x: nat): (b: nat)
    ensures b < 2
  {
    x / 0x8000 % 2
  }

  function Double(x: nat): nat { 2 * x % TWO_32 }

  function Index(x: nat, y: nat): (i: nat)
    ensures i < 4
  {
    TopBit(x) + 2 * TopBit(y)
  }

  function Div(n: nat, den: nat): nat
    requires den > 0
  {
    n / den
  }

  /** The first `d` of a coordinate's sixteen bits. */
  function Leading(x: nat, d: nat): nat
    requires d <= 16
  {
    Div(x % COORDS, Pow2(16 - d))
  }

  function KeyOf(x: nat, y: nat, d: nat): Key
    requires d <= 16
  {
    Key(d, Leading(x, d), Leading(y, d))
  }

  function ChildKey(k: Key, i: nat): Key {
    Key(k.d + 1, 2 * k.px + i % 2, 2 * k.py + i / 2)
  }

  function ParentKey(k: Key): Key
    requires k.d > 0
  {
    Key(k.d - 1, k.px / 2, k.py / 2)
  }

  lemma {:induction false} ChildOf(k: Key, i: nat)
    requires i < 4
    ensures ParentKey(ChildKey(k, i)) == k
    ensures ChildKey(k, i).px % 2 + 2 * (ChildKey(k, i).py % 2) == i
  {
  }

  /** `cur` is what is left of `x` after `d` doublings: the consumed bits have moved out of the low 16. */
  predicate Remaining(x: nat, d: nat, cur: nat)
    requires d <= 16
  {
    cur % COORDS == x % COORDS % Pow2(16 - d) * Pow2(d)
  }

  lemma {:induction false} Pow2Split(a: nat, b: nat)
    ensures Pow2(a) * Pow2(b) == Pow2(a + b)
  {
    if a > 0 {
      Pow2Split(a - 1, b);
      assert Pow2(a) * Pow2(b) == 2 * (Pow2(a - 1) * Pow2(b));
    }
  }

  lemma {:induction false} Pow2Sixteen()
    ensures Pow2(15) == 0x8000 && Pow2(16) == COORDS && Pow2(3) == FLOOR_SIZE
  {
    assert Pow2(3) == 8;
    assert Pow2(7) == 128;
    assert Pow2(11) == 2048;
    assert Pow2(15) == 0x8000;
  }

  /** Scaling up by `b` and testing the top position is testing the unscaled position. */
  lemma {:induction false} ScaledBit(low: nat, a: nat, b: nat)
    requires a > 0 && b > 0 && a * b > 0
    ensures low * b / (a * b) == low / a
    ensures low * b % (a * b) == low % a * b
  {
    var q, r := low / a, low % a;
    assert low == a * q + r;
    assert low * b == a * q * b + r * b;
    Product3(a, b, q);
    ScaleStrict(r, a, b);
    DivUnique(low * b, a * b, q, r * b);
  }

  /** Taking `2a` apart in two steps. */
  lemma {:induction false} SplitDiv(r: nat, a: nat)
    requires a > 0
    ensures r / a == 2 * (r / (2 * a)) + r % (2 * a) / a
    ensures r % (2 * a) % a == r % a
  {
    var q, low := r / (2 * a), r % (2 * a);
    assert r == (2 * a) * q + low;
    var q', low' := low / a, low % a;
    assert low == a * q' + low';
    assert a * (2 * q + q') == (2 * a) * q + a * q';
    DivUnique(r, a, 2 * q + q', low');
  }

  lemma {:induction false} LowOfWord(n: nat)
    ensures n % TWO_32 % COORDS == n % COORDS
  {
    var t, r := n / TWO_32, n % TWO_32;
    var u, v := r / COORDS, r % COORDS;
    DivUnique(n, COORDS, COORDS * t + u, v);
  }

  lemma {:induction false} TopBitLow(cur: nat)
    ensures TopBit(cur) == cur % COORDS / 0x8000
  {
    var q, l := cur / COORDS, cur % COORDS;
    DivUnique(cur, 0x8000, 2 * q + l / 0x8000, l % 0x8000);
  }

  lemma {:induction false} TwiceLow(cur: nat)
    ensures 2 * cur % COORDS == 2 * (cur % COORDS % 0x8000)
  {
    var q, l := cur / COORDS, cur % COORDS;
    DivUnique(2 * cur, COORDS, 2 * q + l / 0x8000, 2 * (l % 0x8000));
  }

  /** Doubling modulo 2^32 keeps the low 16 bits right. */
  lemma {:induction false} DoubleLow(cur: nat)
    ensures Double(cur) % COORDS == 2 * (cur % COORDS % 0x8000)
    ensures TopBit(cur) == cur % COORDS / 0x8000
  {
    LowOfWord(2 * cur);
    TwiceLow(cur);
    TopBitLow(cur);
  }

  /** The arithmetic of one level, for `a * b == 0x8000`. */
  lemma {:induction false} BitStep(r: nat, a: nat, b: nat, cur: nat)
    requires a > 0 && b > 0 && a * b == 0x8000 && cur % COORDS == r % (2 * a) * b
    ensures TopBit(cur) == r % (2 * a) / a
    ensures Double(cur) % COORDS == r % a * (2 * b)
    ensures r / a == 2 * (r / (2 * a)) + TopBit(cur)
  {
    DoubleLow(cur);
    ScaledBit(r % (2 * a), a, b);
    SplitDiv(r, a);
    assert 2 * (r % a * b) == r % a * (2 * b);
  }

  /** One level down: the top bit of what remains is the next leading bit. */
  lemma {:induction false} NextBit(x: nat, d: nat, cur: nat)
    requires d <= 15 && Remaining(x, d, cur)
    ensures Leading(x, d + 1) == 2 * Leading(x, d) + TopBit(cur)
    ensures Remaining(x, d + 1, Double(cur))
  {
    Pow2Sixteen();
    Pow2Split(15 - d, d);
    BitStep(x % COORDS, Pow2(15 - d), Pow2(d), cur);
  }

  lemma {:induction false} StartBits(x: nat)
    ensures Remaining(x, 0, x) && Leading(x, 0) == 0
  {
    Pow2Sixteen();
    assert x % COORDS % COORDS == x % COORDS;
  }

  lemma {:induction false} NextKey(x: nat, y: nat, d: nat, curX: nat, curY: nat)
    requires d <= 15 && Remaining(x, d, curX) && Remaining(y, d, curY)
    ensures KeyOf(x, y, d + 1) == ChildKey(KeyOf(x, y, d), Index(curX, curY))
    ensures Remaining(x, d + 1, Double(curX)) && Remaining(y, d + 1, Double(curY))
  {
    hide Leading, Remaining, Double, TopBit;
    NextBit(x, d, curX);
    NextBit(y, d, curY);
  }

  /** The parent of a prefix is the next shorter prefix. */
  lemma {:induction false} ShorterKey(x: nat, y: nat, d: nat)
    requires d <= 15
    ensures ParentKey(KeyOf(x, y, d + 1)) == KeyOf(x, y, d)
  {
    SplitDiv(x % COORDS, Pow2(15 - d));
    SplitDiv(y % COORDS, Pow2(15 - d));
    HalfOfPair(x % COORDS, Pow2(15 - d));
    HalfOfPair(y % COORDS, Pow2(15 - d));
  }

  lemma {:induction false} HalfOfPair(r: nat, a: nat)
    requires a > 0
    ensures r / a / 2 == r / (2 * a)
  {
    SplitDiv(r, a);
    var low := r % (2 * a);
    assert low / a < 2 by {
      assert low == a * (low / a) + low % a;
      if low / a >= 2 { ScaleMonotone(2, low / a, a); }
    }
  }

  /** A leaf covers an 8 by 8 block of positions. */
  lemma {:induction false} LeafBlock(x: nat)
    ensures Leading(x, TREE_DEPTH) == x % COORDS / FLOOR_SIZE
  {
    Pow2Sixteen();
  }
}
