/** Bytes, and the little-endian layout of the fixed-width values written to files and blobs. */
module Bytes {
  import opened Arithmetic

  type byte = n: int | 0 <= n < 256

  const TWO_16: int := 0x1_0000

  lemma {:induction false} Assoc(a: seq<byte>, b: seq<byte>, c: seq<byte>)
    ensures a + b + c == a + (b + c)
  {
  }

  /** A natural as `width` bytes, lowest first; higher bits are cut off. */
  function Little(n: nat, width: nat): (s: seq<byte>)
    ensures |s| == width
  {
    if width == 0 then [] else [n % 256] + Little(n / 256, width - 1)
  }

  function FromLittle(s: seq<byte>): (n: nat)
    ensures |s| == 1 ==> n < 256
  {
    if s == [] then 0 else s[0] + 256 * FromLittle(s[1..])
  }

  function Power256(width: nat): nat {
    if width == 0 then 1 else 256 * Power256(width - 1)
  }

  /** Reading back what was written gives the value modulo the range of its width. */
  lemma {:induction false} LittleRoundTrip(n: nat, width: nat)
    ensures Power256(width) > 0 && FromLittle(Little(n, width)) == n % Power256(width)
  {
    if width > 0 {
      LittleRoundTrip(n / 256, width - 1);
      RemainderSplits(n, Power256(width - 1));
      assert Little(n, width)[1..] == Little(n / 256, width - 1);
    }
  }

  lemma {:induction false} RemainderSplits(n: nat, m: nat)
    requires m > 0
    ensures 256 * m > 0 && n % (256 * m) == n % 256 + 256 * (n / 256 % m)
  {
    var k, low := n / 256, n % 256;
    var q, r := k / m, k % m;
    assert k == m * q + r;
    assert 256 * m * q == 256 * (m * q);
    DivUnique(n, 256 * m, q, 256 * r + low);
  }

  /** The values of one, two and four bytes, as they are read back. */
  lemma {:induction false} ReadBack(n: nat)
    ensures FromLittle(Little(n, 1)) == n % 256
    ensures FromLittle(Little(n, 2)) == n % TWO_16
    ensures FromLittle(Little(n, 4)) == n % TWO_32
  {
    LittleRoundTrip(n, 1);
    LittleRoundTrip(n, 2);
    LittleRoundTrip(n, 4);
    assert Power256(1) == 256 && Power256(2) == TWO_16;
    assert Power256(4) == 256 * (256 * Power256(2));
  }
}
