/** The block function of MD5 as font/md5.cpp unrolls it, against the table-driven definition in section 3.4
    of RFC 1321. */
module Md5Block {

  type Word = bv32

  /** The four words of the state. */
  datatype Quad = Quad(a: Word, b: Word, c: Word, d: Word)

  function F(x: Word, y: Word, z: Word): Word { (x & y) | ((!x) & z) }

  function G(x: Word, y: Word, z: Word): Word { (x & z) | (y & (!z)) }

  function H(x: Word, y: Word, z: Word): Word { x ^ y ^ z }

  function I(x: Word, y: Word, z: Word): Word { y ^ (x | (!z)) }

  function RotateLeft(x: Word, n: nat): Word
    requires n <= 32
  {
    (x << n) | (x >> (32 - n))
  }

  /** The common part of the four step macros: `f` is the value of the auxiliary function. */
  function Mix(f: Word, a: Word, b: Word, x: Word, s: nat, t: Word): Word
    requires s <= 32
  {
    RotateLeft(a + (f + x + t), s) + b
  }

  // ----- the definition: step n of 64

  function Auxiliary(n: nat, x: Word, y: Word, z: Word): Word {
    if n < 16 then F(x, y, z) else if n < 32 then G(x, y, z) else if n < 48 then H(x, y, z) else I(x, y, z)
  }

  /** Which word of the block a step takes. */
  function Index(n: nat): (k: nat)
    ensures k < 16
  {
    if n < 16 then n
    else if n < 32 then (5 * n + 1) % 16
    else if n < 48 then (3 * n + 5) % 16
    else 7 * n % 16
  }

  /** How far a step rotates. */
  function Shift(n: nat): (s: nat)
    ensures s <= 32
  {
    var j := n % 4;
    if n < 16 then (if j == 0 then 7 else if j == 1 then 12 else if j == 2 then 17 else 22)
    else if n < 32 then (if j == 0 then 5 else if j == 1 then 9 else if j == 2 then 14 else 20)
    else if n < 48 then (if j == 0 then 4 else if j == 1 then 11 else if j == 2 then 16 else 23)
    else (if j == 0 then 6 else if j == 1 then 10 else if j == 2 then 15 else 21)
  }

  /** The additive constants, 2^32 times the sines of 1 to 64, round by round. */
  function T(n: nat): Word {
    if n < 16 then T1(n) else if n < 32 then T2(n - 16) else if n < 48 then T3(n - 32) else if n < 64 then T4(n - 48) else 0
  }

  function T1(n: nat): Word {
    match n
    case 0 => 0xd76aa478 case 1 => 0xe8c7b756 case 2 => 0x242070db case 3 => 0xc1bdceee
    case 4 => 0xf57c0faf case 5 => 0x4787c62a case 6 => 0xa8304613 case 7 => 0xfd469501
    case 8 => 0x698098d8 case 9 => 0x8b44f7af case 10 => 0xffff5bb1 case 11 => 0x895cd7be
    case 12 => 0x6b901122 case 13 => 0xfd987193 case 14 => 0xa679438e case _ => 0x49b40821
  }

  function T2(n: nat): Word {
    match n
    case 0 => 0xf61e2562 case 1 => 0xc040b340 case 2 => 0x265e5a51 case 3 => 0xe9b6c7aa
    case 4 => 0xd62f105d case 5 => 0x02441453 case 6 => 0xd8a1e681 case 7 => 0xe7d3fbc8
    case 8 => 0x21e1cde6 case 9 => 0xc33707d6 case 10 => 0xf4d50d87 case 11 => 0x455a14ed
    case 12 => 0xa9e3e905 case 13 => 0xfcefa3f8 case 14 => 0x676f02d9 case _ => 0x8d2a4c8a
  }

  function T3(n: nat): Word {
    match n
    case 0 => 0xfffa3942 case 1 => 0x8771f681 case 2 => 0x6d9d6122 case 3 => 0xfde5380c
    case 4 => 0xa4beea44 case 5 => 0x4bdecfa9 case 6 => 0xf6bb4b60 case 7 => 0xbebfbc70
    case 8 => 0x289b7ec6 case 9 => 0xeaa127fa case 10 => 0xd4ef3085 case 11 => 0x04881d05
    case 12 => 0xd9d4d039 case 13 => 0xe6db99e5 case 14 => 0x1fa27cf8 case _ => 0xc4ac5665
  }

  function T4(n: nat): Word {
    match n
    case 0 => 0xf4292244 case 1 => 0x432aff97 case 2 => 0xab9423a7 case 3 => 0xfc93a039
    case 4 => 0x655b59c3 case 5 => 0x8f0ccc92 case 6 => 0xffeff47d case 7 => 0x85845dd1
    case 8 => 0x6fa87e4f case 9 => 0xfe2ce6e0 case 10 => 0xa3014314 case 11 => 0x4e0811a1
    case 12 => 0xf7537e82 case 13 => 0xbd3af235 case 14 => 0x2ad7d2bb case _ => 0xeb86d391
  }

  /** One step: the roles of the four words move on by one. */
  function Turn(q: Quad, x: seq<Word>, n: nat): Quad
    requires |x| == 16
  {
    Quad(q.d, Mix(Auxiliary(n, q.b, q.c, q.d), q.a, q.b, x[Index(n)], Shift(n), T(n)), q.b, q.c)
  }

  function Steps(q: Quad, x: seq<Word>, n: nat): Quad
    requires |x| == 16
  {
    if n == 0 then q else Turn(Steps(q, x, n - 1), x, n - 1)
  }

  function Plus(q: Quad, r: Quad): Quad { Quad(q.a + r.a, q.b + r.b, q.c + r.c, q.d + r.d) }

  /** The state after one block. */
  function Compress(q: Quad, x: seq<Word>): Quad
    requires |x| == 16
  {
    Plus(q, Steps(q, x, 64))
  }

  lemma {:induction false} FourSteps(q: Quad, x: seq<Word>, n: nat)
    requires |x| == 16
    ensures Steps(q, x, n + 4) == Turn(Turn(Turn(Turn(Steps(q, x, n), x, n), x, n + 1), x, n + 2), x, n + 3)
  {
    hide Turn;
    assert Steps(q, x, n + 4) == Turn(Steps(q, x, n + 3), x, n + 3);
    assert Steps(q, x, n + 3) == Turn(Steps(q, x, n + 2), x, n + 2);
    assert Steps(q, x, n + 2) == Turn(Steps(q, x, n + 1), x, n + 1);
  }

  // ----- the unrolled form

  /** What the code writes out for the steps of round 1. */
  lemma {:induction false} Constants1()
    ensures Index(0) == 0 && Shift(0) == 7 && T(0) == 3614090360 && Index(1) == 1 && Shift(1) == 12 && T(1) == 3905402710
    ensures Index(2) == 2 && Shift(2) == 17 && T(2) == 606105819 && Index(3) == 3 && Shift(3) == 22 && T(3) == 3250441966
    ensures Index(4) == 4 && Shift(4) == 7 && T(4) == 4118548399 && Index(5) == 5 && Shift(5) == 12 && T(5) == 1200080426
    ensures Index(6) == 6 && Shift(6) == 17 && T(6) == 2821735955 && Index(7) == 7 && Shift(7) == 22 && T(7) == 4249261313
    ensures Index(8) == 8 && Shift(8) == 7 && T(8) == 1770035416 && Index(9) == 9 && Shift(9) == 12 && T(9) == 2336552879
    ensures Index(10) == 10 && Shift(10) == 17 && T(10) == 4294925233 && Index(11) == 11 && Shift(11) == 22 && T(11) == 2304563134
    ensures Index(12) == 12 && Shift(12) == 7 && T(12) == 1804603682 && Index(13) == 13 && Shift(13) == 12 && T(13) == 4254626195
    ensures Index(14) == 14 && Shift(14) == 17 && T(14) == 2792965006 && Index(15) == 15 && Shift(15) == 22 && T(15) == 1236535329
  {
  }

  /** Round 1 of `MD5_Transform` */
  method Round1(q: Quad, x: seq<Word>, ghost start: Quad) returns (r: Quad)
    requires |x| == 16 && q == Steps(start, x, 0)
    ensures r == Steps(start, x, 16)
  {
    hide Steps, Mix, F, G, H, I, Index, Shift, T;
    Constants1();
    var a, b, c, d := q.a, q.b, q.c, q.d;
    a := Mix(F(b, c, d), a, b, x[0], 7, 3614090360);
    d := Mix(F(a, b, c), d, a, x[1], 12, 3905402710);
    c := Mix(F(d, a, b), c, d, x[2], 17, 606105819);
    b := Mix(F(c, d, a), b, c, x[3], 22, 3250441966);
    FourSteps(start, x, 0);
    assert Quad(a, b, c, d) == Steps(start, x, 4);
    a := Mix(F(b, c, d), a, b, x[4], 7, 4118548399);
    d := Mix(F(a, b, c), d, a, x[5], 12, 1200080426);
    c := Mix(F(d, a, b), c, d, x[6], 17, 2821735955);
    b := Mix(F(c, d, a), b, c, x[7], 22, 4249261313);
    FourSteps(start, x, 4);
    assert Quad(a, b, c, d) == Steps(start, x, 8);
    a := Mix(F(b, c, d), a, b, x[8], 7, 1770035416);
    d := Mix(F(a, b, c), d, a, x[9], 12, 2336552879);
    c := Mix(F(d, a, b), c, d, x[10], 17, 4294925233);
    b := Mix(F(c, d, a), b, c, x[11], 22, 2304563134);
    FourSteps(start, x, 8);
    assert Quad(a, b, c, d) == Steps(start, x, 12);
    a := Mix(F(b, c, d), a, b, x[12], 7, 1804603682);
    d := Mix(F(a, b, c), d, a, x[13], 12, 4254626195);
    c := Mix(F(d, a, b), c, d, x[14], 17, 2792965006);
    b := Mix(F(c, d, a), b, c, x[15], 22, 1236535329);
    FourSteps(start, x, 12);
    assert Quad(a, b, c, d) == Steps(start, x, 16);
    r := Quad(a, b, c, d);
  }

  /** What the code writes out for the steps of round 2. */
  lemma {:induction false} Constants2()
    ensures Index(16) == 1 && Shift(16) == 5 && T(16) == 4129170786 && Index(17) == 6 && Shift(17) == 9 && T(17) == 3225465664
    ensures Index(18) == 11 && Shift(18) == 14 && T(18) == 643717713 && Index(19) == 0 && Shift(19) == 20 && T(19) == 3921069994
    ensures Index(20) == 5 && Shift(20) == 5 && T(20) == 3593408605 && Index(21) == 10 && Shift(21) == 9 && T(21) == 38016083
    ensures Index(22) == 15 && Shift(22) == 14 && T(22) == 3634488961 && Index(23) == 4 && Shift(23) == 20 && T(23) == 3889429448
    ensures Index(24) == 9 && Shift(24) == 5 && T(24) == 568446438 && Index(25) == 14 && Shift(25) == 9 && T(25) == 3275163606
    ensures Index(26) == 3 && Shift(26) == 14 && T(26) == 4107603335 && Index(27) == 8 && Shift(27) == 20 && T(27) == 1163531501
    ensures Index(28) == 13 && Shift(28) == 5 && T(28) == 2850285829 && Index(29) == 2 && Shift(29) == 9 && T(29) == 4243563512
    ensures Index(30) == 7 && Shift(30) == 14 && T(30) == 1735328473 && Index(31) == 12 && Shift(31) == 20 && T(31) == 2368359562
  {
  }

  /** Round 2 of `MD5_Transform` */
  method Round2(q: Quad, x: seq<Word>, ghost start: Quad) returns (r: Quad)
    requires |x| == 16 && q == Steps(start, x, 16)
    ensures r == Steps(start, x, 32)
  {
    hide Steps, Mix, F, G, H, I, Index, Shift, T;
    Constants2();
    var a, b, c, d := q.a, q.b, q.c, q.d;
    a := Mix(G(b, c, d), a, b, x[1], 5, 4129170786);
    d := Mix(G(a, b, c), d, a, x[6], 9, 3225465664);
    c := Mix(G(d, a, b), c, d, x[11], 14, 643717713);
    b := Mix(G(c, d, a), b, c, x[0], 20, 3921069994);
    FourSteps(start, x, 16);
    assert Quad(a, b, c, d) == Steps(start, x, 20);
    a := Mix(G(b, c, d), a, b, x[5], 5, 3593408605);
    d := Mix(G(a, b, c), d, a, x[10], 9, 38016083);
    c := Mix(G(d, a, b), c, d, x[15], 14, 3634488961);
    b := Mix(G(c, d, a), b, c, x[4], 20, 3889429448);
    FourSteps(start, x, 20);
    assert Quad(a, b, c, d) == Steps(start, x, 24);
    a := Mix(G(b, c, d), a, b, x[9], 5, 568446438);
    d := Mix(G(a, b, c), d, a, x[14], 9, 3275163606);
    c := Mix(G(d, a, b), c, d, x[3], 14, 4107603335);
    b := Mix(G(c, d, a), b, c, x[8], 20, 1163531501);
    FourSteps(start, x, 24);
    assert Quad(a, b, c, d) == Steps(start, x, 28);
    a := Mix(G(b, c, d), a, b, x[13], 5, 2850285829);
    d := Mix(G(a, b, c), d, a, x[2], 9, 4243563512);
    c := Mix(G(d, a, b), c, d, x[7], 14, 1735328473);
    b := Mix(G(c, d, a), b, c, x[12], 20, 2368359562);
    FourSteps(start, x, 28);
    assert Quad(a, b, c, d) == Steps(start, x, 32);
    r := Quad(a, b, c, d);
  }

  /** What the code writes out for the steps of round 3. */
  lemma {:induction false} Constants3()
    ensures Index(32) == 5 && Shift(32) == 4 && T(32) == 4294588738 && Index(33) == 8 && Shift(33) == 11 && T(33) == 2272392833
    ensures Index(34) == 11 && Shift(34) == 16 && T(34) == 1839030562 && Index(35) == 14 && Shift(35) == 23 && T(35) == 4259657740
    ensures Index(36) == 1 && Shift(36) == 4 && T(36) == 2763975236 && Index(37) == 4 && Shift(37) == 11 && T(37) == 1272893353
    ensures Index(38) == 7 && Shift(38) == 16 && T(38) == 4139469664 && Index(39) == 10 && Shift(39) == 23 && T(39) == 3200236656
    ensures Index(40) == 13 && Shift(40) == 4 && T(40) == 681279174 && Index(41) == 0 && Shift(41) == 11 && T(41) == 3936430074
    ensures Index(42) == 3 && Shift(42) == 16 && T(42) == 3572445317 && Index(43) == 6 && Shift(43) == 23 && T(43) == 76029189
    ensures Index(44) == 9 && Shift(44) == 4 && T(44) == 3654602809 && Index(45) == 12 && Shift(45) == 11 && T(45) == 3873151461
    ensures Index(46) == 15 && Shift(46) == 16 && T(46) == 530742520 && Index(47) == 2 && Shift(47) == 23 && T(47) == 3299628645
  {
  }

  /** Round 3 of `MD5_Transform` */
  method Round3(q: Quad, x: seq<Word>, ghost start: Quad) returns (r: Quad)
    requires |x| == 16 && q == Steps(start, x, 32)
    ensures r == Steps(start, x, 48)
  {
    hide Steps, Mix, F, G, H, I, Index, Shift, T;
    Constants3();
    var a, b, c, d := q.a, q.b, q.c, q.d;
    a := Mix(H(b, c, d), a, b, x[5], 4, 4294588738);
    d := Mix(H(a, b, c), d, a, x[8], 11, 2272392833);
    c := Mix(H(d, a, b), c, d, x[11], 16, 1839030562);
    b := Mix(H(c, d, a), b, c, x[14], 23, 4259657740);
    FourSteps(start, x, 32);
    assert Quad(a, b, c, d) == Steps(start, x, 36);
    a := Mix(H(b, c, d), a, b, x[1], 4, 2763975236);
    d := Mix(H(a, b, c), d, a, x[4], 11, 1272893353);
    c := Mix(H(d, a, b), c, d, x[7], 16, 4139469664);
    b := Mix(H(c, d, a), b, c, x[10], 23, 3200236656);
    FourSteps(start, x, 36);
    assert Quad(a, b, c, d) == Steps(start, x, 40);
    a := Mix(H(b, c, d), a, b, x[13], 4, 681279174);
    d := Mix(H(a, b, c), d, a, x[0], 11, 3936430074);
    c := Mix(H(d, a, b), c, d, x[3], 16, 3572445317);
    b := Mix(H(c, d, a), b, c, x[6], 23, 76029189);
    FourSteps(start, x, 40);
    assert Quad(a, b, c, d) == Steps(start, x, 44);
    a := Mix(H(b, c, d), a, b, x[9], 4, 3654602809);
    d := Mix(H(a, b, c), d, a, x[12], 11, 3873151461);
    c := Mix(H(d, a, b), c, d, x[15], 16, 530742520);
    b := Mix(H(c, d, a), b, c, x[2], 23, 3299628645);
    FourSteps(start, x, 44);
    assert Quad(a, b, c, d) == Steps(start, x, 48);
    r := Quad(a, b, c, d);
  }

  /** What the code writes out for the steps of round 4. */
  lemma {:induction false} Constants4()
    ensures Index(48) == 0 && Shift(48) == 6 && T(48) == 4096336452 && Index(49) == 7 && Shift(49) == 10 && T(49) == 1126891415
    ensures Index(50) == 14 && Shift(50) == 15 && T(50) == 2878612391 && Index(51) == 5 && Shift(51) == 21 && T(51) == 4237533241
    ensures Index(52) == 12 && Shift(52) == 6 && T(52) == 1700485571 && Index(53) == 3 && Shift(53) == 10 && T(53) == 2399980690
    ensures Index(54) == 10 && Shift(54) == 15 && T(54) == 4293915773 && Index(55) == 1 && Shift(55) == 21 && T(55) == 2240044497
    ensures Index(56) == 8 && Shift(56) == 6 && T(56) == 1873313359 && Index(57) == 15 && Shift(57) == 10 && T(57) == 4264355552
    ensures Index(58) == 6 && Shift(58) == 15 && T(58) == 2734768916 && Index(59) == 13 && Shift(59) == 21 && T(59) == 1309151649
    ensures Index(60) == 4 && Shift(60) == 6 && T(60) == 4149444226 && Index(61) == 11 && Shift(61) == 10 && T(61) == 3174756917
    ensures Index(62) == 2 && Shift(62) == 15 && T(62) == 718787259 && Index(63) == 9 && Shift(63) == 21 && T(63) == 3951481745
  {
  }

  /** Round 4 of `MD5_Transform` */
  method Round4(q: Quad, x: seq<Word>, ghost start: Quad) returns (r: Quad)
    requires |x| == 16 && q == Steps(start, x, 48)
    ensures r == Steps(start, x, 64)
  {
    hide Steps, Mix, F, G, H, I, Index, Shift, T;
    Constants4();
    var a, b, c, d := q.a, q.b, q.c, q.d;
    a := Mix(I(b, c, d), a, b, x[0], 6, 4096336452);
    d := Mix(I(a, b, c), d, a, x[7], 10, 1126891415);
    c := Mix(I(d, a, b), c, d, x[14], 15, 2878612391);
    b := Mix(I(c, d, a), b, c, x[5], 21, 4237533241);
    FourSteps(start, x, 48);
    assert Quad(a, b, c, d) == Steps(start, x, 52);
    a := Mix(I(b, c, d), a, b, x[12], 6, 1700485571);
    d := Mix(I(a, b, c), d, a, x[3], 10, 2399980690);
    c := Mix(I(d, a, b), c, d, x[10], 15, 4293915773);
    b := Mix(I(c, d, a), b, c, x[1], 21, 2240044497);
    FourSteps(start, x, 52);
    assert Quad(a, b, c, d) == Steps(start, x, 56);
    a := Mix(I(b, c, d), a, b, x[8], 6, 1873313359);
    d := Mix(I(a, b, c), d, a, x[15], 10, 4264355552);
    c := Mix(I(d, a, b), c, d, x[6], 15, 2734768916);
    b := Mix(I(c, d, a), b, c, x[13], 21, 1309151649);
    FourSteps(start, x, 56);
    assert Quad(a, b, c, d) == Steps(start, x, 60);
    a := Mix(I(b, c, d), a, b, x[4], 6, 4149444226);
    d := Mix(I(a, b, c), d, a, x[11], 10, 3174756917);
    c := Mix(I(d, a, b), c, d, x[2], 15, 718787259);
    b := Mix(I(c, d, a), b, c, x[9], 21, 3951481745);
    FourSteps(start, x, 60);
    assert Quad(a, b, c, d) == Steps(start, x, 64);
    r := Quad(a, b, c, d);
  }

  lemma {:induction false} NoStep(q: Quad, x: seq<Word>)
    requires |x| == 16
    ensures Steps(q, x, 0) == q
  {
  }

  /** `MD5_Transform`: the four unrolled rounds are the 64 steps of the definition. */
  method Transform(buf: Quad, x: seq<Word>) returns (r: Quad)
    requires |x| == 16
    ensures r == Compress(buf, x)
  {
    hide Turn, Steps, Plus;
    NoStep(buf, x);
    var q := Round1(buf, x, buf);
    q := Round2(q, x, buf);
    q := Round3(q, x, buf);
    q := Round4(q, x, buf);
    r := Plus(buf, q);
  }
}
