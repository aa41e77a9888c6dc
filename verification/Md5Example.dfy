/** A message worked through by hand: the digest of "abc" is the one section A.5 of RFC 1321 gives, so every
    constant, shift, order and octet of the definition is the right one. */
module Md5Example {
  import opened Arithmetic
  import opened Md5
  import opened Md5Block

  const ABC: seq<Octet> := [0x61, 0x62, 0x63]

  const BLOCK: seq<Word> := [0x80636261, 0, 0, 0, 0, 0, 0, 0, 0, 0, 0, 0, 0, 0, 24, 0]

  lemma {:induction false} TurnOf(q: Quad, n: nat, f: Word, x: Word, t: Word, s: nat, r: Word)
    requires Auxiliary(n, q.b, q.c, q.d) == f && Index(n) < 16 && BLOCK[Index(n)] == x && T(n) == t && Shift(n) == s <= 32
    requires Mix(f, q.a, q.b, x, s, t) == r
    ensures Turn(q, BLOCK, n) == Quad(q.d, r, q.b, q.c)
  {
    hide Auxiliary, Index, T, Shift, Mix;
  }

  lemma {:induction false} Mixed0()
    ensures F(0xefcdab89, 0x98badcfe, 0x10325476) == 0x98badcfe
    ensures Mix(0x98badcfe, 0x67452301, 0xefcdab89, 0x80636261, 7, 0xd76aa478) == 0xd6d117b4
    ensures F(0xd6d117b4, 0xefcdab89, 0x98badcfe) == 0xceebcbca
    ensures Mix(0xceebcbca, 0x10325476, 0xd6d117b4, 0x00000000, 12, 0xe8c7b756) == 0x344a8432
  {
  }

  lemma {:induction false} Mixed2()
    ensures F(0x344a8432, 0xd6d117b4, 0xefcdab89) == 0xdfc52fb9
    ensures Mix(0xdfc52fb9, 0x98badcfe, 0x344a8432, 0x00000000, 17, 0x242070db) == 0x2f6fbd72
    ensures F(0x2f6fbd72, 0x344a8432, 0xd6d117b4) == 0xf4da86b6
    ensures Mix(0xf4da86b6, 0xefcdab89, 0x2f6fbd72, 0x00000000, 22, 0xc1bdceee) == 0x7ad956f2
  {
  }

  lemma {:induction false} Mixed4()
    ensures F(0x7ad956f2, 0x2f6fbd72, 0x344a8432) == 0x2e4b9472
    ensures Mix(0x2e4b9472, 0xd6d117b4, 0x7ad956f2, 0x00000000, 7, 0xf57c0faf) == 0xc73741ef
    ensures F(0xc73741ef, 0x7ad956f2, 0x2f6fbd72) == 0x6a59fcf2
    ensures Mix(0x6a59fcf2, 0x344a8432, 0xc73741ef, 0x00000000, 12, 0x4787c62a) == 0x8bac3051
  {
  }

  lemma {:induction false} Mixed6()
    ensures F(0x8bac3051, 0xc73741ef, 0x7ad956f2) == 0xf37546e3
    ensures Mix(0xf37546e3, 0x2f6fbd72, 0x8bac3051, 0x00000000, 17, 0xa8304613) == 0x207dc67b
    ensures F(0x207dc67b, 0x8bac3051, 0xc73741ef) == 0xc72e01d5
    ensures Mix(0xc72e01d5, 0x7ad956f2, 0x207dc67b, 0x00000000, 22, 0xfd469501) == 0x928d99f6
  {
  }

  lemma {:induction false} Mixed8()
    ensures F(0x928d99f6, 0x207dc67b, 0x8bac3051) == 0x092da073
    ensures Mix(0x092da073, 0xc73741ef, 0x928d99f6, 0x00000000, 7, 0x698098d8) == 0x854b3712
    ensures F(0x854b3712, 0x928d99f6, 0x207dc67b) == 0xa03dd17b
    ensures Mix(0xa03dd17b, 0x8bac3051, 0x854b3712, 0x00000000, 12, 0x8b44f7af) == 0x74e2f284
  {
  }

  lemma {:induction false} Mixed10()
    ensures F(0x74e2f284, 0x854b3712, 0x928d99f6) == 0x864f3b72
    ensures Mix(0x864f3b72, 0x207dc67b, 0x74e2f284, 0x00000000, 17, 0xffff5bb1) == 0x3020401c
    ensures F(0x3020401c, 0x74e2f284, 0x854b3712) == 0xb56b7706
    ensures Mix(0xb56b7706, 0x928d99f6, 0x3020401c, 0x00000000, 22, 0x895cd7be) == 0x5ed49596
  {
  }

  lemma {:induction false} Mixed12()
    ensures F(0x5ed49596, 0x3020401c, 0x74e2f284) == 0x30226214
    ensures Mix(0x30226214, 0x854b3712, 0x5ed49596, 0x00000000, 7, 0x6b901122) == 0xdda9b9a6
    ensures F(0xdda9b9a6, 0x5ed49596, 0x3020401c) == 0x7c80d19e
    ensures Mix(0x7c80d19e, 0x74e2f284, 0xdda9b9a6, 0x00000000, 12, 0xfd987193) == 0xa1051895
  {
  }

  lemma {:induction false} Mixed14()
    ensures F(0xa1051895, 0xdda9b9a6, 0x5ed49596) == 0xdfd19d86
    ensures Mix(0xdfd19d86, 0x3020401c, 0xa1051895, 0x00000018, 17, 0xa679438e) == 0xe396856b
    ensures F(0xe396856b, 0xa1051895, 0xdda9b9a6) == 0xbd2d3885
    ensures Mix(0xbd2d3885, 0x5ed49596, 0xe396856b, 0x00000000, 22, 0x49b40821) == 0x72aff2e0
  {
  }

  lemma {:induction false} Mixed16()
    ensures G(0x72aff2e0, 0xe396856b, 0xa1051895) == 0x629795ea
    ensures Mix(0x629795ea, 0xdda9b9a6, 0x72aff2e0, 0x00000000, 5, 0xf61e2562) == 0x3e9e9126
    ensures G(0x3e9e9126, 0x72aff2e0, 0xe396856b) == 0x32bff3a2
    ensures Mix(0x32bff3a2, 0xa1051895, 0x3e9e9126, 0x00000000, 9, 0xc040b340) == 0x4a1d804e
  {
  }

  lemma {:induction false} Mixed18()
    ensures G(0x4a1d804e, 0x3e9e9126, 0x72aff2e0) == 0x4e1d8146
    ensures Mix(0x4e1d8146, 0xe396856b, 0x4a1d804e, 0x00000000, 14, 0x265e5a51) == 0xe25e1652
    ensures G(0xe25e1652, 0x4a1d804e, 0x3e9e9126) == 0x621f104a
    ensures Mix(0x621f104a, 0x72aff2e0, 0xe25e1652, 0x80636261, 20, 0xe9b6c7aa) == 0xb5b204e4
  {
  }

  lemma {:induction false} Mixed20()
    ensures G(0xb5b204e4, 0xe25e1652, 0x4a1d804e) == 0xa0521654
    ensures Mix(0xa0521654, 0x3e9e9126, 0xb5b204e4, 0x00000000, 5, 0xd62f105d) == 0x59a8ffda
    ensures G(0x59a8ffda, 0xb5b204e4, 0xe25e1652) == 0x55a816f6
    ensures Mix(0x55a816f6, 0x4a1d804e, 0x59a8ffda, 0x00000000, 9, 0x02441453) == 0x6d002f1e
  {
  }

  lemma {:induction false} Mixed22()
    ensures G(0x6d002f1e, 0x59a8ffda, 0xb5b204e4) == 0x6d08ff1e
    ensures Mix(0x6d08ff1e, 0xe25e1652, 0x6d002f1e, 0x00000000, 14, 0xd8a1e681) == 0xabfc7920
    ensures G(0xabfc7920, 0x6d002f1e, 0x59a8ffda) == 0x2da87904
    ensures Mix(0x2da87904, 0xb5b204e4, 0xabfc7920, 0x00000000, 20, 0xe7d3fbc8) == 0x47092c07
  {
  }

  lemma {:induction false} Mixed24()
    ensures G(0x47092c07, 0xabfc7920, 0x6d002f1e) == 0xc7fc7c26
    ensures Mix(0xc7fc7c26, 0x59a8ffda, 0x47092c07, 0x00000000, 5, 0x21e1cde6) == 0xb7f268cf
    ensures G(0xb7f268cf, 0x47092c07, 0xabfc7920) == 0xe7f16c07
    ensures Mix(0xe7f16c07, 0x6d002f1e, 0xb7f268cf, 0x00000018, 9, 0xc33707d6) == 0x09388eff
  {
  }

  lemma {:induction false} Mixed26()
    ensures G(0x09388eff, 0xb7f268cf, 0x47092c07) == 0xb1fa4ccf
    ensures Mix(0xb1fa4ccf, 0xabfc7920, 0x09388eff, 0x00000000, 14, 0xf4d50d87) == 0xfe1623b1
    ensures G(0xfe1623b1, 0x09388eff, 0xb7f268cf) == 0xbe1aa6b1
    ensures Mix(0xbe1aa6b1, 0x47092c07, 0xfe1623b1, 0x00000000, 20, 0x455a14ed) == 0x786acb8f
  {
  }

  lemma {:induction false} Mixed28()
    ensures G(0x786acb8f, 0xfe1623b1, 0x09388eff) == 0xfe2eab8f
    ensures Mix(0xfe2eab8f, 0xb7f268cf, 0x786acb8f, 0x00000000, 5, 0xa9e3e905) == 0x790a77fb
    ensures G(0x790a77fb, 0x786acb8f, 0xfe1623b1) == 0x786aebbf
    ensures Mix(0x786aebbf, 0x09388eff, 0x790a77fb, 0x00000000, 9, 0xfcefa3f8) == 0x9f47e4f8
  {
  }

  lemma {:induction false} Mixed30()
    ensures G(0x9f47e4f8, 0x790a77fb, 0x786acb8f) == 0x1942f4f8
    ensures Mix(0x1942f4f8, 0xfe1623b1, 0x9f47e4f8, 0x00000000, 14, 0x676f02d9) == 0xa62884aa
    ensures G(0xa62884aa, 0x9f47e4f8, 0x790a77fb) == 0xa64d84aa
    ensures Mix(0xa64d84aa, 0x786acb8f, 0xa62884aa, 0x00000000, 20, 0x8d2a4c8a) == 0x726342d3
  {
  }

  lemma {:induction false} Mixed32()
    ensures H(0x726342d3, 0xa62884aa, 0x9f47e4f8) == 0x4b0c2281
    ensures Mix(0x4b0c2281, 0x790a77fb, 0x726342d3, 0x00000000, 4, 0xfffa3942) == 0xb3707ebf
    ensures H(0xb3707ebf, 0x726342d3, 0xa62884aa) == 0x673bb8c6
    ensures Mix(0x673bb8c6, 0x9f47e4f8, 0xb3707ebf, 0x00000000, 11, 0x8771f681) == 0x60127b2e
  {
  }

  lemma {:induction false} Mixed34()
    ensures H(0x60127b2e, 0xb3707ebf, 0x726342d3) == 0xa1014742
    ensures Mix(0xa1014742, 0xa62884aa, 0x60127b2e, 0x00000000, 16, 0x6d9d6122) == 0x8d212ff5
    ensures H(0x8d212ff5, 0x60127b2e, 0xb3707ebf) == 0x5e432a64
    ensures Mix(0x5e432a64, 0x726342d3, 0x8d212ff5, 0x00000018, 23, 0xfde5380c) == 0x3b0875c7
  {
  }

  lemma {:induction false} Mixed36()
    ensures H(0x3b0875c7, 0x8d212ff5, 0x60127b2e) == 0xd63b211c
    ensures Mix(0xd63b211c, 0xb3707ebf, 0x3b0875c7, 0x00000000, 4, 0xa4beea44) == 0x21b117b9
    ensures H(0x21b117b9, 0x3b0875c7, 0x8d212ff5) == 0x97984d8b
    ensures Mix(0x97984d8b, 0x60127b2e, 0x21b117b9, 0x00000000, 11, 0x4bdecfa9) == 0x6e7429d5
  {
  }

  lemma {:induction false} Mixed38()
    ensures H(0x6e7429d5, 0x21b117b9, 0x3b0875c7) == 0x74cd4bab
    ensures Mix(0x74cd4bab, 0x8d212ff5, 0x6e7429d5, 0x00000000, 16, 0xf6bb4b60) == 0x3575227e
    ensures H(0x3575227e, 0x6e7429d5, 0x21b117b9) == 0x7ab01c12
    ensures Mix(0x7ab01c12, 0x3b0875c7, 0x3575227e, 0x00000000, 23, 0xbebfbc70) == 0x5a2f5ea5
  {
  }

  lemma {:induction false} Mixed40()
    ensures H(0x5a2f5ea5, 0x3575227e, 0x6e7429d5) == 0x012e550e
    ensures Mix(0x012e550e, 0x21b117b9, 0x5a2f5ea5, 0x00000000, 4, 0x289b7ec6) == 0x11de1779
    ensures H(0x11de1779, 0x5a2f5ea5, 0x3575227e) == 0x7e846ba2
    ensures Mix(0x7e846ba2, 0x6e7429d5, 0x11de1779, 0x80636261, 11, 0xeaa127fa) == 0xfadcaa38
  {
  }

  lemma {:induction false} Mixed42()
    ensures H(0xfadcaa38, 0x11de1779, 0x5a2f5ea5) == 0xb12de3e4
    ensures Mix(0xb12de3e4, 0x3575227e, 0xfadcaa38, 0x00000000, 16, 0xd4ef3085) == 0x31c465ca
    ensures H(0x31c465ca, 0xfadcaa38, 0x11de1779) == 0xdac6d88b
    ensures Mix(0xdac6d88b, 0x5a2f5ea5, 0x31c465ca, 0x00000000, 23, 0x04881d05) == 0x4c6124f4
  {
  }

  lemma {:induction false} Mixed44()
    ensures H(0x4c6124f4, 0x31c465ca, 0xfadcaa38) == 0x8779eb06
    ensures Mix(0x8779eb06, 0x11de1779, 0x4c6124f4, 0x00000000, 4, 0xd9d4d039) == 0x7f2e507b
    ensures H(0x7f2e507b, 0x4c6124f4, 0x31c465ca) == 0x028b1145
    ensures Mix(0x028b1145, 0xfadcaa38, 0x7f2e507b, 0x00000000, 11, 0xe6db99e5) == 0x99d9679d
  {
  }

  lemma {:induction false} Mixed46()
    ensures H(0x99d9679d, 0x7f2e507b, 0x4c6124f4) == 0xaa961312
    ensures Mix(0xaa961312, 0x31c465ca, 0x99d9679d, 0x00000000, 16, 0x1fa27cf8) == 0x8fae6399
    ensures H(0x8fae6399, 0x99d9679d, 0x7f2e507b) == 0x6959547f
    ensures Mix(0x6959547f, 0x4c6124f4, 0x8fae6399, 0x00000000, 23, 0xc4ac5665) == 0x7beb9700
  {
  }

  lemma {:induction false} Mixed48()
    ensures I(0x7beb9700, 0x8fae6399, 0x99d9679d) == 0xf041fcfb
    ensures Mix(0xf041fcfb, 0x7f2e507b, 0x7beb9700, 0x80636261, 6, 0xf4292244) == 0x7b201df8
    ensures I(0x7b201df8, 0x7beb9700, 0x8fae6399) == 0x009a0afe
    ensures Mix(0x009a0afe, 0x99d9679d, 0x7b201df8, 0x00000000, 10, 0x432aff97) == 0xf4e8e96e
  {
  }

  lemma {:induction false} Mixed50()
    ensures I(0xf4e8e96e, 0x7b201df8, 0x7beb9700) == 0x8fdcf407
    ensures Mix(0x8fdcf407, 0x8fae6399, 0xf4e8e96e, 0x00000018, 15, 0xab9423a7) == 0xb298cefd
    ensures I(0xb298cefd, 0xf4e8e96e, 0x7b201df8) == 0x42370791
    ensures Mix(0x42370791, 0x7beb9700, 0xb298cefd, 0x00000000, 21, 0xfc93a039) == 0x8bf025c4
  {
  }

  lemma {:induction false} Mixed52()
    ensures I(0x8bf025c4, 0xb298cefd, 0xf4e8e96e) == 0x396ff928
    ensures Mix(0x396ff928, 0x7b201df8, 0x8bf025c4, 0x00000000, 6, 0x655b59c3) == 0x06cc5e8a
    ensures I(0x06cc5e8a, 0x8bf025c4, 0xb298cefd) == 0xc41f5a4e
    ensures Mix(0xc41f5a4e, 0xf4e8e96e, 0x06cc5e8a, 0x00000000, 10, 0x8f0ccc92) == 0x5b0d97aa
  {
  }

  lemma {:induction false} Mixed54()
    ensures I(0x5b0d97aa, 0x06cc5e8a, 0x8bf025c4) == 0x79c38131
    ensures Mix(0x79c38131, 0xb298cefd, 0x5b0d97aa, 0x00000000, 15, 0xffeff47d) == 0x7d632dd0
    ensures I(0x7d632dd0, 0x5b0d97aa, 0x06cc5e8a) == 0xa67e3a5f
    ensures Mix(0xa67e3a5f, 0x8bf025c4, 0x7d632dd0, 0x00000000, 21, 0x85845dd1) == 0x3bfa2c27
  {
  }

  lemma {:induction false} Mixed56()
    ensures I(0x3bfa2c27, 0x7d632dd0, 0x5b0d97aa) == 0xc29941a7
    ensures Mix(0xc29941a7, 0x06cc5e8a, 0x3bfa2c27, 0x00000000, 6, 0x6fa87e4f) == 0x7f81cc35
    ensures I(0x7f81cc35, 0x3bfa2c27, 0x7d632dd0) == 0xc467f218
    ensures Mix(0xc467f218, 0x5b0d97aa, 0x7f81cc35, 0x00000000, 10, 0xfe2ce6e0) == 0x094454ab
  {
  }

  lemma {:induction false} Mixed58()
    ensures I(0x094454ab, 0x7f81cc35, 0x3bfa2c27) == 0xb2c41bce
    ensures Mix(0xb2c41bce, 0x7d632dd0, 0x094454ab, 0x00000000, 15, 0xa3014314) == 0x4f9dbe3f
    ensures I(0x4f9dbe3f, 0x094454ab, 0x7f81cc35) == 0xc6bbeb54
    ensures Mix(0xc6bbeb54, 0x3bfa2c27, 0x4f9dbe3f, 0x00000000, 21, 0x4e0811a1) == 0x7327d604
  {
  }

  lemma {:induction false} Mixed60()
    ensures I(0x7327d604, 0x4f9dbe3f, 0x094454ab) == 0xb822416b
    ensures Mix(0xb822416b, 0x7f81cc35, 0x7327d604, 0x00000000, 6, 0xf7537e82) == 0x310ade8f
    ensures I(0x310ade8f, 0x7327d604, 0x4f9dbe3f) == 0xc24d09cb
    ensures Mix(0xc24d09cb, 0x094454ab, 0x310ade8f, 0x00000000, 10, 0xbd3af235) == 0x624d8cb2
  {
  }

  lemma {:induction false} Mixed62()
    ensures I(0x624d8cb2, 0x310ade8f, 0x7327d604) == 0xdfd77374
    ensures Mix(0xdfd77374, 0x4f9dbe3f, 0x624d8cb2, 0x00000000, 15, 0x2ad7d2bb) == 0xe484b9d8
    ensures I(0xe484b9d8, 0x624d8cb2, 0x310ade8f) == 0x8cb8354a
    ensures Mix(0x8cb8354a, 0x7327d604, 0xe484b9d8, 0x00000000, 21, 0xeb86d391) == 0xc08226b3
  {
  }

  lemma {:induction false} StepsTo4()
    ensures Steps(RFC_INITIAL, BLOCK, 4) == Quad(0xd6d117b4, 0x7ad956f2, 0x2f6fbd72, 0x344a8432)
  {
    hide Steps, Turn, T, Index, Shift, F, G, H, I, Mix;
    Constants1();
    Mixed0();
    Mixed2();
    TurnOf(Quad(0x67452301, 0xefcdab89, 0x98badcfe, 0x10325476), 0, 0x98badcfe, 0x80636261, 0xd76aa478, 7, 0xd6d117b4);
    TurnOf(Quad(0x10325476, 0xd6d117b4, 0xefcdab89, 0x98badcfe), 1, 0xceebcbca, 0x00000000, 0xe8c7b756, 12, 0x344a8432);
    TurnOf(Quad(0x98badcfe, 0x344a8432, 0xd6d117b4, 0xefcdab89), 2, 0xdfc52fb9, 0x00000000, 0x242070db, 17, 0x2f6fbd72);
    TurnOf(Quad(0xefcdab89, 0x2f6fbd72, 0x344a8432, 0xd6d117b4), 3, 0xf4da86b6, 0x00000000, 0xc1bdceee, 22, 0x7ad956f2);
    NoStep(RFC_INITIAL, BLOCK);
    FourSteps(RFC_INITIAL, BLOCK, 0);
  }

  lemma {:induction false} StepsTo8()
    ensures Steps(RFC_INITIAL, BLOCK, 8) == Quad(0xc73741ef, 0x928d99f6, 0x207dc67b, 0x8bac3051)
  {
    hide Steps, Turn, T, Index, Shift, F, G, H, I, Mix;
    Constants1();
    Mixed4();
    Mixed6();
    TurnOf(Quad(0xd6d117b4, 0x7ad956f2, 0x2f6fbd72, 0x344a8432), 4, 0x2e4b9472, 0x00000000, 0xf57c0faf, 7, 0xc73741ef);
    TurnOf(Quad(0x344a8432, 0xc73741ef, 0x7ad956f2, 0x2f6fbd72), 5, 0x6a59fcf2, 0x00000000, 0x4787c62a, 12, 0x8bac3051);
    TurnOf(Quad(0x2f6fbd72, 0x8bac3051, 0xc73741ef, 0x7ad956f2), 6, 0xf37546e3, 0x00000000, 0xa8304613, 17, 0x207dc67b);
    TurnOf(Quad(0x7ad956f2, 0x207dc67b, 0x8bac3051, 0xc73741ef), 7, 0xc72e01d5, 0x00000000, 0xfd469501, 22, 0x928d99f6);
    StepsTo4();
    FourSteps(RFC_INITIAL, BLOCK, 4);
  }

  lemma {:induction false} StepsTo12()
    ensures Steps(RFC_INITIAL, BLOCK, 12) == Quad(0x854b3712, 0x5ed49596, 0x3020401c, 0x74e2f284)
  {
    hide Steps, Turn, T, Index, Shift, F, G, H, I, Mix;
    Constants1();
    Mixed8();
    Mixed10();
    TurnOf(Quad(0xc73741ef, 0x928d99f6, 0x207dc67b, 0x8bac3051), 8, 0x092da073, 0x00000000, 0x698098d8, 7, 0x854b3712);
    TurnOf(Quad(0x8bac3051, 0x854b3712, 0x928d99f6, 0x207dc67b), 9, 0xa03dd17b, 0x00000000, 0x8b44f7af, 12, 0x74e2f284);
    TurnOf(Quad(0x207dc67b, 0x74e2f284, 0x854b3712, 0x928d99f6), 10, 0x864f3b72, 0x00000000, 0xffff5bb1, 17, 0x3020401c);
    TurnOf(Quad(0x928d99f6, 0x3020401c, 0x74e2f284, 0x854b3712), 11, 0xb56b7706, 0x00000000, 0x895cd7be, 22, 0x5ed49596);
    StepsTo8();
    FourSteps(RFC_INITIAL, BLOCK, 8);
  }

  lemma {:induction false} StepsTo16()
    ensures Steps(RFC_INITIAL, BLOCK, 16) == Quad(0xdda9b9a6, 0x72aff2e0, 0xe396856b, 0xa1051895)
  {
    hide Steps, Turn, T, Index, Shift, F, G, H, I, Mix;
    Constants1();
    Mixed12();
    Mixed14();
    TurnOf(Quad(0x854b3712, 0x5ed49596, 0x3020401c, 0x74e2f284), 12, 0x30226214, 0x00000000, 0x6b901122, 7, 0xdda9b9a6);
    TurnOf(Quad(0x74e2f284, 0xdda9b9a6, 0x5ed49596, 0x3020401c), 13, 0x7c80d19e, 0x00000000, 0xfd987193, 12, 0xa1051895);
    TurnOf(Quad(0x3020401c, 0xa1051895, 0xdda9b9a6, 0x5ed49596), 14, 0xdfd19d86, 0x00000018, 0xa679438e, 17, 0xe396856b);
    TurnOf(Quad(0x5ed49596, 0xe396856b, 0xa1051895, 0xdda9b9a6), 15, 0xbd2d3885, 0x00000000, 0x49b40821, 22, 0x72aff2e0);
    StepsTo12();
    FourSteps(RFC_INITIAL, BLOCK, 12);
  }

  lemma {:induction false} StepsTo20()
    ensures Steps(RFC_INITIAL, BLOCK, 20) == Quad(0x3e9e9126, 0xb5b204e4, 0xe25e1652, 0x4a1d804e)
  {
    hide Steps, Turn, T, Index, Shift, F, G, H, I, Mix;
    Constants2();
    Mixed16();
    Mixed18();
    TurnOf(Quad(0xdda9b9a6, 0x72aff2e0, 0xe396856b, 0xa1051895), 16, 0x629795ea, 0x00000000, 0xf61e2562, 5, 0x3e9e9126);
    TurnOf(Quad(0xa1051895, 0x3e9e9126, 0x72aff2e0, 0xe396856b), 17, 0x32bff3a2, 0x00000000, 0xc040b340, 9, 0x4a1d804e);
    TurnOf(Quad(0xe396856b, 0x4a1d804e, 0x3e9e9126, 0x72aff2e0), 18, 0x4e1d8146, 0x00000000, 0x265e5a51, 14, 0xe25e1652);
    TurnOf(Quad(0x72aff2e0, 0xe25e1652, 0x4a1d804e, 0x3e9e9126), 19, 0x621f104a, 0x80636261, 0xe9b6c7aa, 20, 0xb5b204e4);
    StepsTo16();
    FourSteps(RFC_INITIAL, BLOCK, 16);
  }

  lemma {:induction false} StepsTo24()
    ensures Steps(RFC_INITIAL, BLOCK, 24) == Quad(0x59a8ffda, 0x47092c07, 0xabfc7920, 0x6d002f1e)
  {
    hide Steps, Turn, T, Index, Shift, F, G, H, I, Mix;
    Constants2();
    Mixed20();
    Mixed22();
    TurnOf(Quad(0x3e9e9126, 0xb5b204e4, 0xe25e1652, 0x4a1d804e), 20, 0xa0521654, 0x00000000, 0xd62f105d, 5, 0x59a8ffda);
    TurnOf(Quad(0x4a1d804e, 0x59a8ffda, 0xb5b204e4, 0xe25e1652), 21, 0x55a816f6, 0x00000000, 0x02441453, 9, 0x6d002f1e);
    TurnOf(Quad(0xe25e1652, 0x6d002f1e, 0x59a8ffda, 0xb5b204e4), 22, 0x6d08ff1e, 0x00000000, 0xd8a1e681, 14, 0xabfc7920);
    TurnOf(Quad(0xb5b204e4, 0xabfc7920, 0x6d002f1e, 0x59a8ffda), 23, 0x2da87904, 0x00000000, 0xe7d3fbc8, 20, 0x47092c07);
    StepsTo20();
    FourSteps(RFC_INITIAL, BLOCK, 20);
  }

  lemma {:induction false} StepsTo28()
    ensures Steps(RFC_INITIAL, BLOCK, 28) == Quad(0xb7f268cf, 0x786acb8f, 0xfe1623b1, 0x09388eff)
  {
    hide Steps, Turn, T, Index, Shift, F, G, H, I, Mix;
    Constants2();
    Mixed24();
    Mixed26();
    TurnOf(Quad(0x59a8ffda, 0x47092c07, 0xabfc7920, 0x6d002f1e), 24, 0xc7fc7c26, 0x00000000, 0x21e1cde6, 5, 0xb7f268cf);
    TurnOf(Quad(0x6d002f1e, 0xb7f268cf, 0x47092c07, 0xabfc7920), 25, 0xe7f16c07, 0x00000018, 0xc33707d6, 9, 0x09388eff);
    TurnOf(Quad(0xabfc7920, 0x09388eff, 0xb7f268cf, 0x47092c07), 26, 0xb1fa4ccf, 0x00000000, 0xf4d50d87, 14, 0xfe1623b1);
    TurnOf(Quad(0x47092c07, 0xfe1623b1, 0x09388eff, 0xb7f268cf), 27, 0xbe1aa6b1, 0x00000000, 0x455a14ed, 20, 0x786acb8f);
    StepsTo24();
    FourSteps(RFC_INITIAL, BLOCK, 24);
  }

  lemma {:induction false} StepsTo32()
    ensures Steps(RFC_INITIAL, BLOCK, 32) == Quad(0x790a77fb, 0x726342d3, 0xa62884aa, 0x9f47e4f8)
  {
    hide Steps, Turn, T, Index, Shift, F, G, H, I, Mix;
    Constants2();
    Mixed28();
    Mixed30();
    TurnOf(Quad(0xb7f268cf, 0x786acb8f, 0xfe1623b1, 0x09388eff), 28, 0xfe2eab8f, 0x00000000, 0xa9e3e905, 5, 0x790a77fb);
    TurnOf(Quad(0x09388eff, 0x790a77fb, 0x786acb8f, 0xfe1623b1), 29, 0x786aebbf, 0x00000000, 0xfcefa3f8, 9, 0x9f47e4f8);
    TurnOf(Quad(0xfe1623b1, 0x9f47e4f8, 0x790a77fb, 0x786acb8f), 30, 0x1942f4f8, 0x00000000, 0x676f02d9, 14, 0xa62884aa);
    TurnOf(Quad(0x786acb8f, 0xa62884aa, 0x9f47e4f8, 0x790a77fb), 31, 0xa64d84aa, 0x00000000, 0x8d2a4c8a, 20, 0x726342d3);
    StepsTo28();
    FourSteps(RFC_INITIAL, BLOCK, 28);
  }

  lemma {:induction false} StepsTo36()
    ensures Steps(RFC_INITIAL, BLOCK, 36) == Quad(0xb3707ebf, 0x3b0875c7, 0x8d212ff5, 0x60127b2e)
  {
    hide Steps, Turn, T, Index, Shift, F, G, H, I, Mix;
    Constants3();
    Mixed32();
    Mixed34();
    TurnOf(Quad(0x790a77fb, 0x726342d3, 0xa62884aa, 0x9f47e4f8), 32, 0x4b0c2281, 0x00000000, 0xfffa3942, 4, 0xb3707ebf);
    TurnOf(Quad(0x9f47e4f8, 0xb3707ebf, 0x726342d3, 0xa62884aa), 33, 0x673bb8c6, 0x00000000, 0x8771f681, 11, 0x60127b2e);
    TurnOf(Quad(0xa62884aa, 0x60127b2e, 0xb3707ebf, 0x726342d3), 34, 0xa1014742, 0x00000000, 0x6d9d6122, 16, 0x8d212ff5);
    TurnOf(Quad(0x726342d3, 0x8d212ff5, 0x60127b2e, 0xb3707ebf), 35, 0x5e432a64, 0x00000018, 0xfde5380c, 23, 0x3b0875c7);
    StepsTo32();
    FourSteps(RFC_INITIAL, BLOCK, 32);
  }

  lemma {:induction false} StepsTo40()
    ensures Steps(RFC_INITIAL, BLOCK, 40) == Quad(0x21b117b9, 0x5a2f5ea5, 0x3575227e, 0x6e7429d5)
  {
    hide Steps, Turn, T, Index, Shift, F, G, H, I, Mix;
    Constants3();
    Mixed36();
    Mixed38();
    TurnOf(Quad(0xb3707ebf, 0x3b0875c7, 0x8d212ff5, 0x60127b2e), 36, 0xd63b211c, 0x00000000, 0xa4beea44, 4, 0x21b117b9);
    TurnOf(Quad(0x60127b2e, 0x21b117b9, 0x3b0875c7, 0x8d212ff5), 37, 0x97984d8b, 0x00000000, 0x4bdecfa9, 11, 0x6e7429d5);
    TurnOf(Quad(0x8d212ff5, 0x6e7429d5, 0x21b117b9, 0x3b0875c7), 38, 0x74cd4bab, 0x00000000, 0xf6bb4b60, 16, 0x3575227e);
    TurnOf(Quad(0x3b0875c7, 0x3575227e, 0x6e7429d5, 0x21b117b9), 39, 0x7ab01c12, 0x00000000, 0xbebfbc70, 23, 0x5a2f5ea5);
    StepsTo36();
    FourSteps(RFC_INITIAL, BLOCK, 36);
  }

  lemma {:induction false} StepsTo44()
    ensures Steps(RFC_INITIAL, BLOCK, 44) == Quad(0x11de1779, 0x4c6124f4, 0x31c465ca, 0xfadcaa38)
  {
    hide Steps, Turn, T, Index, Shift, F, G, H, I, Mix;
    Constants3();
    Mixed40();
    Mixed42();
    TurnOf(Quad(0x21b117b9, 0x5a2f5ea5, 0x3575227e, 0x6e7429d5), 40, 0x012e550e, 0x00000000, 0x289b7ec6, 4, 0x11de1779);
    TurnOf(Quad(0x6e7429d5, 0x11de1779, 0x5a2f5ea5, 0x3575227e), 41, 0x7e846ba2, 0x80636261, 0xeaa127fa, 11, 0xfadcaa38);
    TurnOf(Quad(0x3575227e, 0xfadcaa38, 0x11de1779, 0x5a2f5ea5), 42, 0xb12de3e4, 0x00000000, 0xd4ef3085, 16, 0x31c465ca);
    TurnOf(Quad(0x5a2f5ea5, 0x31c465ca, 0xfadcaa38, 0x11de1779), 43, 0xdac6d88b, 0x00000000, 0x04881d05, 23, 0x4c6124f4);
    StepsTo40();
    FourSteps(RFC_INITIAL, BLOCK, 40);
  }

  lemma {:induction false} StepsTo48()
    ensures Steps(RFC_INITIAL, BLOCK, 48) == Quad(0x7f2e507b, 0x7beb9700, 0x8fae6399, 0x99d9679d)
  {
    hide Steps, Turn, T, Index, Shift, F, G, H, I, Mix;
    Constants3();
    Mixed44();
    Mixed46();
    TurnOf(Quad(0x11de1779, 0x4c6124f4, 0x31c465ca, 0xfadcaa38), 44, 0x8779eb06, 0x00000000, 0xd9d4d039, 4, 0x7f2e507b);
    TurnOf(Quad(0xfadcaa38, 0x7f2e507b, 0x4c6124f4, 0x31c465ca), 45, 0x028b1145, 0x00000000, 0xe6db99e5, 11, 0x99d9679d);
    TurnOf(Quad(0x31c465ca, 0x99d9679d, 0x7f2e507b, 0x4c6124f4), 46, 0xaa961312, 0x00000000, 0x1fa27cf8, 16, 0x8fae6399);
    TurnOf(Quad(0x4c6124f4, 0x8fae6399, 0x99d9679d, 0x7f2e507b), 47, 0x6959547f, 0x00000000, 0xc4ac5665, 23, 0x7beb9700);
    StepsTo44();
    FourSteps(RFC_INITIAL, BLOCK, 44);
  }

  lemma {:induction false} StepsTo52()
    ensures Steps(RFC_INITIAL, BLOCK, 52) == Quad(0x7b201df8, 0x8bf025c4, 0xb298cefd, 0xf4e8e96e)
  {
    hide Steps, Turn, T, Index, Shift, F, G, H, I, Mix;
    Constants4();
    Mixed48();
    Mixed50();
    TurnOf(Quad(0x7f2e507b, 0x7beb9700, 0x8fae6399, 0x99d9679d), 48, 0xf041fcfb, 0x80636261, 0xf4292244, 6, 0x7b201df8);
    TurnOf(Quad(0x99d9679d, 0x7b201df8, 0x7beb9700, 0x8fae6399), 49, 0x009a0afe, 0x00000000, 0x432aff97, 10, 0xf4e8e96e);
    TurnOf(Quad(0x8fae6399, 0xf4e8e96e, 0x7b201df8, 0x7beb9700), 50, 0x8fdcf407, 0x00000018, 0xab9423a7, 15, 0xb298cefd);
    TurnOf(Quad(0x7beb9700, 0xb298cefd, 0xf4e8e96e, 0x7b201df8), 51, 0x42370791, 0x00000000, 0xfc93a039, 21, 0x8bf025c4);
    StepsTo48();
    FourSteps(RFC_INITIAL, BLOCK, 48);
  }

  lemma {:induction false} StepsTo56()
    ensures Steps(RFC_INITIAL, BLOCK, 56) == Quad(0x06cc5e8a, 0x3bfa2c27, 0x7d632dd0, 0x5b0d97aa)
  {
    hide Steps, Turn, T, Index, Shift, F, G, H, I, Mix;
    Constants4();
    Mixed52();
    Mixed54();
    TurnOf(Quad(0x7b201df8, 0x8bf025c4, 0xb298cefd, 0xf4e8e96e), 52, 0x396ff928, 0x00000000, 0x655b59c3, 6, 0x06cc5e8a);
    TurnOf(Quad(0xf4e8e96e, 0x06cc5e8a, 0x8bf025c4, 0xb298cefd), 53, 0xc41f5a4e, 0x00000000, 0x8f0ccc92, 10, 0x5b0d97aa);
    TurnOf(Quad(0xb298cefd, 0x5b0d97aa, 0x06cc5e8a, 0x8bf025c4), 54, 0x79c38131, 0x00000000, 0xffeff47d, 15, 0x7d632dd0);
    TurnOf(Quad(0x8bf025c4, 0x7d632dd0, 0x5b0d97aa, 0x06cc5e8a), 55, 0xa67e3a5f, 0x00000000, 0x85845dd1, 21, 0x3bfa2c27);
    StepsTo52();
    FourSteps(RFC_INITIAL, BLOCK, 52);
  }

  lemma {:induction false} StepsTo60()
    ensures Steps(RFC_INITIAL, BLOCK, 60) == Quad(0x7f81cc35, 0x7327d604, 0x4f9dbe3f, 0x094454ab)
  {
    hide Steps, Turn, T, Index, Shift, F, G, H, I, Mix;
    Constants4();
    Mixed56();
    Mixed58();
    TurnOf(Quad(0x06cc5e8a, 0x3bfa2c27, 0x7d632dd0, 0x5b0d97aa), 56, 0xc29941a7, 0x00000000, 0x6fa87e4f, 6, 0x7f81cc35);
    TurnOf(Quad(0x5b0d97aa, 0x7f81cc35, 0x3bfa2c27, 0x7d632dd0), 57, 0xc467f218, 0x00000000, 0xfe2ce6e0, 10, 0x094454ab);
    TurnOf(Quad(0x7d632dd0, 0x094454ab, 0x7f81cc35, 0x3bfa2c27), 58, 0xb2c41bce, 0x00000000, 0xa3014314, 15, 0x4f9dbe3f);
    TurnOf(Quad(0x3bfa2c27, 0x4f9dbe3f, 0x094454ab, 0x7f81cc35), 59, 0xc6bbeb54, 0x00000000, 0x4e0811a1, 21, 0x7327d604);
    StepsTo56();
    FourSteps(RFC_INITIAL, BLOCK, 56);
  }

  lemma {:induction false} StepsTo64()
    ensures Steps(RFC_INITIAL, BLOCK, 64) == Quad(0x310ade8f, 0xc08226b3, 0xe484b9d8, 0x624d8cb2)
  {
    hide Steps, Turn, T, Index, Shift, F, G, H, I, Mix;
    Constants4();
    Mixed60();
    Mixed62();
    TurnOf(Quad(0x7f81cc35, 0x7327d604, 0x4f9dbe3f, 0x094454ab), 60, 0xb822416b, 0x00000000, 0xf7537e82, 6, 0x310ade8f);
    TurnOf(Quad(0x094454ab, 0x310ade8f, 0x7327d604, 0x4f9dbe3f), 61, 0xc24d09cb, 0x00000000, 0xbd3af235, 10, 0x624d8cb2);
    TurnOf(Quad(0x4f9dbe3f, 0x624d8cb2, 0x310ade8f, 0x7327d604), 62, 0xdfd77374, 0x00000000, 0x2ad7d2bb, 15, 0xe484b9d8);
    TurnOf(Quad(0x7327d604, 0xe484b9d8, 0x624d8cb2, 0x310ade8f), 63, 0x8cb8354a, 0x00000000, 0xeb86d391, 21, 0xc08226b3);
    StepsTo60();
    FourSteps(RFC_INITIAL, BLOCK, 60);
  }

  lemma {:induction false} PaddedAbc()
    ensures |Padded(ABC)| == 56 && Padded(ABC)[..4] == [0x61, 0x62, 0x63, 0x80] && forall i :: 4 <= i < 56 ==> Padded(ABC)[i] == 0
  {
    ZerosAre(52);
    var p := Padded(ABC);
    assert p == ABC + [0x80] + Zeros(52);
  }

  lemma {:induction false} ZerosAre(n: nat)
    ensures forall i :: 0 <= i < n ==> Zeros(n)[i] == 0
  {
    if n > 0 { ZerosAre(n - 1); }
  }

  lemma {:induction false} WordsOfAbc(n: nat)
    requires n <= 14
    ensures |Padded(ABC)| == 56 && Words(Padded(ABC), n) == BLOCK[..n]
  {
    PaddedAbc();
    hide Padded;
    if n > 0 {
      WordsOfAbc(n - 1);
      var p, k := Padded(ABC), 4 * (n - 1);
      if n == 1 {
        assert Decode(0x61, 0x62, 0x63, 0x80) == 0x80636261;
        assert p[0] == p[..4][0] && p[1] == p[..4][1] && p[2] == p[..4][2] && p[3] == p[..4][3];
      } else {
        assert Decode(0, 0, 0, 0) == 0;
        assert p[k] == 0 && p[k + 1] == 0 && p[k + 2] == 0 && p[k + 3] == 0;
      }
      hide Decode;
      assert BLOCK[..n] == BLOCK[..n - 1] + [BLOCK[n - 1]];
    }
  }

  lemma {:induction false} LengthOfAbc()
    ensures 8 * |ABC| % TWO_64 == 24 && ToWord(24) == 24 && ToWord(0) == 0 && 24 % TWO_32 == 24 && 24 / TWO_32 == 0
  {
  }

  lemma {:induction false} LastBlockOfAbc()
    ensures LastBlock(ABC) == BLOCK
  {
    hide Words, Padded, ToWord;
    WordsOfAbc(14);
    LengthOfAbc();
    var p := Padded(ABC);
    assert p[|p| - 56..] == p;
    assert LastBlock(ABC) == BLOCK[..14] + [24, 0];
  }

  /** "abc" in the test suite of the standard. */
  lemma {:induction false} DigestOfAbc()
    ensures Digest(RFC_INITIAL, ABC) ==
      [0x90, 0x01, 0x50, 0x98, 0x3c, 0xd2, 0x4f, 0xb0, 0xd6, 0x96, 0x3f, 0x7d, 0x28, 0xe1, 0x7f, 0x72]
  {
    LastBlockOfAbc();
    StepsTo64();
    PaddedAbc();
    hide Steps, LastBlock, Padded;
    var r := Compress(RFC_INITIAL, BLOCK);
    assert r == Quad(0x98500190, 0xb04fd23c, 0x7d3f96d6, 0x727fe128);
    assert Blocks(RFC_INITIAL, Padded(ABC)[..0]) == RFC_INITIAL;
    OctetsOf(r.a, r.b, r.c, r.d);
    assert Encode(0x98500190) == [0x90, 0x01, 0x50, 0x98];
    assert Encode(0xb04fd23c) == [0x3c, 0xd2, 0x4f, 0xb0];
    assert Encode(0x7d3f96d6) == [0xd6, 0x96, 0x3f, 0x7d];
    assert Encode(0x727fe128) == [0x28, 0xe1, 0x7f, 0x72];
  }

  lemma {:induction false} OctetsOf(a: Word, b: Word, c: Word, d: Word)
    ensures Octets([a, b, c, d]) == Encode(a) + Encode(b) + Encode(c) + Encode(d)
  {
    hide Encode;
    assert [a, b, c, d][..3] == [a, b, c] && [a, b, c][..2] == [a, b] && [a, b][..1] == [a] && [a][..0] == [];
    assert Octets([]) == [];
    assert Octets([a]) == [] + Encode(a) == Encode(a);
    assert Octets([a, b]) == Octets([a]) + Encode(b);
    assert Octets([a, b, c]) == Octets([a, b]) + Encode(c);
  }
}
