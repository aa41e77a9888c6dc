/** MD5 over a message that arrives in pieces (font/md5.cpp, font/md5.h), against sections 3.1 to 3.5 of
    RFC 1321. */
module Md5 {
  import opened Arithmetic
  import opened Md5Block

  type Octet = bv8

  const TWO_29: int := 0x2000_0000
  const TWO_64: int := 0x1_0000_0000_0000_0000

  // ----- the definition

  /** Four octets as a word, the low-order one first. */
  function Decode(b0: Octet, b1: Octet, b2: Octet, b3: Octet): Word {
    ((b3 as Word) << 24) | ((b2 as Word) << 16) | ((b1 as Word) << 8) | (b0 as Word)
  }

  /** The first `n` words of a run of octets. */
  function Words(s: seq<Octet>, n: nat): (w: seq<Word>)
    requires 4 * n <= |s|
    ensures |w| == n
  {
    if n == 0 then []
    else
      var k := 4 * (n - 1);
      Words(s, n - 1) + [Decode(s[k], s[k + 1], s[k + 2], s[k + 3])]
  }

  /** The state after all full blocks of a run of octets. */
  function Blocks(q: Quad, s: seq<Octet>): Quad
    decreases |s|
  {
    if |s| < 64 then q
    else
      var n := |s| - |s| % 64 - 64;
      Compress(Blocks(q, s[..n]), Words(s[n..n + 64], 16))
  }

  /** The padding: one 1 bit, and 0 bits up to 56 octets modulo 64. */
  function Zeros(n: nat): (z: seq<Octet>)
    ensures |z| == n
  {
    if n == 0 then [] else Zeros(n - 1) + [0]
  }

  function Padded(m: seq<Octet>): (p: seq<Octet>)
    ensures |p| % 64 == 56 && |p| >= 56 && |p| > |m|
  {
    m + [0x80] + Zeros((119 - |m| % 64) % 64)
  }

  function ToWord(n: nat): Word
    requires n < TWO_32
  {
    n as Word
  }

  /** The last block: the last 56 octets of the padded message and the length in bits, low-order word first. */
  function LastBlock(m: seq<Octet>): (w: seq<Word>)
    ensures |w| == 16
  {
    var p := Padded(m);
    var bits := 8 * |m| % TWO_64;
    Words(p[|p| - 56..], 14) + [ToWord(bits % TWO_32), ToWord(bits / TWO_32)]
  }

  function Encode(w: Word): (s: seq<Octet>)
    ensures |s| == 4
  {
    [(w & 0xFF) as Octet, ((w >> 8) & 0xFF) as Octet, ((w >> 16) & 0xFF) as Octet, ((w >> 24) & 0xFF) as Octet]
  }

  function Octets(w: seq<Word>): (s: seq<Octet>)
    ensures |s| == 4 * |w|
  {
    if w == [] then [] else Octets(w[..|w| - 1]) + Encode(w[|w| - 1])
  }

  /** The digest of a message from an initial state. */
  function Digest(q: Quad, m: seq<Octet>): seq<Octet> {
    var p := Padded(m);
    var r := Compress(Blocks(q, p[..|p| - 56]), LastBlock(m));
    Octets([r.a, r.b, r.c, r.d])
  }

  /** The initial state of RFC 1321. */
  const RFC_INITIAL: Quad := Quad(0x67452301, 0xefcdab89, 0x98badcfe, 0x10325476)

  // ----- lemmas

  lemma {:induction false} EncodeDecode(b0: Octet, b1: Octet, b2: Octet, b3: Octet)
    ensures Encode(Decode(b0, b1, b2, b3)) == [b0, b1, b2, b3]
  {
  }

  /** Only full blocks count. */
  lemma {:induction false} BlocksFull(q: Quad, s: seq<Octet>)
    ensures Blocks(q, s) == Blocks(q, s[..|s| - |s| % 64])
  {
    hide Compress, Words;
    var f := |s| - |s| % 64;
    if |s| >= 64 {
      var n := f - 64;
      assert s[..f][..n] == s[..n] && s[..f][n..n + 64] == s[n..n + 64];
      assert |s[..f]| % 64 == 0;
    } else {
      assert s[..f] == [];
    }
  }

  lemma {:induction false} BlocksLast(q: Quad, s: seq<Octet>)
    requires |s| >= 64 && |s| % 64 == 0
    ensures Blocks(q, s) == Compress(Blocks(q, s[..|s| - 64]), Words(s[|s| - 64..], 16))
  {
    assert s[|s| - 64..|s|] == s[|s| - 64..];
  }

  /** Completing a block compresses it. */
  lemma {:induction false} BlocksNext(q: Quad, s: seq<Octet>, o: Octet)
    ensures Blocks(q, s + [o]) ==
      if |s| % 64 == 63 then Compress(Blocks(q, s), Words((s + [o])[|s| - 63..], 16)) else Blocks(q, s)
  {
    hide Words, Compress, Blocks;
    var t := s + [o];
    BlocksFull(q, s);
    if |s| % 64 == 63 {
      var k := |s| / 64;
      DivUnique(|t|, 64, k + 1, 0);
      var n := 64 * k;
      assert |s| - |s| % 64 == n && |t| - 64 == n;
      assert s[..n] == t[..n] && t[n..n + 64] == t[n..];
      BlocksLast(q, t);
    } else {
      BlocksFull(q, t);
      var k, r := |s| / 64, |s| % 64;
      DivUnique(|t|, 64, k, r + 1);
      assert s[..64 * k] == t[..64 * k];
    }
  }

  /** Arithmetic of 32-bit words. */
  function Wrap(n: nat): (w: nat)
    ensures w < TWO_32
  {
    n % TWO_32
  }

  /** The counter of bits, in two words with the carry found by wrap-around, is the count modulo 2^64. */
  lemma {:induction false} CounterAdds(i0: nat, i1: nat, n: nat, len: nat)
    requires i0 < TWO_32 && i1 < TWO_32 && i1 * TWO_32 + i0 == 8 * n % TWO_64 && len < TWO_32
    ensures
      var sum := Wrap(i0 + Wrap(8 * len));
      var carried := if sum < i0 then Wrap(i1 + 1) else i1;
      Wrap(carried + len / TWO_29) * TWO_32 + sum == 8 * (n + len) % TWO_64
  {
    var low, high := 8 * len % TWO_32, len / TWO_29;
    HighPart(len);
    var sum := (i0 + low) % TWO_32;
    var carry := if sum < i0 then 1 else 0;
    assert i0 + low == carry * TWO_32 + sum;
    WrapTwice(i1 + carry, high);
    var total := i1 + carry + high;
    WrappedCount(i0, i1, n, len, low, high, sum, carry, total / TWO_32, total % TWO_32);
  }

  lemma {:induction false} HighPart(len: nat)
    requires len < TWO_32
    ensures 8 * len == len / TWO_29 * TWO_32 + 8 * len % TWO_32
  {
    var q, r := len / TWO_29, len % TWO_29;
    assert len == q * TWO_29 + r;
    DivUnique(8 * len, TWO_32, q, 8 * r);
  }

  lemma {:induction false} WrapTwice(a: nat, b: nat)
    ensures (a % TWO_32 + b) % TWO_32 == (a + b) % TWO_32
  {
    var q, r := (a % TWO_32 + b) / TWO_32, (a % TWO_32 + b) % TWO_32;
    assert a == TWO_32 * (a / TWO_32) + a % TWO_32;
    DivUnique(a + b, TWO_32, a / TWO_32 + q, r);
  }

  lemma {:induction false} WrappedCount(i0: nat, i1: nat, n: nat, len: nat, low: nat, high: nat, sum: nat, carry: nat, d: nat, top: nat)
    requires i1 * TWO_32 + i0 == 8 * n % TWO_64 && 8 * len == high * TWO_32 + low
    requires i0 + low == carry * TWO_32 + sum && i1 + carry + high == d * TWO_32 + top
    requires sum < TWO_32 && top < TWO_32
    ensures top * TWO_32 + sum == 8 * (n + len) % TWO_64
  {
    var k := 8 * n / TWO_64;
    assert 8 * n == TWO_64 * k + i1 * TWO_32 + i0;
    assert 8 * (n + len) == TWO_64 * (k + d) + (top * TWO_32 + sum);
    DivUnique(8 * (n + len), TWO_64, k + d, top * TWO_32 + sum);
  }

  /** The position in the buffer, from the low word of the counter. */
  lemma {:induction false} PositionFromCounter(i0: nat, i1: nat, n: nat)
    requires i0 < TWO_32 && i1 * TWO_32 + i0 == 8 * n % TWO_64
    ensures i0 / 8 % 64 == n % 64
  {
    var k := 8 * n / TWO_64;
    assert 8 * n == TWO_64 * k + i1 * TWO_32 + i0;
    var rest := k * (TWO_64 / 512) + i1 * (TWO_32 / 512);
    assert 8 * n == 512 * rest + i0;
    assert n == 64 * rest + i0 / 8;
    DivUnique(n, 64, rest + i0 / 8 / 64, i0 / 8 % 64);
  }

  // ----- the context

  /** `MD5_PADDING` */
  function Padding(): (p: seq<Octet>)
    ensures |p| == 64
  {
    [0x80] + Zeros(63)
  }

  lemma {:induction false} ZerosPrefix(n: nat, k: nat)
    requires k <= n
    ensures Zeros(n)[..k] == Zeros(k)
  {
    if k < n { ZerosPrefix(n - 1, k); }
  }

  /** As much of the padding as the code adds completes the message to its padded form. */
  lemma {:induction false} PaddingFits(m: seq<Octet>)
    ensures var mdi := |m| % 64;
      var padLen := if mdi < 56 then 56 - mdi else 120 - mdi;
      m + Padding()[..padLen] == Padded(m)
  {
    var mdi := |m| % 64;
    var padLen := if mdi < 56 then 56 - mdi else 120 - mdi;
    assert padLen - 1 == (119 - mdi) % 64;
    ZerosPrefix(63, padLen - 1);
    assert Padding()[..padLen] == [0x80] + Zeros(63)[..padLen - 1];
  }

  /** The initial state from a seed (`MD5Init`); the seed 0 gives the one of the standard. */
  function Initial(seed: nat): Quad {
    var w := ToWord(seed % TWO_32);
    Quad(0x67452301 + w * 11, 0xefcdab89 + w * 71, 0x98badcfe + w * 37, 0x10325476 + w * 97)
  }

  /** A seed of one moves the four words by 11, 71, 37 and 97, the largest one moves them back by as much. */
  lemma {:induction false} SeedMoves()
    ensures Initial(1) == Quad(0x6745230c, 0xefcdabd0, 0x98badd23, 0x103254d7)
    ensures Initial(0xffff_ffff) == Quad(0x674522f6, 0xefcdab42, 0x98badcd9, 0x10325415)
  {
    OneAsWord();
    hide ToWord;
  }

  lemma {:induction false} OneAsWord()
    ensures 1 % TWO_32 == 1 && ToWord(1) == 1 && 0xffff_ffff % TWO_32 == 0xffff_ffff && ToWord(0xffff_ffff) == 0xffff_ffff
  {
  }

  lemma {:induction false} SeedZero()
    ensures Initial(0) == RFC_INITIAL
  {
  }

  lemma {:induction false} NextPosition(n: nat)
    ensures (n + 1) % 64 == if n % 64 == 63 then 0 else n % 64 + 1
  {
  }

  lemma {:induction false} TailSnoc(m: seq<Octet>, o: Octet, k: nat)
    requires k <= |m|
    ensures (m + [o])[|m + [o]| - (k + 1)..] == m[|m| - k..] + [o]
  {
  }

  lemma {:induction false} WordsPrefix(s: seq<Octet>, k: nat, n: nat)
    requires 4 * n <= k <= |s|
    ensures Words(s, n) == Words(s[..k], n)
  {
    if n > 0 { WordsPrefix(s, k, n - 1); }
  }

  lemma {:induction false} LastWords(m: seq<Octet>, i0: nat, i1: nat)
    requires i0 < TWO_32 && i1 < TWO_32 && i1 * TWO_32 + i0 == 8 * |m| % TWO_64
    ensures LastBlock(m) == Words(Padded(m)[|Padded(m)| - 56..], 14) + [ToWord(i0), ToWord(i1)]
  {
    hide ToWord, Words, Padded;
    DivUnique(8 * |m| % TWO_64, TWO_32, i1, i0);
  }

  class Context {
    var i0: nat
    var i1: nat
    var buf: Quad
    const input: array<Octet>
    const digest: array<Octet>

    /** The context stands for a message `m` begun in state `q`: the counter is its length in bits modulo 2^64,
        the words are the state after its full blocks, and the buffer starts with what is left over. */
    ghost predicate Holds(q: Quad, m: seq<Octet>)
      reads this, input
    {
      && input.Length == 64 && digest.Length == 16 && input != digest && i0 < TWO_32 && i1 < TWO_32
      && i1 * TWO_32 + i0 == 8 * |m| % TWO_64
      && Buffered(q, m)
    }

    /** State and buffer without the counter. */
    ghost predicate Buffered(q: Quad, m: seq<Octet>)
      reads `buf, input
    {
      input.Length == 64 && buf == Blocks(q, m) && input[..|m| % 64] == m[|m| - |m| % 64..]
    }

    /** `MD5Init` */
    constructor (seed: nat)
      ensures Holds(Initial(seed), []) && fresh(input) && fresh(digest)
    {
      i0, i1, buf := 0, 0, Initial(seed);
      input, digest := new Octet[64](_ => 0), new Octet[16](_ => 0);
    }

    /** The first `n` words of the buffer. */
    method Load(n: nat) returns (x: seq<Word>)
      requires 4 * n <= input.Length
      ensures x == Words(input[..], n)
    {
      x := [];
      for i := 0 to n
        invariant x == Words(input[..], i)
      {
        var ii := 4 * i;
        x := x + [Decode(input[ii], input[ii + 1], input[ii + 2], input[ii + 3])];
      }
    }

    /** The counter of bits of `MD5Update`. */
    method Count(len: nat, ghost n: nat)
      requires i0 < TWO_32 && i1 < TWO_32 && i1 * TWO_32 + i0 == 8 * n % TWO_64 && len < TWO_32
      modifies `i0, `i1
      ensures i0 < TWO_32 && i1 < TWO_32 && i1 * TWO_32 + i0 == 8 * (n + len) % TWO_64
    {
      CounterAdds(i0, i1, n, len);
      hide Wrap;
      var added := Wrap(8 * len);
      if Wrap(i0 + added) < i0 {
        i1 := Wrap(i1 + 1);
      }
      i0 := Wrap(i0 + added);
      i1 := Wrap(i1 + len / TWO_29);
    }

    /** `MD5Update`: whatever was held before, the data is appended to it. */
    method Update(data: seq<Octet>, ghost q: Quad, ghost m: seq<Octet>)
      requires Holds(q, m) && |data| < TWO_32
      modifies this, input
      ensures Holds(q, m + data)
    {
      hide Buffered, Blocks;
      PositionFromCounter(i0, i1, |m|);
      var mdi: nat := i0 / 8 % 64;
      Count(|data|, |m|);
      ghost var held := m;
      for k := 0 to |data|
        invariant Buffered(q, held) && mdi == |held| % 64 && held == m + data[..k]
        invariant i0 < TWO_32 && i1 < TWO_32 && i1 * TWO_32 + i0 == 8 * (|m| + |data|) % TWO_64
      {
        mdi := Take(mdi, data[k], q, held);
        held := held + [data[k]];
      }
      assert held == m + data;
    }

    /** One more octet: stored, and a block that is full compressed. */
    method Take(mdi: nat, o: Octet, ghost q: Quad, ghost m: seq<Octet>) returns (next: nat)
      requires Buffered(q, m) && mdi == |m| % 64
      modifies `buf, input
      ensures Buffered(q, m + [o]) && next == |m + [o]| % 64
    {
      hide Blocks, Compress, Words;
      ghost var t := m + [o];
      BlocksNext(q, m, o);
      NextPosition(|m|);
      input[mdi] := o;
      next := mdi + 1;
      assert input[..next] == input[..mdi] + [o];
      assert input[..next] == t[|t| - next..] by { TailSnoc(m, o, mdi); }
      if next == 64 {
        var x := Load(16);
        assert input[..] == input[..next];
        buf := Transform(buf, x);
        next := 0;
      }
    }

    /** `MD5Final`: the digest of all that was held. */
    method Final(ghost q: Quad, ghost m: seq<Octet>)
      requires Holds(q, m)
      modifies this, input, digest
      ensures digest[..] == Digest(q, m)
    {
      hide Blocks, Compress, Words, Padded, Padding, Octets, ToWord, LastBlock;
      var w14, w15 := ToWord(i0), ToWord(i1);
      LastWords(m, i0, i1);
      PositionFromCounter(i0, i1, |m|);
      var mdi := i0 / 8 % 64;
      var padLen := if mdi < 56 then 56 - mdi else 120 - mdi;
      PaddingFits(m);
      Update(Padding()[..padLen], q, m);
      FinishBlock(w14, w15, q, Padded(m));
      Store();
    }

    /** The last block takes its length words from before the padding. */
    method FinishBlock(w14: Word, w15: Word, ghost q: Quad, ghost p: seq<Octet>)
      requires Holds(q, p) && |p| % 64 == 56
      modifies `buf
      ensures buf == Compress(Blocks(q, p[..|p| - 56]), Words(p[|p| - 56..], 14) + [w14, w15])
    {
      hide Blocks, Compress, Words;
      BlocksFull(q, p);
      var x := Load(14);
      WordsPrefix(input[..], 56, 14);
      assert input[..][..56] == input[..56] == p[|p| - 56..];
      buf := Transform(buf, x + [w14, w15]);
    }

    /** The words of the state as octets. */
    method Store()
      requires digest.Length == 16
      modifies digest
      ensures digest[..] == Octets([buf.a, buf.b, buf.c, buf.d])
    {
      hide Encode;
      var words := [buf.a, buf.b, buf.c, buf.d];
      for i := 0 to 4
        invariant digest[..4 * i] == Octets(words[..i])
      {
        StoreWord(4 * i, words[i]);
        assert words[..i + 1][..i] == words[..i];
      }
      assert words[..4] == words && digest[..16] == digest[..];
    }

    method StoreWord(ii: nat, w: Word)
      requires ii + 4 <= digest.Length
      modifies digest
      ensures digest[..ii + 4] == old(digest[..ii]) + Encode(w)
    {
      var e := Encode(w);
      hide Encode;
      digest[ii], digest[ii + 1], digest[ii + 2], digest[ii + 3] := e[0], e[1], e[2], e[3];
    }

    /** Any number of pieces, one after the other. */
    method UpdateAll(chunks: seq<seq<Octet>>, ghost q: Quad)
      requires Holds(q, []) && forall i :: 0 <= i < |chunks| ==> |chunks[i]| < TWO_32
      modifies this, input
      ensures Holds(q, Concat(chunks))
    {
      hide Holds;
      ghost var held := [];
      for i := 0 to |chunks|
        invariant Holds(q, held) && held == Concat(chunks[..i])
      {
        assert chunks[..i + 1][..i] == chunks[..i];
        Update(chunks[i], q, held);
        held := held + chunks[i];
      }
      assert chunks[..|chunks|] == chunks;
    }
  }

  function Concat(chunks: seq<seq<Octet>>): seq<Octet> {
    if chunks == [] then [] else Concat(chunks[..|chunks| - 1]) + chunks[|chunks| - 1]
  }

  /** However a message is split, its digest is the same: that of the whole message, and with the seed 0 the
      one of the standard. */
  method Hash(seed: nat, chunks: seq<seq<Octet>>) returns (digest: seq<Octet>)
    requires forall i :: 0 <= i < |chunks| ==> |chunks[i]| < TWO_32
    ensures digest == Digest(Initial(seed), Concat(chunks))
    ensures seed == 0 ==> digest == Digest(RFC_INITIAL, Concat(chunks))
  {
    hide Context.Holds, Digest, Initial, Concat;
    var context := new Context(seed);
    context.UpdateAll(chunks, Initial(seed));
    context.Final(Initial(seed), Concat(chunks));
    digest := context.digest[..];
    SeedZero();
  }
}
