/** The MD5 message digest of RFC 1321. */
module Md5Spec {
  import opened Bytes
  import opened Md5Words

  datatype Quad = Quad(a: Word, b: Word, c: Word, d: Word)

  /** The auxiliary function of each round. */
  function Auxiliary(round: nat, x: Word, y: Word, z: Word): Word
    requires round < 4
  {
    match round
    case 0 => F(x, y, z)
    case 1 => G(x, y, z)
    case 2 => H(x, y, z)
    case 3 => I(x, y, z)
  }

  /** Section 3.4: which word of the block step i uses. */
  function K(i: nat): (k: nat)
    requires i < 64
    ensures k < 16
  {
    match i / 16
    case 0 => i
    case 1 => (5 * i + 1) % 16
    case 2 => (3 * i + 5) % 16
    case 3 => (7 * i) % 16
  }

  /** Section 3.4: how far step i rotates. */
  function S(i: nat): (s: bv32)
    requires i < 64
    ensures 0 < s < 32
  {
    match i / 16
    case 0 => [7, 12, 17, 22][i % 4]
    case 1 => [5, 9, 14, 20][i % 4]
    case 2 => [4, 11, 16, 23][i % 4]
    case 3 => [6, 10, 15, 21][i % 4]
  }

  /** Section 3.4: the table T, sixteen entries for each round. */
  function T1(i: nat): Word
    requires i < 16
  {
    match i
    case 0 => 0xd76aa478
    case 1 => 0xe8c7b756
    case 2 => 0x242070db
    case 3 => 0xc1bdceee
    case 4 => 0xf57c0faf
    case 5 => 0x4787c62a
    case 6 => 0xa8304613
    case 7 => 0xfd469501
    case 8 => 0x698098d8
    case 9 => 0x8b44f7af
    case 10 => 0xffff5bb1
    case 11 => 0x895cd7be
    case 12 => 0x6b901122
    case 13 => 0xfd987193
    case 14 => 0xa679438e
    case 15 => 0x49b40821
  }

  function T2(i: nat): Word
    requires i < 16
  {
    match i
    case 0 => 0xf61e2562
    case 1 => 0xc040b340
    case 2 => 0x265e5a51
    case 3 => 0xe9b6c7aa
    case 4 => 0xd62f105d
    case 5 => 0x02441453
    case 6 => 0xd8a1e681
    case 7 => 0xe7d3fbc8
    case 8 => 0x21e1cde6
    case 9 => 0xc33707d6
    case 10 => 0xf4d50d87
    case 11 => 0x455a14ed
    case 12 => 0xa9e3e905
    case 13 => 0xfcefa3f8
    case 14 => 0x676f02d9
    case 15 => 0x8d2a4c8a
  }

  function T3(i: nat): Word
    requires i < 16
  {
    match i
    case 0 => 0xfffa3942
    case 1 => 0x8771f681
    case 2 => 0x6d9d6122
    case 3 => 0xfde5380c
    case 4 => 0xa4beea44
    case 5 => 0x4bdecfa9
    case 6 => 0xf6bb4b60
    case 7 => 0xbebfbc70
    case 8 => 0x289b7ec6
    case 9 => 0xeaa127fa
    case 10 => 0xd4ef3085
    case 11 => 0x04881d05
    case 12 => 0xd9d4d039
    case 13 => 0xe6db99e5
    case 14 => 0x1fa27cf8
    case 15 => 0xc4ac5665
  }

  function T4(i: nat): Word
    requires i < 16
  {
    match i
    case 0 => 0xf4292244
    case 1 => 0x432aff97
    case 2 => 0xab9423a7
    case 3 => 0xfc93a039
    case 4 => 0x655b59c3
    case 5 => 0x8f0ccc92
    case 6 => 0xffeff47d
    case 7 => 0x85845dd1
    case 8 => 0x6fa87e4f
    case 9 => 0xfe2ce6e0
    case 10 => 0xa3014314
    case 11 => 0x4e0811a1
    case 12 => 0xf7537e82
    case 13 => 0xbd3af235
    case 14 => 0x2ad7d2bb
    case 15 => 0xeb86d391
  }

  /** Entry i + 1 in the numbering there. */
  function T(i: nat): Word
    requires i < 64
  {
    match i / 16
    case 0 => T1(i)
    case 1 => T2(i - 16)
    case 2 => T3(i - 32)
    case 3 => T4(i - 48)
  }

  /** One operation [abcd k s i]: a = b + ((a + f(b, c, d) + X[k] + T[i]) <<< s). */
  function Operation(i: nat, a: Word, b: Word, c: Word, d: Word, xk: Word): Word
    requires i < 64
  {
    Add(RotateLeft(Add(Add(Add(a, Auxiliary(i / 16, b, c, d)), xk), T(i)), S(i)), b)
  }

  /** The first n operations; each one turns the four words by one place. */
  function Operations(q: Quad, x: seq<Word>, n: nat): Quad
    requires |x| == 16 && n <= 64
  {
    if n == 0 then q
    else
      var p := Operations(q, x, n - 1);
      Quad(p.d, Operation(n - 1, p.a, p.b, p.c, p.d, x[K(n - 1)]), p.b, p.c)
  }

  /** Words from bytes and bytes from words, low-order byte first. */
  function DecodeWord(b0: Byte, b1: Byte, b2: Byte, b3: Byte): Word {
    b0 + 0x100 * b1 + 0x1_0000 * b2 + 0x100_0000 * b3
  }

  function EncodeWord(w: Word): (b: seq<Byte>)
    ensures |b| == 4
  {
    [w % 0x100, w / 0x100 % 0x100, w / 0x1_0000 % 0x100, w / 0x100_0000 % 0x100]
  }

  function DecodeWords(b: seq<Byte>): (w: seq<Word>)
    requires |b| % 4 == 0
    ensures |w| == |b| / 4
  {
    seq(|b| / 4, i requires 0 <= i < |b| / 4 => DecodeWord(b[4 * i], b[4 * i + 1], b[4 * i + 2], b[4 * i + 3]))
  }

  function EncodeWords(w: seq<Word>): (b: seq<Byte>)
    ensures |b| == 4 * |w|
  {
    seq(4 * |w|, j requires 0 <= j < 4 * |w| => EncodeWord(w[j / 4])[j % 4])
  }

  /** Section 3.4: one 64-byte block. */
  function Compress(q: Quad, block: seq<Byte>): Quad
    requires |block| == 64
  {
    var p := Operations(q, DecodeWords(block), 64);
    Quad(Add(q.a, p.a), Add(q.b, p.b), Add(q.c, p.c), Add(q.d, p.d))
  }

  /** Section 3.3. */
  const INITIAL := Quad(0x67452301, 0xefcdab89, 0x98badcfe, 0x10325476)

  /** All blocks of m in turn. */
  function Digested(q: Quad, m: seq<Byte>): Quad
    requires |m| % 64 == 0
  {
    if m == [] then q
    else Compress(Digested(q, m[..|m| - 64]), m[|m| - 64..])
  }

  /** How many zero bytes follow the 0x80 of section 3.1. */
  function ZeroCount(n: nat): (z: nat)
    ensures (n + 1 + z) % 64 == 56 && z < 64
  {
    var r := n % 64;
    var z := if r < 56 then 55 - r else 119 - r;
    assert n + 1 + z == 64 * (n / 64) + (if r < 56 then 56 else 120);
    z
  }

  lemma EightMore(n: nat)
    requires n % 64 == 56
    ensures (n + 8) % 64 == 0
  {
  }

  /** Sections 3.1 and 3.2: a one bit, zeros up to 56 modulo 64 bytes, and the 64-bit length in bits. */
  function Padded(m: seq<Byte>): (p: seq<Byte>)
    ensures |p| % 64 == 0
  {
    EightMore(|m| + 1 + ZeroCount(|m|));
    m + [0x80] + Zeros(ZeroCount(|m|)) + LengthBytes(|m|)
  }

  function LengthBytes(n: nat): (b: seq<Byte>)
    ensures |b| == 8
  {
    EncodeWords([8 * n % 0x1_0000_0000, 8 * n / 0x1_0000_0000 % 0x1_0000_0000])
  }

  /** Section 3.5. */
  function QuadBytes(q: Quad): (b: seq<Byte>)
    ensures |b| == 16
  {
    EncodeWords([q.a, q.b, q.c, q.d])
  }

  function Digest(m: seq<Byte>): (b: seq<Byte>)
    ensures |b| == 16
  {
    QuadBytes(Digested(INITIAL, Padded(m)))
  }

  lemma EncodedAt(w: seq<Word>, i: nat, k: nat)
    requires i < |w| && k < 4
    ensures 4 * i + k < 4 * |w| && EncodeWords(w)[4 * i + k] == EncodeWord(w[i])[k]
  {
    hide EncodeWord;
    assert (4 * i + k) / 4 == i && (4 * i + k) % 4 == k;
  }

  lemma DecodeInvertsEncode(w: seq<Word>)
    ensures DecodeWords(EncodeWords(w)) == w
  {
    hide EncodeWord, DecodeWord, EncodeWords;
    forall i | 0 <= i < |w|
      ensures DecodeWords(EncodeWords(w))[i] == w[i]
    {
      EncodedAt(w, i, 0);
      EncodedAt(w, i, 1);
      EncodedAt(w, i, 2);
      EncodedAt(w, i, 3);
      WordOfItsBytes(w[i]);
    }
  }

  lemma WordOfItsBytes(w: Word)
    ensures var b := EncodeWord(w); DecodeWord(b[0], b[1], b[2], b[3]) == w
  {
    var n: int := w;
    FourDigits(n);
    var b := EncodeWord(w);
    assert b[0] == n % 0x100 && b[1] == n / 0x100 % 0x100 && b[2] == n / 0x1_0000 % 0x100;
    assert b[3] == n / 0x100_0000 % 0x100;
  }

  lemma FourDigits(n: int)
    requires 0 <= n < 0x1_0000_0000
    ensures n == n % 0x100 + 0x100 * (n / 0x100 % 0x100) + 0x1_0000 * (n / 0x1_0000 % 0x100)
                 + 0x100_0000 * (n / 0x100_0000 % 0x100)
  {
    Quotients(n);
    var q1, q2, q3 := n / 0x100, n / 0x1_0000, n / 0x100_0000;
    assert n == n % 0x100 + 0x100 * q1;
    assert q1 == q1 % 0x100 + 0x100 * q2;
    assert q2 == q2 % 0x100 + 0x100 * q3;
  }

  lemma Quotients(n: int)
    requires 0 <= n < 0x1_0000_0000
    ensures n / 0x1_0000 == n / 0x100 / 0x100 && n / 0x100_0000 == n / 0x1_0000 / 0x100
    ensures n / 0x100_0000 % 0x100 == n / 0x100_0000
  {
  }

  lemma BytesOfItsWord(b0: Byte, b1: Byte, b2: Byte, b3: Byte)
    ensures EncodeWord(DecodeWord(b0, b1, b2, b3)) == [b0, b1, b2, b3]
  {
    var w := DecodeWord(b0, b1, b2, b3);
    assert w / 0x100 == b1 + 0x100 * b2 + 0x1_0000 * b3;
    assert w / 0x1_0000 == b2 + 0x100 * b3;
    assert w / 0x100_0000 == b3;
  }

  lemma EncodeInvertsDecode(b: seq<Byte>)
    requires |b| % 4 == 0
    ensures EncodeWords(DecodeWords(b)) == b
  {
    forall j | 0 <= j < |b|
      ensures EncodeWords(DecodeWords(b))[j] == b[j]
    {
      var i := j / 4;
      BytesOfItsWord(b[4 * i], b[4 * i + 1], b[4 * i + 2], b[4 * i + 3]);
    }
  }

  /** Four operations bring the words back to their places. */
  lemma FourOperations(q: Quad, x: seq<Word>, n: nat, p: Quad, a: Word, d: Word, c: Word, b: Word)
    requires |x| == 16 && n <= 60 && p == Operations(q, x, n)
    requires a == Operation(n, p.a, p.b, p.c, p.d, x[K(n)])
    requires d == Operation(n + 1, p.d, a, p.b, p.c, x[K(n + 1)])
    requires c == Operation(n + 2, p.c, d, a, p.b, x[K(n + 2)])
    requires b == Operation(n + 3, p.b, c, d, a, x[K(n + 3)])
    ensures Operations(q, x, n + 4) == Quad(a, b, c, d)
  {
    hide Operation, K;
    assert Operations(q, x, n + 1) == Quad(p.d, a, p.b, p.c);
    assert Operations(q, x, n + 2) == Quad(p.c, d, a, p.b);
    assert Operations(q, x, n + 3) == Quad(p.b, c, d, a);
  }

  lemma DigestedConcat(q: Quad, m: seq<Byte>, n: seq<Byte>)
    requires |m| % 64 == 0 && |n| % 64 == 0
    ensures Digested(q, m + n) == Digested(Digested(q, m), n)
  {
    hide Compress;
    if n == [] {
      assert m + n == m;
    } else {
      DigestedConcat(q, m, n[..|n| - 64]);
      assert (m + n)[..|m + n| - 64] == m + n[..|n| - 64];
      assert (m + n)[|m + n| - 64..] == n[|n| - 64..];
    }
  }
}
