/** The incremental MD5 object of the source. */
module Md5Object {
  import opened Bytes
  import opened Md5Spec
  import opened Md5Words

  const S11: bv32 := 7
  const S12: bv32 := 12
  const S13: bv32 := 17
  const S14: bv32 := 22
  const S21: bv32 := 5
  const S22: bv32 := 9
  const S23: bv32 := 14
  const S24: bv32 := 20
  const S31: bv32 := 4
  const S32: bv32 := 11
  const S33: bv32 := 16
  const S34: bv32 := 23
  const S41: bv32 := 6
  const S42: bv32 := 10
  const S43: bv32 := 15
  const S44: bv32 := 21

  // The source's own word functions.

  function XyOrNotXz(x: Word, y: Word, z: Word): Word {
    (((x as bv32) & (y as bv32)) | (!(x as bv32) & (z as bv32))) as Word
  }

  function XzOrYNotZ(x: Word, y: Word, z: Word): Word {
    (((x as bv32) & (z as bv32)) | ((y as bv32) & !(z as bv32))) as Word
  }

  function XorOfThree(x: Word, y: Word, z: Word): Word {
    ((x as bv32) ^ (y as bv32) ^ (z as bv32)) as Word
  }

  function YXorXOrNotZ(x: Word, y: Word, z: Word): Word {
    ((y as bv32) ^ ((x as bv32) | !(z as bv32))) as Word
  }

  function ShiftedBothWays(x: Word, n: bv32): Word
    requires 0 < n < 32
  {
    (((x as bv32) << n) | ((x as bv32) >> (32 - n))) as Word
  }

  lemma WordFunctionsAreStandard(x: Word, y: Word, z: Word)
    ensures XyOrNotXz(x, y, z) == F(x, y, z) && XzOrYNotZ(x, y, z) == G(x, y, z)
    ensures XorOfThree(x, y, z) == H(x, y, z) && YXorXOrNotZ(x, y, z) == I(x, y, z)
  {
  }

  lemma RotationIsStandard(x: Word, n: bv32)
    requires 0 < n < 32
    ensures ShiftedBothWays(x, n) == RotateLeft(x, n)
  {
  }

  function FF(a: Word, b: Word, c: Word, d: Word, x: Word, s: bv32, ac: Word): (r: Word)
    requires 0 < s < 32
    ensures r == Add(RotateLeft(Add(Add(Add(a, F(b, c, d)), x), ac), s), b)
  {
    hide F, G, H, I, RotateLeft, Add, XyOrNotXz, ShiftedBothWays;
    WordFunctionsAreStandard(b, c, d);
    var sum := Add(Add(Add(a, XyOrNotXz(b, c, d)), x), ac);
    RotationIsStandard(sum, s);
    Add(ShiftedBothWays(sum, s), b)
  }

  function GG(a: Word, b: Word, c: Word, d: Word, x: Word, s: bv32, ac: Word): (r: Word)
    requires 0 < s < 32
    ensures r == Add(RotateLeft(Add(Add(Add(a, G(b, c, d)), x), ac), s), b)
  {
    hide F, G, H, I, RotateLeft, Add, XzOrYNotZ, ShiftedBothWays;
    WordFunctionsAreStandard(b, c, d);
    var sum := Add(Add(Add(a, XzOrYNotZ(b, c, d)), x), ac);
    RotationIsStandard(sum, s);
    Add(ShiftedBothWays(sum, s), b)
  }

  function HH(a: Word, b: Word, c: Word, d: Word, x: Word, s: bv32, ac: Word): (r: Word)
    requires 0 < s < 32
    ensures r == Add(RotateLeft(Add(Add(Add(a, H(b, c, d)), x), ac), s), b)
  {
    hide F, G, H, I, RotateLeft, Add, XorOfThree, ShiftedBothWays;
    WordFunctionsAreStandard(b, c, d);
    var sum := Add(Add(Add(a, XorOfThree(b, c, d)), x), ac);
    RotationIsStandard(sum, s);
    Add(ShiftedBothWays(sum, s), b)
  }

  function II(a: Word, b: Word, c: Word, d: Word, x: Word, s: bv32, ac: Word): (r: Word)
    requires 0 < s < 32
    ensures r == Add(RotateLeft(Add(Add(Add(a, I(b, c, d)), x), ac), s), b)
  {
    hide F, G, H, I, RotateLeft, Add, YXorXOrNotZ, ShiftedBothWays;
    WordFunctionsAreStandard(b, c, d);
    var sum := Add(Add(Add(a, YXorXOrNotZ(b, c, d)), x), ac);
    RotationIsStandard(sum, s);
    Add(ShiftedBothWays(sum, s), b)
  }

  method RoundOne(ghost q: Quad, x: array<Word>, a0: Word, b0: Word, c0: Word, d0: Word)
    returns (a: Word, b: Word, c: Word, d: Word)
    requires x.Length == 16 && Quad(a0, b0, c0, d0) == Operations(q, x[..], 0)
    ensures Quad(a, b, c, d) == Operations(q, x[..], 16)
  {
    hide F, G, H, I, RotateLeft, Add, Operations, FF, GG, HH, II;
    ghost var w := x[..];
    a, b, c, d := a0, b0, c0, d0;
    ghost var p := Quad(a, b, c, d);
    a := FF(a, b, c, d, x[0], S11, 0xd76aa478);
    d := FF(d, a, b, c, x[1], S12, 0xe8c7b756);
    c := FF(c, d, a, b, x[2], S13, 0x242070db);
    b := FF(b, c, d, a, x[3], S14, 0xc1bdceee);
    FourOperations(q, w, 0, p, a, d, c, b);
    p := Quad(a, b, c, d);
    a := FF(a, b, c, d, x[4], S11, 0xf57c0faf);
    d := FF(d, a, b, c, x[5], S12, 0x4787c62a);
    c := FF(c, d, a, b, x[6], S13, 0xa8304613);
    b := FF(b, c, d, a, x[7], S14, 0xfd469501);
    FourOperations(q, w, 4, p, a, d, c, b);
    p := Quad(a, b, c, d);
    a := FF(a, b, c, d, x[8], S11, 0x698098d8);
    d := FF(d, a, b, c, x[9], S12, 0x8b44f7af);
    c := FF(c, d, a, b, x[10], S13, 0xffff5bb1);
    b := FF(b, c, d, a, x[11], S14, 0x895cd7be);
    FourOperations(q, w, 8, p, a, d, c, b);
    p := Quad(a, b, c, d);
    a := FF(a, b, c, d, x[12], S11, 0x6b901122);
    d := FF(d, a, b, c, x[13], S12, 0xfd987193);
    c := FF(c, d, a, b, x[14], S13, 0xa679438e);
    b := FF(b, c, d, a, x[15], S14, 0x49b40821);
    FourOperations(q, w, 12, p, a, d, c, b);
  }

  method RoundTwo(ghost q: Quad, x: array<Word>, a0: Word, b0: Word, c0: Word, d0: Word)
    returns (a: Word, b: Word, c: Word, d: Word)
    requires x.Length == 16 && Quad(a0, b0, c0, d0) == Operations(q, x[..], 16)
    ensures Quad(a, b, c, d) == Operations(q, x[..], 32)
  {
    hide F, G, H, I, RotateLeft, Add, Operations, FF, GG, HH, II;
    ghost var w := x[..];
    a, b, c, d := a0, b0, c0, d0;
    ghost var p := Quad(a, b, c, d);
    a := GG(a, b, c, d, x[1], S21, 0xf61e2562);
    d := GG(d, a, b, c, x[6], S22, 0xc040b340);
    c := GG(c, d, a, b, x[11], S23, 0x265e5a51);
    b := GG(b, c, d, a, x[0], S24, 0xe9b6c7aa);
    FourOperations(q, w, 16, p, a, d, c, b);
    p := Quad(a, b, c, d);
    a := GG(a, b, c, d, x[5], S21, 0xd62f105d);
    d := GG(d, a, b, c, x[10], S22, 0x2441453);
    c := GG(c, d, a, b, x[15], S23, 0xd8a1e681);
    b := GG(b, c, d, a, x[4], S24, 0xe7d3fbc8);
    FourOperations(q, w, 20, p, a, d, c, b);
    p := Quad(a, b, c, d);
    a := GG(a, b, c, d, x[9], S21, 0x21e1cde6);
    d := GG(d, a, b, c, x[14], S22, 0xc33707d6);
    c := GG(c, d, a, b, x[3], S23, 0xf4d50d87);
    b := GG(b, c, d, a, x[8], S24, 0x455a14ed);
    FourOperations(q, w, 24, p, a, d, c, b);
    p := Quad(a, b, c, d);
    a := GG(a, b, c, d, x[13], S21, 0xa9e3e905);
    d := GG(d, a, b, c, x[2], S22, 0xfcefa3f8);
    c := GG(c, d, a, b, x[7], S23, 0x676f02d9);
    b := GG(b, c, d, a, x[12], S24, 0x8d2a4c8a);
    FourOperations(q, w, 28, p, a, d, c, b);
  }

  method RoundThree(ghost q: Quad, x: array<Word>, a0: Word, b0: Word, c0: Word, d0: Word)
    returns (a: Word, b: Word, c: Word, d: Word)
    requires x.Length == 16 && Quad(a0, b0, c0, d0) == Operations(q, x[..], 32)
    ensures Quad(a, b, c, d) == Operations(q, x[..], 48)
  {
    hide F, G, H, I, RotateLeft, Add, Operations, FF, GG, HH, II;
    ghost var w := x[..];
    a, b, c, d := a0, b0, c0, d0;
    ghost var p := Quad(a, b, c, d);
    a := HH(a, b, c, d, x[5], S31, 0xfffa3942);
    d := HH(d, a, b, c, x[8], S32, 0x8771f681);
    c := HH(c, d, a, b, x[11], S33, 0x6d9d6122);
    b := HH(b, c, d, a, x[14], S34, 0xfde5380c);
    FourOperations(q, w, 32, p, a, d, c, b);
    p := Quad(a, b, c, d);
    a := HH(a, b, c, d, x[1], S31, 0xa4beea44);
    d := HH(d, a, b, c, x[4], S32, 0x4bdecfa9);
    c := HH(c, d, a, b, x[7], S33, 0xf6bb4b60);
    b := HH(b, c, d, a, x[10], S34, 0xbebfbc70);
    FourOperations(q, w, 36, p, a, d, c, b);
    p := Quad(a, b, c, d);
    a := HH(a, b, c, d, x[13], S31, 0x289b7ec6);
    d := HH(d, a, b, c, x[0], S32, 0xeaa127fa);
    c := HH(c, d, a, b, x[3], S33, 0xd4ef3085);
    b := HH(b, c, d, a, x[6], S34, 0x4881d05);
    FourOperations(q, w, 40, p, a, d, c, b);
    p := Quad(a, b, c, d);
    a := HH(a, b, c, d, x[9], S31, 0xd9d4d039);
    d := HH(d, a, b, c, x[12], S32, 0xe6db99e5);
    c := HH(c, d, a, b, x[15], S33, 0x1fa27cf8);
    b := HH(b, c, d, a, x[2], S34, 0xc4ac5665);
    FourOperations(q, w, 44, p, a, d, c, b);
  }

  method RoundFour(ghost q: Quad, x: array<Word>, a0: Word, b0: Word, c0: Word, d0: Word)
    returns (a: Word, b: Word, c: Word, d: Word)
    requires x.Length == 16 && Quad(a0, b0, c0, d0) == Operations(q, x[..], 48)
    ensures Quad(a, b, c, d) == Operations(q, x[..], 64)
  {
    hide F, G, H, I, RotateLeft, Add, Operations, FF, GG, HH, II;
    ghost var w := x[..];
    a, b, c, d := a0, b0, c0, d0;
    ghost var p := Quad(a, b, c, d);
    a := II(a, b, c, d, x[0], S41, 0xf4292244);
    d := II(d, a, b, c, x[7], S42, 0x432aff97);
    c := II(c, d, a, b, x[14], S43, 0xab9423a7);
    b := II(b, c, d, a, x[5], S44, 0xfc93a039);
    FourOperations(q, w, 48, p, a, d, c, b);
    p := Quad(a, b, c, d);
    a := II(a, b, c, d, x[12], S41, 0x655b59c3);
    d := II(d, a, b, c, x[3], S42, 0x8f0ccc92);
    c := II(c, d, a, b, x[10], S43, 0xffeff47d);
    b := II(b, c, d, a, x[1], S44, 0x85845dd1);
    FourOperations(q, w, 52, p, a, d, c, b);
    p := Quad(a, b, c, d);
    a := II(a, b, c, d, x[8], S41, 0x6fa87e4f);
    d := II(d, a, b, c, x[15], S42, 0xfe2ce6e0);
    c := II(c, d, a, b, x[6], S43, 0xa3014314);
    b := II(b, c, d, a, x[13], S44, 0x4e0811a1);
    FourOperations(q, w, 56, p, a, d, c, b);
    p := Quad(a, b, c, d);
    a := II(a, b, c, d, x[4], S41, 0xf7537e82);
    d := II(d, a, b, c, x[11], S42, 0xbd3af235);
    c := II(c, d, a, b, x[2], S43, 0x2ad7d2bb);
    b := II(b, c, d, a, x[9], S44, 0xeb86d391);
    FourOperations(q, w, 60, p, a, d, c, b);
  }

  // The 64-bit counter in two 32-bit words.

  /** count[0] + 2^32 * count[1] is the length in bits, modulo 2^64. */
  ghost predicate Counts(lo: Word, hi: Word, bytes: nat) {
    lo + 0x1_0000_0000 * hi == 8 * bytes % 0x1_0000_0000_0000_0000
  }

  lemma CountsByWord(lo: Word, hi: Word, bytes: nat)
    requires Counts(lo, hi, bytes)
    ensures lo == 8 * bytes % 0x1_0000_0000
    ensures hi == 8 * bytes / 0x1_0000_0000 % 0x1_0000_0000
    ensures lo / 8 % 64 == bytes % 64
  {
    var q := 8 * bytes / 0x1_0000_0000_0000_0000;
    assert 8 * bytes == lo + 0x1_0000_0000 * (hi + 0x1_0000_0000 * q);
    assert 8 * bytes / 0x1_0000_0000 == hi + 0x1_0000_0000 * q;
    assert bytes == lo / 8 + 0x2000_0000 * (hi + 0x1_0000_0000 * q) && lo % 8 == 0;
  }

  lemma CarryOfLow(lo: Word, low: Word, lo': Word)
    requires lo' == Add(lo, low)
    ensures lo + low == lo' + (if lo' < low then 0x1_0000_0000 else 0)
  {
  }

  lemma HighWord(value: nat, lo': Word, hi: Word, hi': Word, carry: nat, high: nat, length: nat) returns (w: nat)
    requires value + 8 * length == lo' + 0x1_0000_0000 * (hi + carry + high)
    requires hi' == (hi + carry + high) % 0x1_0000_0000
    ensures lo' + 0x1_0000_0000 * hi' == value + 8 * length - 0x1_0000_0000_0000_0000 * w
  {
    w := (hi + carry + high) / 0x1_0000_0000;
  }

  lemma SameModulo(x: nat, y: nat, w: int)
    requires x < 0x1_0000_0000_0000_0000 && x == y - 0x1_0000_0000_0000_0000 * w
    ensures x == y % 0x1_0000_0000_0000_0000
  {
  }

  lemma HighPart(hi: Word, carry: nat, high: nat)
    ensures ((hi + carry) % 0x1_0000_0000 + high) % 0x1_0000_0000 == (hi + carry + high) % 0x1_0000_0000
  {
  }

  lemma AddsUp(hi: Word, carry: nat, high: Word, hi': Word)
    requires carry <= 1 && hi' == Add(if carry == 1 then Add(hi, 1) else hi, high)
    ensures hi' == (hi + carry + high) % 0x1_0000_0000
  {
    HighPart(hi, carry, high);
  }

  lemma WholeTurns(lo: Word, hi: Word, bytes: nat) returns (q: nat)
    requires Counts(lo, hi, bytes)
    ensures 8 * bytes == lo + 0x1_0000_0000 * hi + 0x1_0000_0000_0000_0000 * q
  {
    q := 8 * bytes / 0x1_0000_0000_0000_0000;
  }

  lemma TurnsCount(lo: Word, hi: Word, bytes: nat, w: int)
    requires lo + 0x1_0000_0000 * hi == 8 * bytes - 0x1_0000_0000_0000_0000 * w
    ensures Counts(lo, hi, bytes)
  {
    SameModulo(lo + 0x1_0000_0000 * hi, 8 * bytes, w);
  }

  /** The carry and the high part of the source's update of the counter. */
  lemma CountsAdvance(lo: Word, hi: Word, bytes: nat, length: Word, lo': Word, hi': Word)
    requires Counts(lo, hi, bytes)
    requires lo' == Add(lo, length * 8 % 0x1_0000_0000)
    requires hi' == Add(if lo' < length * 8 % 0x1_0000_0000 then Add(hi, 1) else hi, length / 0x2000_0000)
    ensures Counts(lo', hi', bytes + length)
  {
    hide Counts, Add;
    var low, high := length * 8 % 0x1_0000_0000, length / 0x2000_0000;
    var carry := if lo' < low then 1 else 0;
    CarryOfLow(lo, low, lo');
    AddsUp(hi, carry, high, hi');
    var value := lo + 0x1_0000_0000 * hi;
    var w := HighWord(value, lo', hi, hi', carry, high, length);
    var q := WholeTurns(lo, hi, bytes);
    TurnsCount(lo', hi', bytes + length, w + q);
  }

  // The block loop of update and its 32-bit guard.

  /** Where the loop that starts at `first` stops if i + 64 is not cut to 32 bits. */
  function LoopEnd(first: nat, length: nat): (i: nat)
    requires first <= length
    ensures first <= i <= length < i + 64 && (i - first) % 64 == 0
  {
    first + (length - first) / 64 * 64
  }

  /** The source's guard `i + blocksize <= length`, in 32 bits. */
  predicate Guard(i: Word, length: Word) {
    Add(i, 64) <= length
  }

  /** The last guard of the loop does not wrap around. */
  predicate GuardFits(first: nat, length: nat) {
    first <= length ==> LoopEnd(first, length) + 64 < 0x1_0000_0000
  }

  /** The 32-bit guard stops the loop where it should exactly when its last sum fits. */
  lemma GuardStopsInTime(first: Word, length: Word)
    requires 0 < first <= 64 && first <= length
    ensures !Guard(LoopEnd(first, length), length) <==> GuardFits(first, length)
  {
  }

  /** Every length up to 2^32 - 65 is safe, wherever the buffer stands; the largest one is not. */
  lemma SafeLengths(first: Word, length: Word)
    requires 0 < first <= 64
    ensures length <= 0xFFFF_FFFF - 64 ==> GuardFits(first, length)
    ensures !GuardFits(64, 0xFFFF_FFFF)
  {
    assert LoopEnd(64, 0xFFFF_FFFF) == 0xFFFF_FFC0;
  }

  /** The bytes of m after its last whole block. */
  function Rest(m: seq<Byte>): seq<Byte> {
    m[|m| - |m| % 64..]
  }

  function WholeBlocks(m: seq<Byte>): (w: seq<Byte>)
    ensures |w| % 64 == 0
  {
    m[..|m| - |m| % 64]
  }

  const PADDING: seq<Byte> := [0x80] + Zeros(63)

  class MD5 {
    var finalized: bool
    const buffer: array<Byte>
    const count: array<Word>
    const state: array<Word>
    const digest: array<Byte>
    /** What has been fed in since the counter was last zero, and the state it started from. */
    ghost var message: seq<Byte>
    ghost var start: Quad

    ghost predicate Shaped() {
      && buffer.Length == 64 && count.Length == 2 && state.Length == 4 && digest.Length == 16
      && buffer != digest && count != state
    }

    /** The state folds all whole blocks, the buffer holds the rest, the counter counts the bits. */
    ghost predicate Valid()
      reads this, buffer, count, state, digest
    {
      && Shaped()
      && Counts(count[0], count[1], |message|)
      && Quad(state[0], state[1], state[2], state[3]) == Digested(start, WholeBlocks(message))
      && buffer[..|message| % 64] == Rest(message)
    }

    constructor ()
      ensures Valid() && !finalized && message == [] && start == INITIAL
      ensures fresh(buffer) && fresh(count) && fresh(state) && fresh(digest)
    {
      buffer := new Byte[64];
      count := new Word[2];
      state := new Word[4];
      digest := new Byte[16];
      new;
      Init();
    }

    /** The shortcut that digests a whole text at once. */
    constructor Text(text: seq<Byte>)
      requires |text| < 0x1_0000_0000 && GuardFits(64, |text|)
      ensures Valid() && finalized && digest[..] == Digest(text)
      ensures fresh(buffer) && fresh(count) && fresh(state) && fresh(digest)
    {
      buffer := new Byte[64];
      count := new Word[2];
      state := new Word[4];
      digest := new Byte[16];
      new;
      hide Digested, Counts, Padded, QuadBytes, GuardFits;
      Init();
      Update(text);
      assert message == text;
      Finalize();
    }

    method Init()
      requires Shaped()
      modifies this, count, state
      ensures Valid() && !finalized && message == [] && start == INITIAL
    {
      hide Digested, Counts, Rest, WholeBlocks;
      finalized := false;
      count[0], count[1] := 0, 0;
      state[0], state[1], state[2], state[3] := 0x67452301, 0xefcdab89, 0x98badcfe, 0x10325476;
      message := [];
      start := INITIAL;
      NothingCounted(INITIAL);
    }

    method Transform(block: seq<Byte>)
      requires Shaped() && |block| == 64
      modifies state
      ensures Quad(state[0], state[1], state[2], state[3])
           == Compress(old(Quad(state[0], state[1], state[2], state[3])), block)
    {
      hide Operations, Add;
      ghost var q := Quad(state[0], state[1], state[2], state[3]);
      var x := new Word[16];
      Decode(x, block);
      NoOperations(q, x[..]);
      var a, b, c, d := RoundOne(q, x, state[0], state[1], state[2], state[3]);
      a, b, c, d := RoundTwo(q, x, a, b, c, d);
      a, b, c, d := RoundThree(q, x, a, b, c, d);
      a, b, c, d := RoundFour(q, x, a, b, c, d);
      state[0] := Add(state[0], a);
      state[1] := Add(state[1], b);
      state[2] := Add(state[2], c);
      state[3] := Add(state[3], d);
    }

    method Update(input: seq<Byte>)
      requires Valid() && |input| < 0x1_0000_0000 && GuardFits(64 - |message| % 64, |input|)
      modifies this, buffer, count, state
      ensures Valid() && message == old(message) + input && start == old(start) && finalized == old(finalized)
    {
      hide Digested, LoopEnd, GuardFits, Counts, Rest, WholeBlocks;
      ghost var m := message;
      CountsByWord(count[0], count[1], |m|);
      var index := count[0] / 8 % 64;
      Count(|input|);
      var i, left := Absorb(input, index);
      KeepRest(left, input[i..]);
      message := m + input;
    }

    /** The blocks of update: how much of the input is digested, and how much of the buffer is still in use. */
    method Absorb(input: seq<Byte>, index: nat) returns (i: Word, left: nat)
      requires Shaped() && |input| < 0x1_0000_0000 && index == |message| % 64 && GuardFits(64 - index, |input|)
      requires Quad(state[0], state[1], state[2], state[3]) == Digested(start, WholeBlocks(message))
      requires buffer[..index] == Rest(message)
      modifies buffer, state
      ensures i <= |input| && left + |input[i..]| == |message + input| % 64
      ensures Rest(message + input) == buffer[..left] + input[i..]
      ensures Quad(state[0], state[1], state[2], state[3]) == Digested(start, WholeBlocks(message + input))
    {
      hide Digested, LoopEnd, GuardFits, Rest, WholeBlocks;
      var firstpart := 64 - index;
      if |input| >= firstpart {
        i := FullBlocks(input, index);
        left := 0;
        Remainder(message, input, i);
      } else {
        i, left := 0, index;
        StillPartial(message, input);
        assert input[0..] == input;
      }
    }

    /** The last memcpy of update. */
    method KeepRest(index: nat, rest: seq<Byte>)
      requires Shaped() && index + |rest| <= 64
      modifies buffer
      ensures buffer[..index + |rest|] == old(buffer[..index]) + rest
    {
      CopyIn(buffer, index, rest);
    }

    /** The part of update that has at least one whole block: fill the buffer, then run over the input. */
    method FullBlocks(input: seq<Byte>, index: nat) returns (i: Word)
      requires Shaped() && |input| < 0x1_0000_0000 && index == |message| % 64 && 64 - index <= |input|
      requires GuardFits(64 - index, |input|)
      requires Quad(state[0], state[1], state[2], state[3]) == Digested(start, WholeBlocks(message))
      requires buffer[..index] == Rest(message)
      modifies buffer, state
      ensures i <= |input| < i + 64 && |message + input[..i]| % 64 == 0
      ensures Quad(state[0], state[1], state[2], state[3]) == Digested(start, message + input[..i])
    {
      hide Digested, Compress, LoopEnd, GuardFits, Add, Rest, WholeBlocks;
      ghost var m, rest := message, buffer[..index];
      var length: Word, firstpart := |input|, 64 - index;
      CopyIn(buffer, index, input[..firstpart]);
      assert buffer[..] == rest + input[..firstpart];
      FirstBlock(start, m, input[..firstpart]);
      Transform(buffer[..]);
      i := firstpart;
      LoopEndIsLast(firstpart, length);
      while Guard(i, length)
        invariant firstpart <= i <= LoopEnd(firstpart, length) && (i - firstpart) % 64 == 0 && (|m| + i) % 64 == 0
        invariant Quad(state[0], state[1], state[2], state[3]) == Digested(start, m + input[..i])
        modifies state
        decreases length - i
      {
        GuardInLoop(firstpart, i, length);
        NextBlock(start, m, input, i);
        Transform(input[i..i + 64]);
        i := i + 64;
      }
      GuardInLoop(firstpart, i, length);
    }

    /** The counter's part of update. */
    method Count(length: Word)
      requires Shaped()
      modifies count
      ensures forall n: nat :: Counts(old(count[0]), old(count[1]), n) ==> Counts(count[0], count[1], n + length)
    {
      var low: Word := length * 8 % 0x1_0000_0000;
      ghost var lo, hi := count[0], count[1];
      count[0] := Add(count[0], low);
      if count[0] < low {
        count[1] := Add(count[1], 1);
      }
      count[1] := Add(count[1], length / 0x2000_0000);
      forall n: nat | Counts(lo, hi, n)
        ensures Counts(count[0], count[1], n + length)
      {
        CountsAdvance(lo, hi, n, length, count[0], count[1]);
      }
    }

    method Finalize()
      requires Valid()
      modifies this, buffer, count, state, digest
      ensures Valid() && finalized
      ensures old(finalized) ==> message == old(message) && start == old(start)
      ensures old(finalized) ==> digest[..] == old(digest[..]) && buffer[..] == old(buffer[..])
      ensures !old(finalized) ==>
                && digest[..] == QuadBytes(Digested(old(start), Padded(old(message))))
                && message == [] && count[..] == [0, 0] && forall i :: 0 <= i < 64 ==> buffer[i] == 0
    {
      hide Digested, EncodeWords, Counts, Padded, Rest, WholeBlocks;
      if !finalized {
        Pad();
        Encode(digest, state[..]);
        assert state[..] == [state[0], state[1], state[2], state[3]];
        Wipe();
        finalized := true;
        start := Quad(state[0], state[1], state[2], state[3]);
        message := [];
        NothingCounted(start);
      }
    }

    /** Appends the padding and the length to what has been fed in. */
    method Pad()
      requires Valid()
      modifies this, buffer, count, state
      ensures Valid() && message == Padded(old(message)) && start == old(start) && finalized == old(finalized)
      ensures Quad(state[0], state[1], state[2], state[3]) == Digested(start, message)
    {
      hide Digested, EncodeWords, Counts, GuardFits, Padded;
      ghost var m := message;
      CountsByWord(count[0], count[1], |m|);
      var bits := new Byte[8];
      Encode(bits, count[..]);
      assert count[..] == [count[0], count[1]];
      var index := count[0] / 8 % 64;
      var padLen := if index < 56 then 56 - index else 120 - index;
      SmallUpdatesFit(index, padLen);
      Update(PADDING[..padLen]);
      SmallUpdatesFit(|message| % 64, 8);
      Update(bits[..]);
      PaddingIsStandard(m, padLen, bits[..]);
      assert WholeBlocks(message) == message;
    }

    method Wipe()
      requires Shaped()
      modifies buffer, count
      ensures count[..] == [0, 0] && forall i :: 0 <= i < 64 ==> buffer[i] == 0
    {
      for i := 0 to 64
        modifies buffer
        invariant forall k :: 0 <= k < i ==> buffer[k] == 0
      {
        buffer[i] := 0;
      }
      count[0], count[1] := 0, 0;
    }
  }

  /** However the message was cut into updates, the object that remains is the same. */
  lemma ChunksDoNotMatter(a: MD5, b: MD5)
    requires a.Valid() && b.Valid() && a.start == b.start && a.message == b.message
    ensures a.state[..] == b.state[..] && a.count[..] == b.count[..]
    ensures a.buffer[..|a.message| % 64] == b.buffer[..|a.message| % 64]
  {
    hide Digested, Rest, WholeBlocks;
    CountsByWord(a.count[0], a.count[1], |a.message|);
    CountsByWord(b.count[0], b.count[1], |b.message|);
  }

  lemma NothingCounted(q: Quad)
    ensures Counts(0, 0, 0) && Digested(q, []) == q && WholeBlocks([]) == Rest([]) == []
  {
  }

  lemma SmallUpdatesFit(index: nat, length: nat)
    requires index < 64 && length <= 120
    ensures GuardFits(64 - index, length)
  {
  }

  lemma PaddingIsStandard(m: seq<Byte>, padLen: nat, bits: seq<Byte>)
    requires padLen == (if |m| % 64 < 56 then 56 - |m| % 64 else 120 - |m| % 64)
    requires bits == LengthBytes(|m|)
    ensures m + PADDING[..padLen] + bits == Padded(m)
  {
    hide LengthBytes;
    assert padLen == 1 + ZeroCount(|m|);
    assert PADDING[..padLen] == [0x80] + Zeros(ZeroCount(|m|));
  }

  lemma LoopEndIsLast(first: nat, length: nat)
    requires first <= length
    ensures first <= LoopEnd(first, length) <= length < LoopEnd(first, length) + 64
  {
  }

  /** Filling the buffer up completes the first block. */
  lemma FirstBlock(q: Quad, m: seq<Byte>, fill: seq<Byte>)
    requires |fill| == 64 - |m| % 64
    ensures (|m| + |fill|) % 64 == 0 && |Rest(m) + fill| == 64
    ensures Digested(q, m + fill) == Compress(Digested(q, WholeBlocks(m)), Rest(m) + fill)
  {
    hide Compress;
    var t := m + fill;
    assert t[..|t| - 64] == WholeBlocks(m) && t[|t| - 64..] == Rest(m) + fill;
  }

  /** Inside the loop the 32-bit guard and the true one agree. */
  lemma GuardInLoop(first: Word, i: Word, length: Word)
    requires 0 < first <= 64 && first <= length && first <= i <= LoopEnd(first, length) && (i - first) % 64 == 0
    requires GuardFits(first, length)
    ensures Guard(i, length) <==> i + 64 <= length
    ensures i + 64 <= length ==> i + 64 <= LoopEnd(first, length)
  {
  }

  lemma NextBlock(q: Quad, m: seq<Byte>, input: seq<Byte>, i: nat)
    requires i + 64 <= |input| && |m + input[..i]| % 64 == 0 && |m + input[..i + 64]| % 64 == 0
    ensures Digested(q, m + input[..i + 64]) == Compress(Digested(q, m + input[..i]), input[i..i + 64])
  {
    hide Compress;
    var t := m + input[..i + 64];
    assert t[..|t| - 64] == m + input[..i] && t[|t| - 64..] == input[i..i + 64];
  }

  lemma Remainder(m: seq<Byte>, input: seq<Byte>, i: nat)
    requires i <= |input| < i + 64 && (|m| + i) % 64 == 0
    ensures WholeBlocks(m + input) == m + input[..i]
    ensures Rest(m + input) == input[i..] && |m + input| % 64 == |input| - i
  {
    assert |m + input| % 64 == |input| - i;
  }

  lemma StillPartial(m: seq<Byte>, input: seq<Byte>)
    requires |m| % 64 + |input| < 64
    ensures WholeBlocks(m + input) == WholeBlocks(m)
    ensures Rest(m + input) == Rest(m) + input && |m + input| % 64 == |m| % 64 + |input|
  {
    assert |m + input| % 64 == |m| % 64 + |input|;
  }

  method CopyIn(buffer: array<Byte>, at: nat, src: seq<Byte>)
    requires at + |src| <= buffer.Length
    modifies buffer
    ensures buffer[at..at + |src|] == src
    ensures forall i :: 0 <= i < buffer.Length && !(at <= i < at + |src|) ==> buffer[i] == old(buffer[i])
  {
    for k := 0 to |src|
      invariant forall x :: at <= x < at + k ==> buffer[x] == src[x - at]
      invariant forall x :: 0 <= x < buffer.Length && !(at <= x < at + k) ==> buffer[x] == old(buffer[x])
    {
      buffer[at + k] := src[k];
    }
  }

  lemma NoOperations(q: Quad, x: seq<Word>)
    requires |x| == 16
    ensures Operations(q, x, 0) == q
  {
  }

  lemma DecodedAt(b: seq<Byte>, i: nat)
    requires |b| % 4 == 0 && 4 * i < |b|
    ensures var b0: int, b1: int, b2: int, b3: int := b[4 * i], b[4 * i + 1], b[4 * i + 2], b[4 * i + 3];
            DecodeWords(b)[i] == b0 + 0x100 * b1 + 0x1_0000 * b2 + 0x100_0000 * b3
  {
  }

  /** The source's decode, over the whole output array. */
  method Decode(output: array<Word>, input: seq<Byte>)
    requires |input| == 4 * output.Length
    modifies output
    ensures output[..] == DecodeWords(input)
  {
    hide DecodeWords;
    var i, j := 0, 0;
    while j < |input|
      invariant j == 4 * i <= |input|
      invariant forall k :: 0 <= k < i ==> output[k] == DecodeWords(input)[k]
    {
      DecodedAt(input, i);
      var b0: int, b1: int, b2: int, b3: int := input[j], input[j + 1], input[j + 2], input[j + 3];
      output[i] := b0 + 0x100 * b1 + 0x1_0000 * b2 + 0x100_0000 * b3;
      i, j := i + 1, j + 4;
    }
  }

  /** The source's encode, over the whole output array. */
  method Encode(output: array<Byte>, input: seq<Word>)
    requires output.Length == 4 * |input|
    modifies output
    ensures output[..] == EncodeWords(input)
  {
    hide EncodeWords;
    var i, j := 0, 0;
    while i < |input|
      invariant j == 4 * i <= output.Length
      invariant forall k :: 0 <= k < j ==> output[k] == EncodeWords(input)[k]
    {
      EncodedAt(input, i, 0);
      EncodedAt(input, i, 1);
      EncodedAt(input, i, 2);
      EncodedAt(input, i, 3);
      var w: int := input[i];
      output[j] := w % 0x100;
      output[j + 1] := w / 0x100 % 0x100;
      output[j + 2] := w / 0x1_0000 % 0x100;
      output[j + 3] := w / 0x100_0000 % 0x100;
      i, j := i + 1, j + 4;
    }
  }
}
