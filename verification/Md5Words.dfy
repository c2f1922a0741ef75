/** The words of RFC 1321, the functions on them, and what these do to single bits. */
module Md5Words {

  type Word = x: int | 0 <= x < 0x1_0000_0000

  /** Addition of words modulo 2^32. */
  function Add(x: Word, y: Word): Word {
    (x + y) % 0x1_0000_0000
  }

  // The functions of section 3.4, on bits and on words.

  function FBits(x: bv32, y: bv32, z: bv32): bv32 { (x & y) | (!x & z) }

  function GBits(x: bv32, y: bv32, z: bv32): bv32 { (x & z) | (y & !z) }

  function HBits(x: bv32, y: bv32, z: bv32): bv32 { x ^ y ^ z }

  function IBits(x: bv32, y: bv32, z: bv32): bv32 { y ^ (x | !z) }

  function RotateBits(x: bv32, n: bv32): bv32
    requires 0 < n < 32
  {
    (x << n) | (x >> (32 - n))
  }

  function F(x: Word, y: Word, z: Word): Word {
    FBits(x as bv32, y as bv32, z as bv32) as Word
  }

  function G(x: Word, y: Word, z: Word): Word {
    GBits(x as bv32, y as bv32, z as bv32) as Word
  }

  function H(x: Word, y: Word, z: Word): Word {
    HBits(x as bv32, y as bv32, z as bv32) as Word
  }

  function I(x: Word, y: Word, z: Word): Word {
    IBits(x as bv32, y as bv32, z as bv32) as Word
  }

  /** Rotation of a word to the left. */
  function RotateLeft(x: Word, n: bv32): Word
    requires 0 < n < 32
  {
    RotateBits(x as bv32, n) as Word
  }

  /** Bit k of a word, counted from the low-order end. */
  predicate WordBit(x: Word, k: bv32)
    requires k < 32
  {
    At(x as bv32, k)
  }

  predicate At(b: bv32, k: bv32)
    requires k < 32
  {
    (b >> k) & 1 == 1
  }

  lemma FAt(x: bv32, y: bv32, z: bv32, k: bv32)
    requires k < 32
    ensures At((x & y) | (!x & z), k) == (if At(x, k) then At(y, k) else At(z, k))
  {
  }

  lemma FBitsAt(x: bv32, y: bv32, z: bv32, k: bv32)
    requires k < 32
    ensures At(FBits(x, y, z), k) == (if At(x, k) then At(y, k) else At(z, k))
  {
    hide At;
    FAt(x, y, z, k);
  }

  lemma GAt(x: bv32, y: bv32, z: bv32, k: bv32)
    requires k < 32
    ensures At((x & z) | (y & !z), k) == (if At(z, k) then At(x, k) else At(y, k))
  {
  }

  lemma GBitsAt(x: bv32, y: bv32, z: bv32, k: bv32)
    requires k < 32
    ensures At(GBits(x, y, z), k) == (if At(z, k) then At(x, k) else At(y, k))
  {
    hide At;
    GAt(x, y, z, k);
  }

  lemma HAt(x: bv32, y: bv32, z: bv32, k: bv32)
    requires k < 32
    ensures At(x ^ y ^ z, k) == (At(x, k) != (At(y, k) != At(z, k)))
  {
  }

  lemma HBitsAt(x: bv32, y: bv32, z: bv32, k: bv32)
    requires k < 32
    ensures At(HBits(x, y, z), k) == (At(x, k) != (At(y, k) != At(z, k)))
  {
    hide At;
    HAt(x, y, z, k);
  }

  lemma IAt(x: bv32, y: bv32, z: bv32, k: bv32)
    requires k < 32
    ensures At(y ^ (x | !z), k) == (At(y, k) != (At(x, k) || !At(z, k)))
  {
  }

  lemma IBitsAt(x: bv32, y: bv32, z: bv32, k: bv32)
    requires k < 32
    ensures At(IBits(x, y, z), k) == (At(y, k) != (At(x, k) || !At(z, k)))
  {
    hide At;
    IAt(x, y, z, k);
  }

  lemma RotatedAt(x: bv32, n: bv32, k: bv32)
    requires 0 < n < 32 && k < 32
    ensures At((x << n) | (x >> (32 - n)), k) == At(x, (k - n) & 31)
  {
  }

  lemma RotateBitsAt(x: bv32, n: bv32, k: bv32)
    requires 0 < n < 32 && k < 32
    ensures At(RotateBits(x, n), k) == At(x, (k - n) & 31)
  {
    hide At;
    RotatedAt(x, n, k);
  }

  lemma BitOfWord(b: bv32, k: bv32)
    requires k < 32
    ensures WordBit(b as Word, k) == At(b, k)
  {
    hide At;
  }

  lemma EndBits(x: Word)
    ensures At(x as bv32, 0) == (x % 2 == 1)
    ensures At(x as bv32, 31) == (x / 0x8000_0000 % 2 == 1)
  {
  }

  /** The lowest and the highest bit as digits of the number. */
  lemma LowestAndHighest(x: Word)
    ensures WordBit(x, 0) == (x % 2 == 1)
    ensures WordBit(x, 31) == (x / 0x8000_0000 % 2 == 1)
  {
    hide At;
    EndBits(x);
  }

  /** F lets x choose between y and z. */
  lemma FChooses(x: Word, y: Word, z: Word, k: bv32)
    requires k < 32
    ensures WordBit(F(x, y, z), k) == (if WordBit(x, k) then WordBit(y, k) else WordBit(z, k))
  {
    hide At, FBits;
    FBitsAt(x as bv32, y as bv32, z as bv32, k);
    BitOfWord(FBits(x as bv32, y as bv32, z as bv32), k);
  }

  /** G lets z choose between x and y. */
  lemma GChooses(x: Word, y: Word, z: Word, k: bv32)
    requires k < 32
    ensures WordBit(G(x, y, z), k) == (if WordBit(z, k) then WordBit(x, k) else WordBit(y, k))
  {
    hide At, GBits;
    GBitsAt(x as bv32, y as bv32, z as bv32, k);
    BitOfWord(GBits(x as bv32, y as bv32, z as bv32), k);
  }

  /** H is the parity. */
  lemma HIsParity(x: Word, y: Word, z: Word, k: bv32)
    requires k < 32
    ensures WordBit(H(x, y, z), k) == (WordBit(x, k) != (WordBit(y, k) != WordBit(z, k)))
  {
    hide At, HBits;
    HBitsAt(x as bv32, y as bv32, z as bv32, k);
    BitOfWord(HBits(x as bv32, y as bv32, z as bv32), k);
  }

  /** In I, y differs from (x or not z). */
  lemma IDiffers(x: Word, y: Word, z: Word, k: bv32)
    requires k < 32
    ensures WordBit(I(x, y, z), k) == (WordBit(y, k) != (WordBit(x, k) || !WordBit(z, k)))
  {
    hide At, IBits;
    IBitsAt(x as bv32, y as bv32, z as bv32, k);
    BitOfWord(IBits(x as bv32, y as bv32, z as bv32), k);
  }

  /** Rotating to the left moves bit k - n to place k, modulo 32. */
  lemma RotationMovesBits(x: Word, n: bv32, k: bv32)
    requires 0 < n < 32 && k < 32
    ensures WordBit(RotateLeft(x, n), k) == WordBit(x, (k - n) & 31)
  {
    hide At, RotateBits;
    BitOfWord(RotateBits(x as bv32, n), k);
    RotateBitsAt(x as bv32, n, k);
  }
}
