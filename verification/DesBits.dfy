/** Bytes as bit strings, leftmost bit first, and the bit-level meaning of the source's byte tricks. */
module DesBits {
  import opened DesTables
  import opened Fips46

  /** The source's nibblebit. */
  function NibbleMask(k: nat): bv8
    requires k < 4
  {
    match k
    case 0 => 8
    case 1 => 4
    case 2 => 2
    case 3 => 1
  }

  /** Bit k of a 4-bit table index. */
  predicate NibbleBit(j: nat, k: nat)
    requires j < 16 && k < 4
  {
    (j as bv8) & NibbleMask(k) != 0
  }

  function BitsOf(s: seq<bv8>): (r: Bits)
    ensures |r| == 8 * |s|
  {
    seq(8 * |s|, i requires 0 <= i < 8 * |s| => Bit(s[i / 8], i % 8))
  }

  function ByteOf(b: Bits): bv8
    requires |b| == 8
  {
    (if b[0] then 0x80 else 0) | (if b[1] then 0x40 else 0) | (if b[2] then 0x20 else 0) | (if b[3] then 0x10 else 0) |
    (if b[4] then 0x08 else 0) | (if b[5] then 0x04 else 0) | (if b[6] then 0x02 else 0) | (if b[7] then 0x01 else 0)
  }

  function BytesOf(b: Bits): (s: seq<bv8>)
    requires |b| % 8 == 0
    ensures |s| == |b| / 8
  {
    seq(|b| / 8, i requires 0 <= i < |b| / 8 => ByteOf(b[8 * i..8 * i + 8]))
  }

  function Or8(a: bv8, b: bv8): bv8 { a | b }

  function Xor8(a: bv8, b: bv8): bv8 { a ^ b }

  // Facts about one mask, then the same facts about bit k.

  lemma OrAtMask(a: bv8, b: bv8, m: bv8)
    requires m == 0x80 || m == 0x40 || m == 0x20 || m == 0x10 || m == 8 || m == 4 || m == 2 || m == 1
    ensures ((a | b) & m != 0) == (a & m != 0 || b & m != 0)
  {
  }

  lemma XorAtMask(a: bv8, b: bv8, m: bv8)
    requires m == 0x80 || m == 0x40 || m == 0x20 || m == 0x10 || m == 8 || m == 4 || m == 2 || m == 1
    ensures ((a ^ b) & m != 0) == ((a & m != 0) != (b & m != 0))
  {
  }

  lemma BitOfOr(a: bv8, b: bv8, k: nat)
    requires k < 8
    ensures Bit(Or8(a, b), k) == (Bit(a, k) || Bit(b, k))
  {
    OrAtMask(a, b, ByteBit(k));
  }

  lemma BitOfXor(a: bv8, b: bv8, k: nat)
    requires k < 8
    ensures Bit(Xor8(a, b), k) == (Bit(a, k) != Bit(b, k))
  {
    XorAtMask(a, b, ByteBit(k));
  }

  lemma BitOfMask(k: nat, m: nat)
    requires k < 8 && m < 8
    ensures Bit(ByteBit(k), m) == (k == m)
    ensures !Bit(0, m)
  {
  }

  function EightBits(e: bv8): Bits {
    [Bit(e, 0), Bit(e, 1), Bit(e, 2), Bit(e, 3), Bit(e, 4), Bit(e, 5), Bit(e, 6), Bit(e, 7)]
  }

  lemma EightBitsAt(e: bv8, f: Bits, m: nat)
    requires EightBits(e) == f && m < 8
    ensures Bit(e, m) == f[m]
  {
    hide Bit;
    assert EightBits(e)[m] == Bit(e, m);
  }

  lemma SameBitsSameByte(a: bv8, b: bv8)
    requires EightBits(a) == EightBits(b)
    ensures a == b
  {
    var s, t := EightBits(a), EightBits(b);
    assert s[0] == t[0] && s[1] == t[1] && s[2] == t[2] && s[3] == t[3];
    assert s[4] == t[4] && s[5] == t[5] && s[6] == t[6] && s[7] == t[7];
  }

  lemma EightBitsOfByteOf(b: Bits)
    requires |b| == 8
    ensures EightBits(ByteOf(b)) == b
  {
  }

  lemma BitOfByteOf(b: Bits, k: nat)
    requires |b| == 8 && k < 8
    ensures Bit(ByteOf(b), k) == b[k]
  {
    hide Bit, ByteOf;
    EightBitsOfByteOf(b);
    EightBitsAt(ByteOf(b), b, k);
  }

  lemma NibblesAtMask(b: bv8, m: bv8)
    requires m == 8 || m == 4 || m == 2 || m == 1
    ensures (((b >> 4) & 0x0f) & m != 0) == (b & (m << 4) != 0)
    ensures ((b & 0x0f) & m != 0) == (b & m != 0)
  {
  }

  lemma NibbleMasks(k: nat)
    requires k < 4
    ensures NibbleMask(k) << 4 == ByteBit(k) && NibbleMask(k) == ByteBit(4 + k)
    ensures NibbleMask(k) == 8 || NibbleMask(k) == 4 || NibbleMask(k) == 2 || NibbleMask(k) == 1
  {
  }

  lemma NibbleIndex(h: bv8, m: bv8)
    requires h < 16
    ensures (h as nat) < 16 && ((h as nat) as bv8) & m == h & m
  {
  }

  lemma NibblesOfByte(b: bv8, k: nat)
    requires k < 4
    ensures NibbleBit(((b >> 4) & 0x0f) as nat, k) == Bit(b, k)
    ensures NibbleBit((b & 0x0f) as nat, k) == Bit(b, 4 + k)
  {
    hide NibbleMask, ByteBit;
    var m := NibbleMask(k);
    NibbleMasks(k);
    NibblesAtMask(b, m);
    NibbleIndex((b >> 4) & 0x0f, m);
    NibbleIndex(b & 0x0f, m);
  }

  lemma BitsAt(s: seq<bv8>, i: nat, k: nat)
    requires i < |s| && k < 8
    ensures 8 * i + k < 8 * |s| && BitsOf(s)[8 * i + k] == Bit(s[i], k)
  {
    hide Bit;
    assert (8 * i + k) / 8 == i && (8 * i + k) % 8 == k;
  }

  lemma BitAt(s: seq<bv8>, l: nat)
    requires l < 8 * |s|
    ensures BitsOf(s)[l] == Bit(s[l / 8], l % 8)
  {
    hide Bit;
  }

  lemma ByteOfItsBits(s: seq<bv8>, i: nat)
    requires i < |s|
    ensures ByteOf(BitsOf(s)[8 * i..8 * i + 8]) == s[i]
  {
    hide Bit, ByteOf;
    var b := BitsOf(s)[8 * i..8 * i + 8];
    forall k | 0 <= k < 8
      ensures b[k] == EightBits(s[i])[k]
    {
      BitsAt(s, i, k);
    }
    assert b == EightBits(s[i]);
    EightBitsOfByteOf(b);
    SameBitsSameByte(ByteOf(b), s[i]);
  }

  /** Bit strings and byte strings convert into each other without loss. */
  lemma BytesOfBitsOf(s: seq<bv8>)
    ensures BytesOf(BitsOf(s)) == s
  {
    hide ByteOf, Bit;
    forall i | 0 <= i < |s|
      ensures BytesOf(BitsOf(s))[i] == s[i]
    {
      ByteOfItsBits(s, i);
    }
  }

  lemma BitsOfBytesOf(b: Bits)
    requires |b| % 8 == 0
    ensures BitsOf(BytesOf(b)) == b
  {
    hide ByteOf, Bit;
    forall i | 0 <= i < |b|
      ensures BitsOf(BytesOf(b))[i] == b[i]
    {
      BitOfByteOf(b[8 * (i / 8)..8 * (i / 8) + 8], i % 8);
    }
  }

  lemma SameBits(s: seq<bv8>, x: Bits)
    requires |x| == 8 * |s|
    requires forall i, m :: 0 <= i < |s| && 0 <= m < 8 ==> Bit(s[i], m) == x[8 * i + m]
    ensures BitsOf(s) == x
  {
    hide Bit;
    forall k | 0 <= k < 8 * |s|
      ensures BitsOf(s)[k] == x[k]
    {
      assert Bit(s[k / 8], k % 8) == x[8 * (k / 8) + k % 8];
    }
  }

  lemma BitsOfConcat(s: seq<bv8>, t: seq<bv8>)
    ensures BitsOf(s + t) == BitsOf(s) + BitsOf(t)
  {
    hide Bit;
    forall i, m | 0 <= i < |s + t| && 0 <= m < 8
      ensures Bit((s + t)[i], m) == (BitsOf(s) + BitsOf(t))[8 * i + m]
    {
      if i < |s| {
        BitsAt(s, i, m);
      } else {
        BitsAt(t, i - |s|, m);
      }
    }
    SameBits(s + t, BitsOf(s) + BitsOf(t));
  }

  /** Byte-wise exclusive or is bit-wise exclusive or. */
  function XorBytes(a: seq<bv8>, b: seq<bv8>): (r: seq<bv8>)
    requires |a| == |b|
    ensures |r| == |a|
  {
    seq(|a|, i requires 0 <= i < |a| => Xor8(a[i], b[i]))
  }

  lemma BitsOfXor(a: seq<bv8>, b: seq<bv8>)
    requires |a| == |b|
    ensures BitsOf(XorBytes(a, b)) == Xor(BitsOf(a), BitsOf(b))
  {
    hide Bit, Or8, Xor8;
    forall i | 0 <= i < 8 * |a|
      ensures BitsOf(XorBytes(a, b))[i] == Xor(BitsOf(a), BitsOf(b))[i]
    {
      BitOfXor(a[i / 8], b[i / 8], i % 8);
    }
  }

  lemma OrTwice(a: bv8, b: bv8, c: bv8)
    ensures Or8(a, Or8(b, c)) == Or8(Or8(a, b), c)
  {
  }

  function OrBytes(a: seq<bv8>, b: seq<bv8>): (r: seq<bv8>)
    requires |a| == |b|
    ensures |r| == |a|
  {
    seq(|a|, i requires 0 <= i < |a| => Or8(a[i], b[i]))
  }

  function Or(a: Bits, b: Bits): (r: Bits)
    requires |a| == |b|
    ensures |r| == |a|
  {
    seq(|a|, i requires 0 <= i < |a| => a[i] || b[i])
  }

  lemma BitsOfOr(a: seq<bv8>, b: seq<bv8>)
    requires |a| == |b|
    ensures BitsOf(OrBytes(a, b)) == Or(BitsOf(a), BitsOf(b))
  {
    hide Bit, Or8, Xor8;
    forall i | 0 <= i < 8 * |a|
      ensures BitsOf(OrBytes(a, b))[i] == Or(BitsOf(a), BitsOf(b))[i]
    {
      BitOfOr(a[i / 8], b[i / 8], i % 8);
    }
  }

  // Building a byte string by setting single bits, as every table of the source is built.

  lemma SetBit(row: seq<bv8>, k: nat)
    requires k < 8 * |row|
    ensures BitsOf(row[k / 8 := Or8(row[k / 8], ByteBit(k % 8))]) == BitsOf(row)[k := true]
  {
    hide Bit, ByteBit, Or8, Xor8;
    var row' := row[k / 8 := Or8(row[k / 8], ByteBit(k % 8))];
    forall i, m | 0 <= i < |row'| && 0 <= m < 8
      ensures Bit(row'[i], m) == BitsOf(row)[k := true][8 * i + m]
    {
      BitOfOr(row[i], ByteBit(k % 8), m);
      BitOfMask(k % 8, m);
      BitsAt(row, i, m);
    }
    SameBits(row', BitsOf(row)[k := true]);
  }

  /** The first n bits of x, then zeros. */
  function FirstBits(x: Bits, n: nat): (r: Bits)
    ensures |r| == |x|
  {
    seq(|x|, i requires 0 <= i < |x| => i < n && x[i])
  }

  lemma ZeroBytes(row: seq<bv8>, x: Bits)
    requires |x| == 8 * |row| && forall i :: 0 <= i < |row| ==> row[i] == 0
    ensures BitsOf(row) == FirstBits(x, 0)
  {
    hide Bit, ByteBit;
    forall i, m | 0 <= i < |row| && 0 <= m < 8
      ensures Bit(row[i], m) == FirstBits(x, 0)[8 * i + m]
    {
      BitOfMask(m, m);
    }
    SameBits(row, FirstBits(x, 0));
  }

  // The shift-and-mask expansion: three byte shapes, each occurring twice.

  function ExpandFirst(before: bv8, cur: bv8): bv8 {
    ((before & 0x01) << 7) | ((cur & 0xf8) >> 1) | ((cur & 0x18) >> 3)
  }

  function ExpandSecond(cur: bv8, after: bv8): bv8 {
    ((cur & 0x07) << 5) | ((after & 0x80) >> 3) | ((cur & 0x01) << 3) | ((after & 0xe0) >> 5)
  }

  function ExpandThird(cur: bv8, after: bv8): bv8 {
    ((cur & 0x18) << 3) | ((cur & 0x1f) << 1) | ((after & 0x80) >> 7)
  }

  function ExpandBytes(r: seq<bv8>): (b: seq<bv8>)
    requires |r| == 4
    ensures |b| == 6
  {
    [ExpandFirst(r[3], r[0]), ExpandSecond(r[0], r[1]), ExpandThird(r[1], r[2]),
     ExpandFirst(r[1], r[2]), ExpandSecond(r[2], r[3]), ExpandThird(r[3], r[0])]
  }

  lemma ExpandFirstBits(before: bv8, cur: bv8)
    ensures EightBits(ExpandFirst(before, cur))
         == [Bit(before, 7), Bit(cur, 0), Bit(cur, 1), Bit(cur, 2), Bit(cur, 3), Bit(cur, 4), Bit(cur, 3), Bit(cur, 4)]
  {
  }

  lemma ExpandSecondBits(cur: bv8, after: bv8)
    ensures EightBits(ExpandSecond(cur, after))
         == [Bit(cur, 5), Bit(cur, 6), Bit(cur, 7), Bit(after, 0),
             Bit(cur, 7), Bit(after, 0), Bit(after, 1), Bit(after, 2)]
  {
  }

  lemma ExpandThirdBits(cur: bv8, after: bv8)
    ensures EightBits(ExpandThird(cur, after))
         == [Bit(cur, 3), Bit(cur, 4), Bit(cur, 3), Bit(cur, 4), Bit(cur, 5), Bit(cur, 6), Bit(cur, 7), Bit(after, 0)]
  {
  }

  /** The input byte that the shifts and masks bring to bit m of output byte b, and the bit of it. */
  function SourceByte(b: nat, m: nat): (i: nat)
    requires b < 6 && m < 8
    ensures i < 4
  {
    match b
    case 0 => if m == 0 then 3 else 0
    case 1 => if m < 3 || m == 4 then 0 else 1
    case 2 => if m < 7 then 1 else 2
    case 3 => if m == 0 then 1 else 2
    case 4 => if m < 3 || m == 4 then 2 else 3
    case 5 => if m < 7 then 3 else 0
  }

  function SourceBit(shape: nat, m: nat): (k: nat)
    requires shape < 3 && m < 8
    ensures k < 8
  {
    match shape
    case 0 => [7, 0, 1, 2, 3, 4, 3, 4][m]
    case 1 => [5, 6, 7, 0, 7, 0, 1, 2][m]
    case 2 => [3, 4, 3, 4, 5, 6, 7, 0][m]
  }

  /** Row and column of table E at bit m of output byte b. */
  function GroupOf(b: nat, m: nat): (nat, nat)
    requires b < 6 && m < 8
  {
    var g := if b < 3 then 0 else 4;
    match b % 3
    case 0 => if m < 6 then (g, m) else (g + 1, m - 6)
    case 1 => if m < 4 then (g + 1, m + 2) else (g + 2, m - 4)
    case _ => if m < 2 then (g + 2, m + 4) else (g + 3, m - 2)
  }

  lemma SourcesByGroup(b: nat, m: nat)
    requires b < 6 && m < 8
    ensures var (g, c) := GroupOf(b, m);
            && g < 8 && c < 6 && 8 * b + m == 6 * g + c
            && 8 * SourceByte(b, m) + SourceBit(b % 3, m)
               == (if g == c == 0 then 31 else if g == 7 && c == 5 then 0 else 4 * g + c - 1)
  {
    match b {
      case 0 =>
      case 1 =>
      case 2 =>
      case 3 =>
      case 4 =>
      case 5 =>
    }
  }

  lemma SourcesAreE(b: nat, m: nat)
    requires b < 6 && m < 8
    ensures 8 * SourceByte(b, m) + SourceBit(b % 3, m) == Expansion()[8 * b + m] - 1
  {
    hide SourceByte, SourceBit, GroupOf, ExpansionRow;
    SourcesByGroup(b, m);
    var (g, c) := GroupOf(b, m);
    ExpansionInClosedForm(8 * b + m, g, c);
  }

  lemma ExpandedFirstAt(before: bv8, cur: bv8, m: nat)
    requires m < 8
    ensures Bit(ExpandFirst(before, cur), m) == Bit(if m == 0 then before else cur, SourceBit(0, m))
  {
    hide Bit, ExpandFirst;
    ExpandFirstBits(before, cur);
    assert EightBits(ExpandFirst(before, cur))[m] == Bit(ExpandFirst(before, cur), m);
  }

  lemma ExpandedSecondAt(cur: bv8, after: bv8, m: nat)
    requires m < 8
    ensures Bit(ExpandSecond(cur, after), m) == Bit(if m < 3 || m == 4 then cur else after, SourceBit(1, m))
  {
    hide Bit, ExpandSecond;
    ExpandSecondBits(cur, after);
    assert EightBits(ExpandSecond(cur, after))[m] == Bit(ExpandSecond(cur, after), m);
  }

  lemma ExpandedThirdAt(cur: bv8, after: bv8, m: nat)
    requires m < 8
    ensures Bit(ExpandThird(cur, after), m) == Bit(if m < 7 then cur else after, SourceBit(2, m))
  {
    hide Bit, ExpandThird;
    ExpandThirdBits(cur, after);
    assert EightBits(ExpandThird(cur, after))[m] == Bit(ExpandThird(cur, after), m);
  }

  lemma ExpandedAt(r: seq<bv8>, b: nat, m: nat)
    requires |r| == 4 && b < 6 && m < 8
    ensures Bit(ExpandBytes(r)[b], m) == Bit(r[SourceByte(b, m)], SourceBit(b % 3, m))
  {
    hide Bit, SourceBit, ExpandFirst, ExpandSecond, ExpandThird;
    match b {
      case 0 => ExpandedFirstAt(r[3], r[0], m);
      case 1 => ExpandedSecondAt(r[0], r[1], m);
      case 2 => ExpandedThirdAt(r[1], r[2], m);
      case 3 => ExpandedFirstAt(r[1], r[2], m);
      case 4 => ExpandedSecondAt(r[2], r[3], m);
      case 5 => ExpandedThirdAt(r[3], r[0], m);
    }
  }

  /** The shift-and-mask expansion is the table E. */
  lemma ExpandIsE(r: seq<bv8>)
    requires |r| == 4
    ensures BitsOf(ExpandBytes(r)) == Select(BitsOf(r), Expansion())
  {
    hide Bit, ExpandBytes, SourceByte, SourceBit, Expansion;
    var x := Select(BitsOf(r), Expansion());
    forall b, m | 0 <= b < 6 && 0 <= m < 8
      ensures Bit(ExpandBytes(r)[b], m) == x[8 * b + m]
    {
      ExpandedAt(r, b, m);
      SourcesAreE(b, m);
      BitsAt(r, SourceByte(b, m), SourceBit(b % 3, m));
    }
    SameBits(ExpandBytes(r), x);
  }
}
