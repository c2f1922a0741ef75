/** The combined 12-bit compression tables and what they mean as pairs of selection functions. */
module DesSBoxes {
  import opened DesTables
  import opened Fips46
  import opened DesBits
  import opened Slices
  import opened XDesTables

  /** The source's getcomp: one compression value from a 6-bit input. */
  function GetComp(k: nat, v: bv8): bv8
    requires k < 8 && v < 64
  {
    var i := ((v & 0x20) >> 4) | (v & 0x01);
    var j := (v & 0x1f) >> 1;
    Si(k, CompIndex(i, j))
  }

  function CompIndex(i: bv8, j: bv8): nat
    requires i < 4 && j < 16
    ensures CompIndex(i, j) < 64
  {
    ((i << 4) + j) as nat
  }

  function High6(x: bv16): bv8
    requires x < 4096
    ensures High6(x) < 64
  {
    (x >> 6) as bv8
  }

  function Low6(x: bv16): bv8
    ensures Low6(x) < 64
  {
    (x & 0x3f) as bv8
  }

  /** Entry x of the i-th combined table: two compressions in one byte. */
  function CompPair(i: nat, x: bv16): bv8
    requires i < 4 && x < 4096
  {
    (GetComp(2 * i, High6(x)) << 4) | (0x0f & GetComp(2 * i + 1, Low6(x)))
  }

  function SixBits(v: bv8): Bits {
    [v & 0x20 != 0, v & 0x10 != 0, v & 0x08 != 0, v & 0x04 != 0, v & 0x02 != 0, v & 0x01 != 0]
  }

  lemma RowAndColumn(v: bv8, i: bv8, j: bv8)
    requires v < 64 && i == ((v & 0x20) >> 4) | (v & 0x01) && j == (v & 0x1f) >> 1
    ensures i == (if v & 0x20 != 0 then 2 else 0) + (if v & 0x01 != 0 then 1 else 0)
    ensures j == (if v & 0x10 != 0 then 8 else 0) + (if v & 0x08 != 0 then 4 else 0)
              + (if v & 0x04 != 0 then 2 else 0) + (if v & 0x02 != 0 then 1 else 0)
  {
  }

  lemma IndexValue(r: Bits, c: Bits, i: bv8, j: bv8)
    requires |r| == 2 && |c| == 4
    requires i == (if r[0] then 2 else 0) + (if r[1] then 1 else 0)
    requires j == (if c[0] then 8 else 0) + (if c[1] then 4 else 0) + (if c[2] then 2 else 0) + (if c[3] then 1 else 0)
    ensures CompIndex(i, j)
         == 16 * (2 * Num(r[0]) + Num(r[1])) + (8 * Num(c[0]) + 4 * Num(c[1]) + 2 * Num(c[2]) + Num(c[3]))
  {
  }

  lemma GetCompIsS(k: nat, v: bv8, q: nat)
    requires k < 8 && v < 64 && q < 4
    ensures Bit(GetComp(k, v), 4 + q) == SBit(k, SixBits(v), q)
  {
    hide Bit, CompIndex, SRow, Si;
    var i := ((v & 0x20) >> 4) | (v & 0x01);
    var j := (v & 0x1f) >> 1;
    RowAndColumn(v, i, j);
    var b := SixBits(v);
    IndexValue([b[0], b[5]], b[1..5], i, j);
    SourceSelectionIsStandard(k, 2 * Num(b[0]) + Num(b[5]), 8 * Num(b[1]) + 4 * Num(b[2]) + 2 * Num(b[3]) + Num(b[4]));
  }

  lemma PairBits(c: bv8, d: bv8, q: nat)
    requires q < 4
    ensures Bit((c << 4) | (0x0f & d), q) == Bit(c, 4 + q)
    ensures Bit((c << 4) | (0x0f & d), 4 + q) == Bit(d, 4 + q)
  {
    match q {
      case 0 =>
      case 1 =>
      case 2 =>
      case 3 =>
    }
  }

  lemma CompPairIsS(i: nat, x: bv16, q: nat)
    requires i < 4 && x < 4096 && q < 8
    ensures Bit(CompPair(i, x), q)
         == if q < 4 then SBit(2 * i, SixBits(High6(x)), q) else SBit(2 * i + 1, SixBits(Low6(x)), q - 4)
  {
    hide Bit, GetComp, High6, Low6, SixBits, SBit;
    PairBits(GetComp(2 * i, High6(x)), GetComp(2 * i + 1, Low6(x)), q % 4);
    GetCompIsS(2 * i, High6(x), q % 4);
    GetCompIsS(2 * i + 1, Low6(x), q % 4);
  }

  /** The source's two ways to take 12 bits out of adjacent bytes. */
  function FirstTwelve(a: bv8, b: bv8): bv16
    ensures FirstTwelve(a, b) < 4096
  {
    0xfff & (((a as bv16) << 4) | (((b as bv16) >> 4) & 0x0f))
  }

  function LastTwelve(a: bv8, b: bv8): bv16
    ensures LastTwelve(a, b) < 4096
  {
    0xfff & (((a as bv16) << 8) | ((b as bv16) & 0xff))
  }

  lemma FirstTwelveBits(a: bv8, b: bv8)
    ensures SixBits(High6(FirstTwelve(a, b))) == [Bit(a, 0), Bit(a, 1), Bit(a, 2), Bit(a, 3), Bit(a, 4), Bit(a, 5)]
    ensures SixBits(Low6(FirstTwelve(a, b))) == [Bit(a, 6), Bit(a, 7), Bit(b, 0), Bit(b, 1), Bit(b, 2), Bit(b, 3)]
  {
  }

  lemma LastTwelveBits(a: bv8, b: bv8)
    ensures SixBits(High6(LastTwelve(a, b))) == [Bit(a, 4), Bit(a, 5), Bit(a, 6), Bit(a, 7), Bit(b, 0), Bit(b, 1)]
    ensures SixBits(Low6(LastTwelve(a, b))) == [Bit(b, 2), Bit(b, 3), Bit(b, 4), Bit(b, 5), Bit(b, 6), Bit(b, 7)]
  {
  }

  /** Four combined lookups on 48 bits. */
  function ContractIndex(s: seq<bv8>, i: nat): (x: bv16)
    requires |s| == 6 && i < 4
    ensures x < 4096
  {
    match i
    case 0 => FirstTwelve(s[0], s[1])
    case 1 => LastTwelve(s[1], s[2])
    case 2 => FirstTwelve(s[3], s[4])
    case 3 => LastTwelve(s[4], s[5])
  }

  function ContractBytes(s: seq<bv8>): (r: seq<bv8>)
    requires |s| == 6
    ensures |r| == 4
  {
    seq(4, i requires 0 <= i < 4 => CompPair(i, ContractIndex(s, i)))
  }

  lemma FirstTwelveWindows(a: bv8, b: bv8)
    ensures SixBits(High6(FirstTwelve(a, b))) == EightBits(a)[..6]
    ensures SixBits(Low6(FirstTwelve(a, b))) == EightBits(a)[6..] + EightBits(b)[..4]
  {
    hide Bit, SixBits, High6, Low6, FirstTwelve;
    FirstTwelveBits(a, b);
  }

  lemma LastTwelveWindows(a: bv8, b: bv8)
    ensures SixBits(High6(LastTwelve(a, b))) == EightBits(a)[4..] + EightBits(b)[..2]
    ensures SixBits(Low6(LastTwelve(a, b))) == EightBits(b)[2..]
  {
    hide Bit, SixBits, High6, Low6, LastTwelve;
    LastTwelveBits(a, b);
  }

  lemma WindowOfByte(s: seq<bv8>, i: nat)
    requires i < |s|
    ensures EightBits(s[i]) == BitsOf(s)[8 * i..8 * i + 8]
  {
    hide Bit, BitsOf;
    forall k | 0 <= k < 8
      ensures EightBits(s[i])[k] == BitsOf(s)[8 * i + k]
    {
      BitsAt(s, i, k);
    }
  }

  lemma GroupsOfFirst(s: seq<bv8>, i: nat, a: nat)
    requires |s| == 6 && i < 4 && a < 5 && 12 * i == 8 * a
    ensures SixBits(High6(FirstTwelve(s[a], s[a + 1]))) == BitsOf(s)[12 * i..12 * i + 6]
    ensures SixBits(Low6(FirstTwelve(s[a], s[a + 1]))) == BitsOf(s)[12 * i + 6..12 * i + 12]
  {
    hide Bit, BitsOf, SixBits, High6, Low6, FirstTwelve, EightBits;
    FirstTwelveWindows(s[a], s[a + 1]);
    WindowOfByte(s, a);
    WindowOfByte(s, a + 1);
    var x, lo := BitsOf(s), 8 * a;
    SliceOfSlice(x, lo, lo + 8, 0, 6);
    SliceOfSlice(x, lo, lo + 8, 6, 8);
    SliceOfSlice(x, lo + 8, lo + 16, 0, 4);
    AdjacentSlices(x, lo + 6, lo + 8, lo + 12);
  }

  lemma GroupsOfLast(s: seq<bv8>, i: nat, a: nat)
    requires |s| == 6 && i < 4 && a < 5 && 12 * i == 8 * a + 4
    ensures SixBits(High6(LastTwelve(s[a], s[a + 1]))) == BitsOf(s)[12 * i..12 * i + 6]
    ensures SixBits(Low6(LastTwelve(s[a], s[a + 1]))) == BitsOf(s)[12 * i + 6..12 * i + 12]
  {
    hide Bit, BitsOf, SixBits, High6, Low6, LastTwelve, EightBits;
    LastTwelveWindows(s[a], s[a + 1]);
    WindowOfByte(s, a);
    WindowOfByte(s, a + 1);
    var x, lo := BitsOf(s), 8 * a;
    SliceOfSlice(x, lo, lo + 8, 4, 8);
    SliceOfSlice(x, lo + 8, lo + 16, 0, 2);
    SliceOfSlice(x, lo + 8, lo + 16, 2, 8);
    AdjacentSlices(x, lo + 4, lo + 8, lo + 10);
  }

  lemma ContractGroups(s: seq<bv8>, i: nat)
    requires |s| == 6 && i < 4
    ensures SixBits(High6(ContractIndex(s, i))) == BitsOf(s)[12 * i..12 * i + 6]
    ensures SixBits(Low6(ContractIndex(s, i))) == BitsOf(s)[12 * i + 6..12 * i + 12]
  {
    hide BitsOf, SixBits, High6, Low6, FirstTwelve, LastTwelve;
    match i {
      case 0 => GroupsOfFirst(s, 0, 0);
      case 1 => GroupsOfLast(s, 1, 1);
      case 2 => GroupsOfFirst(s, 2, 3);
      case 3 => GroupsOfLast(s, 3, 4);
    }
  }

  /** The combined tables compute the eight selection functions. */
  lemma ContractIsS(s: seq<bv8>)
    requires |s| == 6
    ensures BitsOf(ContractBytes(s)) == SubstituteAll(BitsOf(s))
  {
    hide Bit, BitsOf, CompPair, ContractIndex, SBit;
    var x := SubstituteAll(BitsOf(s));
    forall i, q | 0 <= i < 4 && 0 <= q < 8
      ensures Bit(ContractBytes(s)[i], q) == x[8 * i + q]
    {
      CompPairIsS(i, ContractIndex(s, i), q);
      ContractGroups(s, i);
    }
    SameBits(ContractBytes(s), x);
  }
}
