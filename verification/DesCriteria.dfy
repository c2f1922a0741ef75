/** What is published about the selection functions and the key choices, proved of their tables. */
module DesCriteria {
  import opened DesTables
  import opened Fips46

  /** Two values that differ in at least two of their last four bits. */
  predicate Apart(x: bv8, y: bv8) {
    var d := (x ^ y) & 0x0f;
    d != 0 && d & (d - 1) != 0
  }

  /** The values in any two columns of a row whose numbers differ in one bit are apart. */
  predicate ColumnsApart(s: seq<bv8>)
    requires |s| == 16
  {
    && Apart(s[0], s[1]) && Apart(s[2], s[3]) && Apart(s[4], s[5]) && Apart(s[6], s[7])
    && Apart(s[8], s[9]) && Apart(s[10], s[11]) && Apart(s[12], s[13]) && Apart(s[14], s[15])
    && Apart(s[0], s[2]) && Apart(s[1], s[3]) && Apart(s[4], s[6]) && Apart(s[5], s[7])
    && Apart(s[8], s[10]) && Apart(s[9], s[11]) && Apart(s[12], s[14]) && Apart(s[13], s[15])
    && Apart(s[0], s[4]) && Apart(s[1], s[5]) && Apart(s[2], s[6]) && Apart(s[3], s[7])
    && Apart(s[8], s[12]) && Apart(s[9], s[13]) && Apart(s[10], s[14]) && Apart(s[11], s[15])
    && Apart(s[0], s[8]) && Apart(s[1], s[9]) && Apart(s[2], s[10]) && Apart(s[3], s[11])
    && Apart(s[4], s[12]) && Apart(s[5], s[13]) && Apart(s[6], s[14]) && Apart(s[7], s[15])
  }

  /** The values of two rows are apart in every column. */
  predicate RowsApart(s: seq<bv8>, t: seq<bv8>)
    requires |s| == |t| == 16
  {
    && Apart(s[0], t[0]) && Apart(s[1], t[1]) && Apart(s[2], t[2]) && Apart(s[3], t[3])
    && Apart(s[4], t[4]) && Apart(s[5], t[5]) && Apart(s[6], t[6]) && Apart(s[7], t[7])
    && Apart(s[8], t[8]) && Apart(s[9], t[9]) && Apart(s[10], t[10]) && Apart(s[11], t[11])
    && Apart(s[12], t[12]) && Apart(s[13], t[13]) && Apart(s[14], t[14]) && Apart(s[15], t[15])
  }

  /** The value as one of sixteen flags. */
  function Flag(v: bv8): bv16 {
    1 << (v & 0x0f)
  }

  function FourFlags(s: seq<bv8>, c: nat): bv16
    requires c + 4 <= |s|
  {
    Flag(s[c]) | Flag(s[c + 1]) | Flag(s[c + 2]) | Flag(s[c + 3])
  }

  predicate Small(s: seq<bv8>)
    requires |s| == 16
  {
    && s[0] < 16 && s[1] < 16 && s[2] < 16 && s[3] < 16 && s[4] < 16 && s[5] < 16 && s[6] < 16 && s[7] < 16
    && s[8] < 16 && s[9] < 16 && s[10] < 16 && s[11] < 16 && s[12] < 16 && s[13] < 16 && s[14] < 16 && s[15] < 16
  }

  /** What one look at the four rows of a selection function shows. */
  predicate Spread(s: seq<bv8>, t: seq<bv8>, u: seq<bv8>, v: seq<bv8>)
    requires |s| == |t| == |u| == |v| == 16
  {
    && ColumnsApart(s) && ColumnsApart(t) && ColumnsApart(u) && ColumnsApart(v)
    && RowsApart(s, t) && RowsApart(u, v) && RowsApart(s, u) && RowsApart(t, v)
  }

  predicate Full(s: seq<bv8>)
    requires |s| == 16
  {
    Small(s) && FourFlags(s, 0) | FourFlags(s, 4) | FourFlags(s, 8) | FourFlags(s, 12) == 0xffff
  }

  lemma S1Spread()
    ensures Spread(S1(0), S1(1), S1(2), S1(3))
  {
  }

  lemma S1Full()
    ensures Full(S1(0)) && Full(S1(1)) && Full(S1(2)) && Full(S1(3))
  {
  }

  lemma S2Spread()
    ensures Spread(S2(0), S2(1), S2(2), S2(3))
  {
  }

  lemma S2Full()
    ensures Full(S2(0)) && Full(S2(1)) && Full(S2(2)) && Full(S2(3))
  {
  }

  lemma S3Spread()
    ensures Spread(S3(0), S3(1), S3(2), S3(3))
  {
  }

  lemma S3Full()
    ensures Full(S3(0)) && Full(S3(1)) && Full(S3(2)) && Full(S3(3))
  {
  }

  lemma S4Spread()
    ensures Spread(S4(0), S4(1), S4(2), S4(3))
  {
  }

  lemma S4Full()
    ensures Full(S4(0)) && Full(S4(1)) && Full(S4(2)) && Full(S4(3))
  {
  }

  lemma S5Spread()
    ensures Spread(S5(0), S5(1), S5(2), S5(3))
  {
  }

  lemma S5Full()
    ensures Full(S5(0)) && Full(S5(1)) && Full(S5(2)) && Full(S5(3))
  {
  }

  lemma S6Spread()
    ensures Spread(S6(0), S6(1), S6(2), S6(3))
  {
  }

  lemma S6Full()
    ensures Full(S6(0)) && Full(S6(1)) && Full(S6(2)) && Full(S6(3))
  {
  }

  lemma S7Spread()
    ensures Spread(S7(0), S7(1), S7(2), S7(3))
  {
  }

  lemma S7Full()
    ensures Full(S7(0)) && Full(S7(1)) && Full(S7(2)) && Full(S7(3))
  {
  }

  lemma S8Spread()
    ensures Spread(S8(0), S8(1), S8(2), S8(3))
  {
  }

  lemma S8Full()
    ensures Full(S8(0)) && Full(S8(1)) && Full(S8(2)) && Full(S8(3))
  {
  }

  lemma BoxSpread(box: nat)
    requires box < 8
    ensures Spread(SRow(box, 0), SRow(box, 1), SRow(box, 2), SRow(box, 3))
  {
    hide Spread, S1, S2, S3, S4, S5, S6, S7, S8;
    match box {
      case 0 => S1Spread();
      case 1 => S2Spread();
      case 2 => S3Spread();
      case 3 => S4Spread();
      case 4 => S5Spread();
      case 5 => S6Spread();
      case 6 => S7Spread();
      case 7 => S8Spread();
    }
  }

  lemma BoxFull(box: nat)
    requires box < 8
    ensures Full(SRow(box, 0)) && Full(SRow(box, 1)) && Full(SRow(box, 2)) && Full(SRow(box, 3))
  {
    hide Full, S1, S2, S3, S4, S5, S6, S7, S8;
    match box {
      case 0 => S1Full();
      case 1 => S2Full();
      case 2 => S3Full();
      case 3 => S4Full();
      case 4 => S5Full();
      case 5 => S6Full();
      case 6 => S7Full();
      case 7 => S8Full();
    }
  }

  /** In how many of the four output bits a selection function differs on two inputs. */
  function Changes(box: nat, a: Bits, b: Bits): nat
    requires box < 8 && |a| == |b| == 6
  {
    Num(SBit(box, a, 0) != SBit(box, b, 0)) + Num(SBit(box, a, 1) != SBit(box, b, 1)) +
    Num(SBit(box, a, 2) != SBit(box, b, 2)) + Num(SBit(box, a, 3) != SBit(box, b, 3))
  }

  lemma ApartInTwo(x: bv8, y: bv8)
    requires Apart(x, y)
    ensures Num(Bit(x, 4) != Bit(y, 4)) + Num(Bit(x, 5) != Bit(y, 5)) +
            Num(Bit(x, 6) != Bit(y, 6)) + Num(Bit(x, 7) != Bit(y, 7)) >= 2
    ensures Apart(y, x)
  {
  }

  function RowOf(b: Bits): nat
    requires |b| == 6
  {
    2 * Num(b[0]) + Num(b[5])
  }

  function ColumnOf(b: Bits): nat
    requires |b| == 6
  {
    8 * Num(b[1]) + 4 * Num(b[2]) + 2 * Num(b[3]) + Num(b[4])
  }

  /** The value of a selection function on six bits. */
  function Value(box: nat, b: Bits): bv8
    requires box < 8 && |b| == 6
  {
    SRow(box, RowOf(b))[ColumnOf(b)]
  }

  lemma NeighboursApart(box: nat, b: Bits, i: nat)
    requires box < 8 && |b| == 6 && i < 6 && !b[i]
    ensures Apart(Value(box, b), Value(box, b[i := true]))
  {
    hide SRow, Apart;
    BoxSpread(box);
  }

  lemma ValueBit(box: nat, b: Bits, k: nat)
    requires box < 8 && |b| == 6 && k < 4
    ensures SBit(box, b, k) == Bit(Value(box, b), 4 + k)
  {
    hide SRow, Bit;
  }

  lemma ApartChangesTwo(box: nat, a: Bits, b: Bits)
    requires box < 8 && |a| == |b| == 6 && Apart(Value(box, a), Value(box, b))
    ensures Changes(box, a, b) >= 2 && Changes(box, b, a) >= 2
  {
    hide SBit, Value, Apart, Bit;
    ApartInTwo(Value(box, a), Value(box, b));
    forall k | 0 <= k < 4
      ensures SBit(box, a, k) == Bit(Value(box, a), 4 + k) && SBit(box, b, k) == Bit(Value(box, b), 4 + k)
    {
      ValueBit(box, a, k);
      ValueBit(box, b, k);
    }
  }

  /** Changing one bit of the input of a selection function changes at least two bits of its output. */
  lemma OneBitChangesTwo(box: nat, b: Bits, i: nat)
    requires box < 8 && |b| == 6 && i < 6
    ensures Changes(box, b, b[i := !b[i]]) >= 2
  {
    hide SBit, Apart, Value, Changes;
    var low := b[i := false];
    NeighboursApart(box, low, i);
    ApartChangesTwo(box, low, low[i := true]);
    if b[i] {
      assert low[i := true] == b && b[i := false] == low;
    } else {
      assert low == b;
    }
  }

  lemma FlagsMeet(x: bv8, v: bv8)
    requires x < 16 && v < 16
    ensures (Flag(x) & Flag(v) != 0) == (x == v)
  {
  }

  lemma FourFlagsMeet(s: seq<bv8>, c: nat, v: bv8)
    requires |s| == 16 && Small(s) && c + 4 <= 16 && v < 16
    ensures FourFlags(s, c) & Flag(v) != 0 ==> v in s[c..c + 4]
  {
    hide Flag;
    FlagsMeet(s[c], v);
    FlagsMeet(s[c + 1], v);
    FlagsMeet(s[c + 2], v);
    FlagsMeet(s[c + 3], v);
    var four := s[c..c + 4];
    assert four[0] == s[c] && four[1] == s[c + 1] && four[2] == s[c + 2] && four[3] == s[c + 3];
  }

  lemma FullHoldsAll(s: seq<bv8>, v: bv8)
    requires |s| == 16 && Full(s) && v < 16
    ensures v in s
  {
    hide Flag, FourFlags, Small;
    FourFlagsMeet(s, 0, v);
    FourFlagsMeet(s, 4, v);
    FourFlagsMeet(s, 8, v);
    FourFlagsMeet(s, 12, v);
    FlagsMeet(v, v);
  }

  /** Every row of a selection function holds each of the numbers below sixteen, so it is a permutation of them. */
  lemma RowHoldsAll(box: nat, row: nat, v: bv8)
    requires box < 8 && row < 4 && v < 16
    ensures v in SRow(box, row)
  {
    hide SRow, Full;
    BoxFull(box);
    FullHoldsAll(SRow(box, row), v);
  }

  // The key choices.

  /** Permuted choice 1 takes no parity bit, that is none of the positions 8, 16, .. 64. */
  lemma ChoiceSkipsParity(k: nat)
    requires k < 56
    ensures (KeyChoice1()[k] - 1) % 8 != 7
  {
    var c := k % 7;
    assert (KeyChoice1Row(k / 7)[c] - 1) % 8 != 7;
  }

  lemma {:induction false} SameChoiceSameHalves(a: Bits, b: Bits, n: nat)
    requires |a| == |b| == 64 && n <= 16 && Select(a, KeyChoice1()) == Select(b, KeyChoice1())
    ensures ShiftedHalves(a, n) == ShiftedHalves(b, n)
  {
    if n > 0 {
      SameChoiceSameHalves(a, b, n - 1);
    }
  }

  lemma SameChoice(a: Bits, b: Bits)
    requires |a| == |b| == 64
    requires forall i :: 0 <= i < 64 && i % 8 != 7 ==> a[i] == b[i]
    ensures Select(a, KeyChoice1()) == Select(b, KeyChoice1())
  {
    hide KeyChoice1;
    forall k | 0 <= k < 56
      ensures Select(a, KeyChoice1())[k] == Select(b, KeyChoice1())[k]
    {
      ChoiceSkipsParity(k);
    }
  }

  /** Keys that agree but for their parity bits have the same key schedule. */
  lemma ParityIgnored(a: Bits, b: Bits)
    requires |a| == |b| == 64
    requires forall i :: 0 <= i < 64 && i % 8 != 7 ==> a[i] == b[i]
    ensures KeySchedule(a) == KeySchedule(b)
  {
    hide KeySchedule, KeyChoice1, KeyChoice2, ShiftedHalves, Select;
    SameChoice(a, b);
    KeyScheduleRows(a);
    KeyScheduleRows(b);
    forall n | 0 <= n < 16
      ensures KeySchedule(a)[n] == KeySchedule(b)[n]
    {
      SameChoiceSameHalves(a, b, n + 1);
    }
    assert KeySchedule(a) == KeySchedule(b);
  }

  /** Both halves of the chosen key bits are constant. */
  ghost predicate WeakKey(key: Bits)
    requires |key| == 64
  {
    var cd := Select(key, KeyChoice1());
    && (forall i :: 0 <= i < 28 ==> cd[i] == cd[0])
    && (forall i :: 28 <= i < 56 ==> cd[i] == cd[28])
  }

  lemma {:induction false} WeakKeyStands(key: Bits, n: nat)
    requires |key| == 64 && WeakKey(key) && n <= 16
    ensures ShiftedHalves(key, n) == Select(key, KeyChoice1())
  {
    hide KeyChoice1, Select, RotateLeft;
    if n > 0 {
      WeakKeyStands(key, n - 1);
      var cd := Select(key, KeyChoice1());
      forall j | 0 <= j < 56
        ensures ShiftedHalves(key, n)[j] == cd[j]
      {
        RotatedOnceAt(cd, Shifts(n), j);
      }
    }
  }

  /** Enciphering twice under a weak key gives the block back. */
  lemma WeakKeysUndoThemselves(block: Bits, key: Bits)
    requires |block| == |key| == 64 && WeakKey(key)
    ensures Encipher(Encipher(block, key), key) == block
  {
    hide ShiftedHalves, KeyChoice1, KeyChoice2, Select, Cipher;
    var ks := KeySchedule(key);
    forall n | 0 <= n < 16
      ensures ks[n] == Reverse(ks)[n]
    {
      WeakKeyStands(key, n + 1);
      WeakKeyStands(key, 16 - n);
    }
    assert Reverse(ks) == ks;
    CipherUndone(block, ks);
  }
}
