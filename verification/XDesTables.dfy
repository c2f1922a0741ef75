/** The source's own tables, as it lists them, and their agreement with those of the standard. */
module XDesTables {
  import opened DesTables

  /** `ip`, the initial permutation. */
  function IpRow(r: nat): (row: seq<nat>)
    requires r < 8
    ensures Selects(row, 8, 64)
  {
    match r
    case 0 => [58, 50, 42, 34, 26, 18, 10, 2]
    case 1 => [60, 52, 44, 36, 28, 20, 12, 4]
    case 2 => [62, 54, 46, 38, 30, 22, 14, 6]
    case 3 => [64, 56, 48, 40, 32, 24, 16, 8]
    case 4 => [57, 49, 41, 33, 25, 17, 9, 1]
    case 5 => [59, 51, 43, 35, 27, 19, 11, 3]
    case 6 => [61, 53, 45, 37, 29, 21, 13, 5]
    case 7 => [63, 55, 47, 39, 31, 23, 15, 7]
  }

  function Ip(): (p: seq<nat>)
    ensures Selects(p, 64, 64)
  {
    seq(64, k requires 0 <= k < 64 => IpRow(k / 8)[k % 8])
  }

  /** `fp`, the final permutation. */
  function FpRow(r: nat): (row: seq<nat>)
    requires r < 8
    ensures Selects(row, 8, 64)
  {
    match r
    case 0 => [40, 8, 48, 16, 56, 24, 64, 32]
    case 1 => [39, 7, 47, 15, 55, 23, 63, 31]
    case 2 => [38, 6, 46, 14, 54, 22, 62, 30]
    case 3 => [37, 5, 45, 13, 53, 21, 61, 29]
    case 4 => [36, 4, 44, 12, 52, 20, 60, 28]
    case 5 => [35, 3, 43, 11, 51, 19, 59, 27]
    case 6 => [34, 2, 42, 10, 50, 18, 58, 26]
    case 7 => [33, 1, 41, 9, 49, 17, 57, 25]
  }

  function Fp(): (p: seq<nat>)
    ensures Selects(p, 64, 64)
  {
    seq(64, k requires 0 <= k < 64 => FpRow(k / 8)[k % 8])
  }

  /** `pc1`, the choice of 56 key bits. */
  function Pc1Row(r: nat): (row: seq<nat>)
    requires r < 8
    ensures Selects(row, 7, 64)
  {
    match r
    case 0 => [57, 49, 41, 33, 25, 17, 9]
    case 1 => [1, 58, 50, 42, 34, 26, 18]
    case 2 => [10, 2, 59, 51, 43, 35, 27]
    case 3 => [19, 11, 3, 60, 52, 44, 36]
    case 4 => [63, 55, 47, 39, 31, 23, 15]
    case 5 => [7, 62, 54, 46, 38, 30, 22]
    case 6 => [14, 6, 61, 53, 45, 37, 29]
    case 7 => [21, 13, 5, 28, 20, 12, 4]
  }

  function Pc1(): (p: seq<nat>)
    ensures Selects(p, 56, 64)
  {
    seq(56, k requires 0 <= k < 56 => Pc1Row(k / 7)[k % 7])
  }

  /** `pc2`, the choice of 48 of the rotated bits. */
  function Pc2Row(r: nat): (row: seq<nat>)
    requires r < 8
    ensures Selects(row, 6, 56)
  {
    match r
    case 0 => [14, 17, 11, 24, 1, 5]
    case 1 => [3, 28, 15, 6, 21, 10]
    case 2 => [23, 19, 12, 4, 26, 8]
    case 3 => [16, 7, 27, 20, 13, 2]
    case 4 => [41, 52, 31, 37, 47, 55]
    case 5 => [30, 40, 51, 45, 33, 48]
    case 6 => [44, 49, 39, 56, 34, 53]
    case 7 => [46, 42, 50, 36, 29, 32]
  }

  function Pc2(): (p: seq<nat>)
    ensures Selects(p, 48, 56)
  {
    seq(48, k requires 0 <= k < 48 => Pc2Row(k / 6)[k % 6])
  }

  /** `p32i`, the permutation at the end of f. */
  function P32iRow(r: nat): (row: seq<nat>)
    requires r < 8
    ensures Selects(row, 4, 32)
  {
    match r
    case 0 => [16, 7, 20, 21]
    case 1 => [29, 12, 28, 17]
    case 2 => [1, 15, 23, 26]
    case 3 => [5, 18, 31, 10]
    case 4 => [2, 8, 24, 14]
    case 5 => [32, 27, 3, 9]
    case 6 => [19, 13, 30, 6]
    case 7 => [22, 11, 4, 25]
  }

  function P32i(): (p: seq<nat>)
    ensures Selects(p, 32, 32)
  {
    seq(32, k requires 0 <= k < 32 => P32iRow(k / 4)[k % 4])
  }

  /** Sixteen entries of `si[k]`, from place 16 * i on. */
  function SiRow(k: nat, i: nat): (row: seq<bv8>)
    requires k < 8 && i < 4
    ensures |row| == 16
  {
    match (k, i)
    case (0, 0) => [14, 4, 13, 1, 2, 15, 11, 8, 3, 10, 6, 12, 5, 9, 0, 7]
    case (0, 1) => [0, 15, 7, 4, 14, 2, 13, 1, 10, 6, 12, 11, 9, 5, 3, 8]
    case (0, 2) => [4, 1, 14, 8, 13, 6, 2, 11, 15, 12, 9, 7, 3, 10, 5, 0]
    case (0, 3) => [15, 12, 8, 2, 4, 9, 1, 7, 5, 11, 3, 14, 10, 0, 6, 13]
    case (1, 0) => [15, 1, 8, 14, 6, 11, 3, 4, 9, 7, 2, 13, 12, 0, 5, 10]
    case (1, 1) => [3, 13, 4, 7, 15, 2, 8, 14, 12, 0, 1, 10, 6, 9, 11, 5]
    case (1, 2) => [0, 14, 7, 11, 10, 4, 13, 1, 5, 8, 12, 6, 9, 3, 2, 15]
    case (1, 3) => [13, 8, 10, 1, 3, 15, 4, 2, 11, 6, 7, 12, 0, 5, 14, 9]
    case (2, 0) => [10, 0, 9, 14, 6, 3, 15, 5, 1, 13, 12, 7, 11, 4, 2, 8]
    case (2, 1) => [13, 7, 0, 9, 3, 4, 6, 10, 2, 8, 5, 14, 12, 11, 15, 1]
    case (2, 2) => [13, 6, 4, 9, 8, 15, 3, 0, 11, 1, 2, 12, 5, 10, 14, 7]
    case (2, 3) => [1, 10, 13, 0, 6, 9, 8, 7, 4, 15, 14, 3, 11, 5, 2, 12]
    case (3, 0) => [7, 13, 14, 3, 0, 6, 9, 10, 1, 2, 8, 5, 11, 12, 4, 15]
    case (3, 1) => [13, 8, 11, 5, 6, 15, 0, 3, 4, 7, 2, 12, 1, 10, 14, 9]
    case (3, 2) => [10, 6, 9, 0, 12, 11, 7, 13, 15, 1, 3, 14, 5, 2, 8, 4]
    case (3, 3) => [3, 15, 0, 6, 10, 1, 13, 8, 9, 4, 5, 11, 12, 7, 2, 14]
    case (4, 0) => [2, 12, 4, 1, 7, 10, 11, 6, 8, 5, 3, 15, 13, 0, 14, 9]
    case (4, 1) => [14, 11, 2, 12, 4, 7, 13, 1, 5, 0, 15, 10, 3, 9, 8, 6]
    case (4, 2) => [4, 2, 1, 11, 10, 13, 7, 8, 15, 9, 12, 5, 6, 3, 0, 14]
    case (4, 3) => [11, 8, 12, 7, 1, 14, 2, 13, 6, 15, 0, 9, 10, 4, 5, 3]
    case (5, 0) => [12, 1, 10, 15, 9, 2, 6, 8, 0, 13, 3, 4, 14, 7, 5, 11]
    case (5, 1) => [10, 15, 4, 2, 7, 12, 9, 5, 6, 1, 13, 14, 0, 11, 3, 8]
    case (5, 2) => [9, 14, 15, 5, 2, 8, 12, 3, 7, 0, 4, 10, 1, 13, 11, 6]
    case (5, 3) => [4, 3, 2, 12, 9, 5, 15, 10, 11, 14, 1, 7, 6, 0, 8, 13]
    case (6, 0) => [4, 11, 2, 14, 15, 0, 8, 13, 3, 12, 9, 7, 5, 10, 6, 1]
    case (6, 1) => [13, 0, 11, 7, 4, 9, 1, 10, 14, 3, 5, 12, 2, 15, 8, 6]
    case (6, 2) => [1, 4, 11, 13, 12, 3, 7, 14, 10, 15, 6, 8, 0, 5, 9, 2]
    case (6, 3) => [6, 11, 13, 8, 1, 4, 10, 7, 9, 5, 0, 15, 14, 2, 3, 12]
    case (7, 0) => [13, 2, 8, 4, 6, 15, 11, 1, 10, 9, 3, 14, 5, 0, 12, 7]
    case (7, 1) => [1, 15, 13, 8, 10, 3, 7, 4, 12, 5, 6, 11, 0, 14, 9, 2]
    case (7, 2) => [7, 11, 4, 1, 9, 12, 14, 2, 0, 6, 10, 13, 15, 3, 5, 8]
    case (7, 3) => [2, 1, 14, 7, 4, 10, 8, 13, 15, 12, 9, 0, 3, 5, 6, 11]
  }

  /** `si[k][at]`. */
  function Si(k: nat, at: nat): bv8
    requires k < 8 && at < 64
  {
    SiRow(k, at / 16)[at % 16]
  }

  /** `totrot`, the cumulative rotation amounts. */
  const TOTROT: seq<nat> := [1, 2, 4, 6, 8, 10, 12, 14, 15, 17, 19, 21, 23, 25, 27, 28]

  /** The source's cumulative rotations are the running sums of the standard's shifts. */
  lemma TotalsAreRunningSums(n: nat)
    requires n < 16
    ensures |TOTROT| == 16
    ensures TOTROT[n] == (if n == 0 then 0 else TOTROT[n - 1]) + Shifts(n + 1) <= 28
  {
  }

  lemma SourceChoicesAreStandard()
    ensures Pc1() == KeyChoice1() && Pc2() == KeyChoice2()
  {
    forall k | 0 <= k < 56
      ensures Pc1()[k] == KeyChoice1()[k]
    {
      assert Pc1Row(k / 7) == KeyChoice1Row(k / 7);
    }
    forall k | 0 <= k < 48
      ensures Pc2()[k] == KeyChoice2()[k]
    {
      assert Pc2Row(k / 6) == KeyChoice2Row(k / 6);
    }
  }

  lemma SourcePermutationsAreStandard()
    ensures Ip() == Initial() && Fp() == Final() && P32i() == Round()
  {
    forall k | 0 <= k < 64
      ensures Ip()[k] == Initial()[k] && Fp()[k] == Final()[k]
    {
      assert IpRow(k / 8) == InitialRow(k / 8) && FpRow(k / 8) == FinalRow(k / 8);
    }
    forall k | 0 <= k < 32
      ensures P32i()[k] == Round()[k]
    {
      assert P32iRow(k / 4) == RoundRow(k / 4);
    }
  }

  lemma RowsAgree(k: nat, row: nat)
    requires k < 8 && row < 4
    ensures SiRow(k, row) == SRow(k, row)
  {
    match k {
      case 0 =>
      case 1 =>
      case 2 =>
      case 3 =>
      case 4 =>
      case 5 =>
      case 6 =>
      case 7 =>
    }
  }

  lemma SourceSelectionIsStandard(k: nat, row: nat, column: nat)
    requires k < 8 && row < 4 && column < 16
    ensures Si(k, 16 * row + column) == SRow(k, row)[column]
  {
    hide SiRow, SRow;
    var at := 16 * row + column;
    assert at / 16 == row && at % 16 == column;
    RowsAgree(k, row);
  }
}
