/** The constant tables of DES, row by row as FIPS PUB 46-3 lists them. */
module DesTables {

  /** A selection table: n positions, each between 1 and m. */
  ghost predicate Selects(p: seq<nat>, n: nat, m: nat) {
    |p| == n && forall i :: 0 <= i < n ==> 1 <= p[i] <= m
  }

  /** The initial permutation IP. */
  function InitialRow(r: nat): (row: seq<nat>)
    requires r < 8
    ensures Selects(row, 8, 64)
  {
    match r
    case 0 => [58, 50, 42, 34, 26, 18, 10, 2]
    case 1 => [60, 52, 44, 36, 28, 20, 12, 4]
    case 2 => [62, 54, 46, 38, 30, 22, 14, 6]
    case 3 => [64, 56, 48, 40, 32, 24, 16, 8]
    case 4 => [57, 49, 41, 33, 25, 17, 9, 1]
    case 5 => [59, 51, 43, 35, 27, 19, 11, 3]
    case 6 => [61, 53, 45, 37, 29, 21, 13, 5]
    case 7 => [63, 55, 47, 39, 31, 23, 15, 7]
  }

  function Initial(): (p: seq<nat>)
    ensures Selects(p, 64, 64)
  {
    seq(64, k requires 0 <= k < 64 => InitialRow(k / 8)[k % 8])
  }

  /** The final permutation, the inverse of IP. */
  function FinalRow(r: nat): (row: seq<nat>)
    requires r < 8
    ensures Selects(row, 8, 64)
  {
    match r
    case 0 => [40, 8, 48, 16, 56, 24, 64, 32]
    case 1 => [39, 7, 47, 15, 55, 23, 63, 31]
    case 2 => [38, 6, 46, 14, 54, 22, 62, 30]
    case 3 => [37, 5, 45, 13, 53, 21, 61, 29]
    case 4 => [36, 4, 44, 12, 52, 20, 60, 28]
    case 5 => [35, 3, 43, 11, 51, 19, 59, 27]
    case 6 => [34, 2, 42, 10, 50, 18, 58, 26]
    case 7 => [33, 1, 41, 9, 49, 17, 57, 25]
  }

  function Final(): (p: seq<nat>)
    ensures Selects(p, 64, 64)
  {
    seq(64, k requires 0 <= k < 64 => FinalRow(k / 8)[k % 8])
  }

  /** Permuted choice 1. */
  function KeyChoice1Row(r: nat): (row: seq<nat>)
    requires r < 8
    ensures Selects(row, 7, 64)
  {
    match r
    case 0 => [57, 49, 41, 33, 25, 17, 9]
    case 1 => [1, 58, 50, 42, 34, 26, 18]
    case 2 => [10, 2, 59, 51, 43, 35, 27]
    case 3 => [19, 11, 3, 60, 52, 44, 36]
    case 4 => [63, 55, 47, 39, 31, 23, 15]
    case 5 => [7, 62, 54, 46, 38, 30, 22]
    case 6 => [14, 6, 61, 53, 45, 37, 29]
    case 7 => [21, 13, 5, 28, 20, 12, 4]
  }

  function KeyChoice1(): (p: seq<nat>)
    ensures Selects(p, 56, 64)
  {
    seq(56, k requires 0 <= k < 56 => KeyChoice1Row(k / 7)[k % 7])
  }

  /** Permuted choice 2. */
  function KeyChoice2Row(r: nat): (row: seq<nat>)
    requires r < 8
    ensures Selects(row, 6, 56)
  {
    match r
    case 0 => [14, 17, 11, 24, 1, 5]
    case 1 => [3, 28, 15, 6, 21, 10]
    case 2 => [23, 19, 12, 4, 26, 8]
    case 3 => [16, 7, 27, 20, 13, 2]
    case 4 => [41, 52, 31, 37, 47, 55]
    case 5 => [30, 40, 51, 45, 33, 48]
    case 6 => [44, 49, 39, 56, 34, 53]
    case 7 => [46, 42, 50, 36, 29, 32]
  }

  function KeyChoice2(): (p: seq<nat>)
    ensures Selects(p, 48, 56)
  {
    seq(48, k requires 0 <= k < 48 => KeyChoice2Row(k / 6)[k % 6])
  }

  /** The permutation P at the end of the cipher function. */
  function RoundRow(r: nat): (row: seq<nat>)
    requires r < 8
    ensures Selects(row, 4, 32)
  {
    match r
    case 0 => [16, 7, 20, 21]
    case 1 => [29, 12, 28, 17]
    case 2 => [1, 15, 23, 26]
    case 3 => [5, 18, 31, 10]
    case 4 => [2, 8, 24, 14]
    case 5 => [32, 27, 3, 9]
    case 6 => [19, 13, 30, 6]
    case 7 => [22, 11, 4, 25]
  }

  function Round(): (p: seq<nat>)
    ensures Selects(p, 32, 32)
  {
    seq(32, k requires 0 <= k < 32 => RoundRow(k / 4)[k % 4])
  }

  /** The bit-selection table E. */
  function ExpansionRow(r: nat): (row: seq<nat>)
    requires r < 8
    ensures Selects(row, 6, 32)
  {
    match r
    case 0 => [32, 1, 2, 3, 4, 5]
    case 1 => [4, 5, 6, 7, 8, 9]
    case 2 => [8, 9, 10, 11, 12, 13]
    case 3 => [12, 13, 14, 15, 16, 17]
    case 4 => [16, 17, 18, 19, 20, 21]
    case 5 => [20, 21, 22, 23, 24, 25]
    case 6 => [24, 25, 26, 27, 28, 29]
    case 7 => [28, 29, 30, 31, 32, 1]
  }

  function Expansion(): (p: seq<nat>)
    ensures Selects(p, 48, 32)
  {
    seq(48, k requires 0 <= k < 48 => ExpansionRow(k / 6)[k % 6])
  }

  /** The number of left shifts of round n, FIPS PUB 46-3 Appendix 1. */
  function Shifts(n: nat): nat {
    if n == 1 || n == 2 || n == 9 || n == 16 then 1 else 2
  }

  /** The four rows of each selection function. */
  function S1(i: nat): (row: seq<bv8>)
    requires i < 4
    ensures |row| == 16
  {
    match i
    case 0 => [14, 4, 13, 1, 2, 15, 11, 8, 3, 10, 6, 12, 5, 9, 0, 7]
    case 1 => [0, 15, 7, 4, 14, 2, 13, 1, 10, 6, 12, 11, 9, 5, 3, 8]
    case 2 => [4, 1, 14, 8, 13, 6, 2, 11, 15, 12, 9, 7, 3, 10, 5, 0]
    case 3 => [15, 12, 8, 2, 4, 9, 1, 7, 5, 11, 3, 14, 10, 0, 6, 13]
  }

  function S2(i: nat): (row: seq<bv8>)
    requires i < 4
    ensures |row| == 16
  {
    match i
    case 0 => [15, 1, 8, 14, 6, 11, 3, 4, 9, 7, 2, 13, 12, 0, 5, 10]
    case 1 => [3, 13, 4, 7, 15, 2, 8, 14, 12, 0, 1, 10, 6, 9, 11, 5]
    case 2 => [0, 14, 7, 11, 10, 4, 13, 1, 5, 8, 12, 6, 9, 3, 2, 15]
    case 3 => [13, 8, 10, 1, 3, 15, 4, 2, 11, 6, 7, 12, 0, 5, 14, 9]
  }

  function S3(i: nat): (row: seq<bv8>)
    requires i < 4
    ensures |row| == 16
  {
    match i
    case 0 => [10, 0, 9, 14, 6, 3, 15, 5, 1, 13, 12, 7, 11, 4, 2, 8]
    case 1 => [13, 7, 0, 9, 3, 4, 6, 10, 2, 8, 5, 14, 12, 11, 15, 1]
    case 2 => [13, 6, 4, 9, 8, 15, 3, 0, 11, 1, 2, 12, 5, 10, 14, 7]
    case 3 => [1, 10, 13, 0, 6, 9, 8, 7, 4, 15, 14, 3, 11, 5, 2, 12]
  }

  function S4(i: nat): (row: seq<bv8>)
    requires i < 4
    ensures |row| == 16
  {
    match i
    case 0 => [7, 13, 14, 3, 0, 6, 9, 10, 1, 2, 8, 5, 11, 12, 4, 15]
    case 1 => [13, 8, 11, 5, 6, 15, 0, 3, 4, 7, 2, 12, 1, 10, 14, 9]
    case 2 => [10, 6, 9, 0, 12, 11, 7, 13, 15, 1, 3, 14, 5, 2, 8, 4]
    case 3 => [3, 15, 0, 6, 10, 1, 13, 8, 9, 4, 5, 11, 12, 7, 2, 14]
  }

  function S5(i: nat): (row: seq<bv8>)
    requires i < 4
    ensures |row| == 16
  {
    match i
    case 0 => [2, 12, 4, 1, 7, 10, 11, 6, 8, 5, 3, 15, 13, 0, 14, 9]
    case 1 => [14, 11, 2, 12, 4, 7, 13, 1, 5, 0, 15, 10, 3, 9, 8, 6]
    case 2 => [4, 2, 1, 11, 10, 13, 7, 8, 15, 9, 12, 5, 6, 3, 0, 14]
    case 3 => [11, 8, 12, 7, 1, 14, 2, 13, 6, 15, 0, 9, 10, 4, 5, 3]
  }

  function S6(i: nat): (row: seq<bv8>)
    requires i < 4
    ensures |row| == 16
  {
    match i
    case 0 => [12, 1, 10, 15, 9, 2, 6, 8, 0, 13, 3, 4, 14, 7, 5, 11]
    case 1 => [10, 15, 4, 2, 7, 12, 9, 5, 6, 1, 13, 14, 0, 11, 3, 8]
    case 2 => [9, 14, 15, 5, 2, 8, 12, 3, 7, 0, 4, 10, 1, 13, 11, 6]
    case 3 => [4, 3, 2, 12, 9, 5, 15, 10, 11, 14, 1, 7, 6, 0, 8, 13]
  }

  function S7(i: nat): (row: seq<bv8>)
    requires i < 4
    ensures |row| == 16
  {
    match i
    case 0 => [4, 11, 2, 14, 15, 0, 8, 13, 3, 12, 9, 7, 5, 10, 6, 1]
    case 1 => [13, 0, 11, 7, 4, 9, 1, 10, 14, 3, 5, 12, 2, 15, 8, 6]
    case 2 => [1, 4, 11, 13, 12, 3, 7, 14, 10, 15, 6, 8, 0, 5, 9, 2]
    case 3 => [6, 11, 13, 8, 1, 4, 10, 7, 9, 5, 0, 15, 14, 2, 3, 12]
  }

  function S8(i: nat): (row: seq<bv8>)
    requires i < 4
    ensures |row| == 16
  {
    match i
    case 0 => [13, 2, 8, 4, 6, 15, 11, 1, 10, 9, 3, 14, 5, 0, 12, 7]
    case 1 => [1, 15, 13, 8, 10, 3, 7, 4, 12, 5, 6, 11, 0, 14, 9, 2]
    case 2 => [7, 11, 4, 1, 9, 12, 14, 2, 0, 6, 10, 13, 15, 3, 5, 8]
    case 3 => [2, 1, 14, 7, 4, 10, 8, 13, 15, 12, 9, 0, 3, 5, 6, 11]
  }

  /** Row i of the selection functions, numbered from zero. */
  function SRow(box: nat, i: nat): (row: seq<bv8>)
    requires box < 8 && i < 4
    ensures |row| == 16
  {
    match box
    case 0 => S1(i)
    case 1 => S2(i)
    case 2 => S3(i)
    case 3 => S4(i)
    case 4 => S5(i)
    case 5 => S6(i)
    case 6 => S7(i)
    case 7 => S8(i)
  }

  /** Both permutations in closed form: the 1-based source bit of row r, column c. */
  function InitialSource(r: nat, c: nat): int {
    (if r < 4 then 58 + 2 * r else 49 + 2 * r) - 8 * c
  }

  function FinalSource(r: nat, c: nat): int {
    (if c % 2 == 0 then 40 else 8) - r + 8 * (c / 2)
  }

  lemma InitialInClosedForm(k: nat, r: nat, c: nat)
    requires r < 8 && c < 8 && k == 8 * r + c
    ensures Initial()[k] == InitialSource(r, c)
  {
    assert k / 8 == r && k % 8 == c;
    assert InitialRow(r)[c] == InitialSource(r, c);
  }

  lemma FinalInClosedForm(k: nat, r: nat, c: nat)
    requires r < 8 && c < 8 && k == 8 * r + c
    ensures Final()[k] == FinalSource(r, c)
  {
    assert k / 8 == r && k % 8 == c;
    assert FinalRow(r)[c] == FinalSource(r, c);
  }

  /** Where the source bit of one table lies in the other. */
  lemma InitialWithinFinal(r: nat, c: nat)
    requires r < 8 && c < 8
    ensures var r', c' := 7 - c, if r < 4 then 2 * r + 1 else 2 * r - 8;
            InitialSource(r, c) - 1 == 8 * r' + c' && FinalSource(r', c') == 8 * r + c + 1
  {
  }

  lemma FinalWithinInitial(r: nat, c: nat)
    requires r < 8 && c < 8
    ensures var r', c' := if c % 2 == 0 then 4 + c / 2 else c / 2, 7 - r;
            FinalSource(r, c) - 1 == 8 * r' + c' && InitialSource(r', c') == 8 * r + c + 1
  {
  }

  lemma FinalUndoesInitial(k: nat)
    requires k < 64
    ensures Final()[Initial()[k] - 1] == k + 1
  {
    var r, c := k / 8, k % 8;
    InitialInClosedForm(k, r, c);
    InitialWithinFinal(r, c);
    FinalInClosedForm(InitialSource(r, c) - 1, 7 - c, if r < 4 then 2 * r + 1 else 2 * r - 8);
  }

  lemma InitialUndoesFinal(k: nat)
    requires k < 64
    ensures Initial()[Final()[k] - 1] == k + 1
  {
    var r, c := k / 8, k % 8;
    FinalInClosedForm(k, r, c);
    FinalWithinInitial(r, c);
    InitialInClosedForm(FinalSource(r, c) - 1, if c % 2 == 0 then 4 + c / 2 else c / 2, 7 - r);
  }

  /** The expansion table in closed form: six bits of each group of four, overlapping at both ends. */
  lemma ExpansionInClosedForm(k: nat, r: nat, c: nat)
    requires r < 8 && c < 6 && k == 6 * r + c
    ensures Expansion()[k] == if r == c == 0 then 32 else if r == 7 && c == 5 then 1 else 4 * r + c
  {
    assert k / 6 == r && k % 6 == c;
  }
}
