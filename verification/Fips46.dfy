/**
 * The Data Encryption Standard of FIPS PUB 46-3, bit by bit.
 *
 * Bits are numbered from the left, as in the standard.  A pair of half blocks (L, R) is kept as
 * the 64-bit string L + R.
 */
module Fips46 {
  import opened DesTables

  type Bits = seq<bool>

  function Select(s: Bits, p: seq<nat>): (r: Bits)
    requires Selects(p, |p|, |s|)
    ensures |r| == |p|
  {
    seq(|p|, i requires 0 <= i < |p| => s[p[i] - 1])
  }

  function Xor(a: Bits, b: Bits): (r: Bits)
    requires |a| == |b|
    ensures |r| == |a|
  {
    seq(|a|, i requires 0 <= i < |a| => a[i] != b[i])
  }

  function Not(a: Bits): (r: Bits)
    ensures |r| == |a|
  {
    seq(|a|, i requires 0 <= i < |a| => !a[i])
  }

  function Num(b: bool): nat { if b then 1 else 0 }

  /** The mask of bit k of a byte, counted from the left. */
  function ByteBit(k: nat): bv8
    requires k < 8
  {
    match k
    case 0 => 0x80
    case 1 => 0x40
    case 2 => 0x20
    case 3 => 0x10
    case 4 => 0x08
    case 5 => 0x04
    case 6 => 0x02
    case 7 => 0x01
  }

  /** Bit k of a byte, counted from the left. */
  predicate Bit(b: bv8, k: nat)
    requires k < 8
  {
    b & ByteBit(k) != 0
  }

  /** The k-th output bit of a selection function on six bits: outer bits choose the row, inner ones the column. */
  predicate SBit(box: nat, b: Bits, k: nat)
    requires box < 8 && |b| == 6 && k < 4
  {
    var row := 2 * Num(b[0]) + Num(b[5]);
    var column := 8 * Num(b[1]) + 4 * Num(b[2]) + 2 * Num(b[3]) + Num(b[4]);
    Bit(SRow(box, row)[column], 4 + k)
  }

  function SubstituteAll(b: Bits): (r: Bits)
    requires |b| == 48
    ensures |r| == 32
  {
    seq(32, i requires 0 <= i < 32 => SBit(i / 4, b[6 * (i / 4)..6 * (i / 4) + 6], i % 4))
  }

  /** The cipher function f(R, K). */
  function CipherF(r: Bits, k: Bits): (out: Bits)
    requires |r| == 32 && |k| == 48
    ensures |out| == 32
  {
    Select(SubstituteAll(Xor(Select(r, Expansion()), k)), Round())
  }

  /** One iteration: L' = R, R' = L xor f(R, K). */
  function Iterate(x: Bits, k: Bits): (y: Bits)
    requires |x| == 64 && |k| == 48
    ensures |y| == 64
  {
    x[32..] + Xor(x[..32], CipherF(x[32..], k))
  }

  ghost predicate RoundKeys(ks: seq<Bits>) {
    forall i :: 0 <= i < |ks| ==> |ks[i]| == 48
  }

  function IterateAll(x: Bits, ks: seq<Bits>): (y: Bits)
    requires |x| == 64 && RoundKeys(ks)
    ensures |y| == 64
  {
    if ks == [] then x
    else Iterate(IterateAll(x, ks[..|ks| - 1]), ks[|ks| - 1])
  }

  function Swap(x: Bits): (y: Bits)
    requires |x| == 64
    ensures |y| == 64
  {
    x[32..] + x[..32]
  }

  /** IP, the iterations, the block R16 L16, and the inverse of IP. */
  function Cipher(block: Bits, ks: seq<Bits>): (out: Bits)
    requires |block| == 64 && RoundKeys(ks)
    ensures |out| == 64
  {
    Select(Swap(IterateAll(Select(block, Initial()), ks)), Final())
  }

  function Reverse<T>(s: seq<T>): (r: seq<T>)
    ensures |r| == |s|
  {
    seq(|s|, i requires 0 <= i < |s| => s[|s| - 1 - i])
  }

  function RotateLeft(s: Bits, n: nat): (r: Bits)
    requires n <= |s|
    ensures |r| == |s|
  {
    s[n..] + s[..n]
  }

  /** The halves C and D after n rounds of left shifts. */
  function ShiftedHalves(key: Bits, n: nat): (cd: Bits)
    requires |key| == 64 && n <= 16
    ensures |cd| == 56
  {
    if n == 0 then Select(key, KeyChoice1())
    else
      var cd := ShiftedHalves(key, n - 1);
      RotateLeft(cd[..28], Shifts(n)) + RotateLeft(cd[28..], Shifts(n))
  }

  /** One step of the rotation, bit by bit. */
  lemma RotatedOnceAt(cd: Bits, s: nat, j: nat)
    requires |cd| == 56 && s <= 28 && j < 56
    ensures (RotateLeft(cd[..28], s) + RotateLeft(cd[28..], s))[j]
         == cd[if j + s < (if j < 28 then 28 else 56) then j + s else j + s - 28]
  {
  }

  function KeySchedule(key: Bits): (ks: seq<Bits>)
    requires |key| == 64
    ensures |ks| == 16 && RoundKeys(ks)
  {
    seq(16, n requires 0 <= n < 16 => Select(ShiftedHalves(key, n + 1), KeyChoice2()))
  }

  lemma KeyScheduleRows(key: Bits)
    requires |key| == 64
    ensures forall n :: 0 <= n < 16 ==> KeySchedule(key)[n] == Select(ShiftedHalves(key, n + 1), KeyChoice2())
  {
    hide KeyChoice1, KeyChoice2, ShiftedHalves;
  }

  function Encipher(block: Bits, key: Bits): (out: Bits)
    requires |block| == 64 && |key| == 64
    ensures |out| == 64
  {
    Cipher(block, KeySchedule(key))
  }

  /** Deciphering uses the same algorithm with K16 first. */
  function Decipher(block: Bits, key: Bits): (out: Bits)
    requires |block| == 64 && |key| == 64
    ensures |out| == 64
  {
    Cipher(block, Reverse(KeySchedule(key)))
  }

  // Deciphering inverts enciphering.

  lemma PermutationsCancel(x: Bits)
    requires |x| == 64
    ensures Select(Select(x, Initial()), Final()) == x
    ensures Select(Select(x, Final()), Initial()) == x
  {
    var i, f := Select(x, Initial()), Select(x, Final());
    forall k | 0 <= k < 64
      ensures Select(i, Final())[k] == x[k] && Select(f, Initial())[k] == x[k]
    {
      InitialUndoesFinal(k);
      FinalUndoesInitial(k);
    }
  }

  /** A round undoes itself when the halves are exchanged, whatever f is. */
  lemma IterateUndoesItself(x: Bits, k: Bits)
    requires |x| == 64 && |k| == 48
    ensures Iterate(Swap(Iterate(x, k)), k) == Swap(x)
  {
    var y := Iterate(x, k);
    var f := CipherF(x[32..], k);
    assert y[..32] == x[32..] && y[32..] == Xor(x[..32], f);
    assert Swap(y)[32..] == x[32..] && Swap(y)[..32] == Xor(x[..32], f);
    assert Xor(Xor(x[..32], f), f) == x[..32];
  }

  lemma {:induction false} IterateAllFromFront(x: Bits, k: Bits, ks: seq<Bits>)
    requires |x| == 64 && |k| == 48 && RoundKeys(ks)
    ensures RoundKeys([k] + ks)
    ensures IterateAll(x, [k] + ks) == IterateAll(Iterate(x, k), ks)
  {
    var all := [k] + ks;
    if ks == [] {
      assert all[..0] == [];
    } else {
      assert all[..|all| - 1] == [k] + ks[..|ks| - 1];
      IterateAllFromFront(x, k, ks[..|ks| - 1]);
    }
  }

  lemma {:induction false} IterationsUnwind(x: Bits, ks: seq<Bits>)
    requires |x| == 64 && RoundKeys(ks)
    ensures IterateAll(Swap(IterateAll(x, ks)), Reverse(ks)) == Swap(x)
  {
    if ks != [] {
      var init, k := ks[..|ks| - 1], ks[|ks| - 1];
      var y := IterateAll(x, init);
      assert Reverse(ks) == [k] + Reverse(init);
      IterateAllFromFront(Swap(Iterate(y, k)), k, Reverse(init));
      IterateUndoesItself(y, k);
      IterationsUnwind(x, init);
    }
  }

  /** Running the cipher again with the round keys reversed restores the block. */
  lemma CipherUndone(block: Bits, ks: seq<Bits>)
    requires |block| == 64 && RoundKeys(ks)
    ensures Cipher(Cipher(block, ks), Reverse(ks)) == block
  {
    var x := Select(block, Initial());
    var y := IterateAll(x, ks);
    PermutationsCancel(Swap(y));
    IterationsUnwind(x, ks);
    assert Swap(Swap(x)) == x;
    PermutationsCancel(block);
  }

  lemma DecipherInvertsEncipher(block: Bits, key: Bits)
    requires |block| == 64 && |key| == 64
    ensures Decipher(Encipher(block, key), key) == block
    ensures Encipher(Decipher(block, key), key) == block
  {
    var ks := KeySchedule(key);
    CipherUndone(block, ks);
    CipherUndone(block, Reverse(ks));
    assert Reverse(Reverse(ks)) == ks;
  }

  // Complementation.

  lemma SelectOfNot(s: Bits, p: seq<nat>)
    requires Selects(p, |p|, |s|)
    ensures Select(Not(s), p) == Not(Select(s, p))
  {
  }

  /** f cannot tell a half block and a key from their complements. */
  lemma CipherFOfNot(r: Bits, k: Bits)
    requires |r| == 32 && |k| == 48
    ensures CipherF(Not(r), Not(k)) == CipherF(r, k)
  {
    SelectOfNot(r, Expansion());
    var e := Select(r, Expansion());
    assert Xor(Not(e), Not(k)) == Xor(e, k);
  }

  lemma IterateOfNot(x: Bits, k: Bits)
    requires |x| == 64 && |k| == 48
    ensures Iterate(Not(x), Not(k)) == Not(Iterate(x, k))
  {
    assert Not(x)[32..] == Not(x[32..]) && Not(x)[..32] == Not(x[..32]);
    CipherFOfNot(x[32..], k);
    var f := CipherF(x[32..], k);
    assert Xor(Not(x[..32]), f) == Not(Xor(x[..32], f));
    assert Not(x[32..] + Xor(x[..32], f)) == Not(x[32..]) + Not(Xor(x[..32], f));
  }

  function NotAll(ks: seq<Bits>): (r: seq<Bits>)
    requires RoundKeys(ks)
    ensures |r| == |ks| && RoundKeys(r)
  {
    seq(|ks|, i requires 0 <= i < |ks| => Not(ks[i]))
  }

  lemma {:induction false} IterateAllOfNot(x: Bits, ks: seq<Bits>)
    requires |x| == 64 && RoundKeys(ks)
    ensures IterateAll(Not(x), NotAll(ks)) == Not(IterateAll(x, ks))
  {
    if ks != [] {
      var init, last := ks[..|ks| - 1], ks[|ks| - 1];
      assert NotAll(ks) == NotAll(init) + [Not(last)];
      assert (NotAll(init) + [Not(last)])[..|ks| - 1] == NotAll(init);
      IterateAllOfNot(x, init);
      IterateOfNot(IterateAll(x, init), last);
    }
  }

  lemma RotateLeftOfNot(s: Bits, n: nat)
    requires n <= |s|
    ensures RotateLeft(Not(s), n) == Not(RotateLeft(s, n))
  {
  }

  lemma {:induction false} ShiftedHalvesOfNot(key: Bits, n: nat)
    requires |key| == 64 && n <= 16
    ensures ShiftedHalves(Not(key), n) == Not(ShiftedHalves(key, n))
  {
    if n == 0 {
      SelectOfNot(key, KeyChoice1());
    } else {
      ShiftedHalvesOfNot(key, n - 1);
      var cd, s := ShiftedHalves(key, n - 1), Shifts(n);
      assert Not(cd)[..28] == Not(cd[..28]) && Not(cd)[28..] == Not(cd[28..]);
      RotateLeftOfNot(cd[..28], s);
      RotateLeftOfNot(cd[28..], s);
    }
  }

  lemma KeyScheduleOfNot(key: Bits)
    requires |key| == 64
    ensures KeySchedule(Not(key)) == NotAll(KeySchedule(key))
  {
    forall n | 0 <= n < 16
      ensures KeySchedule(Not(key))[n] == Not(KeySchedule(key)[n])
    {
      ShiftedHalvesOfNot(key, n + 1);
      SelectOfNot(ShiftedHalves(key, n + 1), KeyChoice2());
    }
  }

  /** Complementing both key and plaintext complements the ciphertext. */
  lemma Complementation(block: Bits, key: Bits)
    requires |block| == 64 && |key| == 64
    ensures Encipher(Not(block), Not(key)) == Not(Encipher(block, key))
  {
    KeyScheduleOfNot(key);
    var ks := KeySchedule(key);
    SelectOfNot(block, Initial());
    var x := Select(block, Initial());
    IterateAllOfNot(x, ks);
    var y := IterateAll(x, ks);
    assert Swap(Not(y)) == Not(Swap(y));
    SelectOfNot(Swap(y), Final());
  }
}
