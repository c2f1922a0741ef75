/**
 * The table-driven DES of the source.  A char* into a block is an array with an offset; the
 * seventeen 8-byte rows of `iters` lie end to end in one array, as they do in the source.
 */
module XDesCipher {
  import opened DesTables
  import opened Fips46
  import opened DesBits
  import opened DesSBoxes
  import opened XDesTables

  // What the precomputed tables must hold.

  /** The output bits that value j of input nibble i sets under the permutation p. */
  function NibbleTargets(p: seq<nat>, i: nat, j: nat): (x: Bits)
    requires Selects(p, 64, 64) && j < 16
    ensures |x| == 64
  {
    seq(64, k requires 0 <= k < 64 => (p[k] - 1) / 4 == i && NibbleBit(j, (p[k] - 1) % 4))
  }

  /** The output bits that value j of input byte i sets under the permutation p. */
  function ByteTargets(p: seq<nat>, i: nat, j: nat): (x: Bits)
    requires Selects(p, 32, 32) && j < 256
    ensures |x| == 32
  {
    seq(32, k requires 0 <= k < 32 => (p[k] - 1) / 8 == i && Bit(j as bv8, (p[k] - 1) % 8))
  }

  /** The bytes of one mask. */
  function Mask(t: array3<bv8>, i: nat, j: nat): (row: seq<bv8>)
    requires i < t.Length0 && j < t.Length1
    reads t
    ensures |row| == t.Length2
  {
    seq(t.Length2, b requires 0 <= b < t.Length2 reads t => t[i, j, b])
  }

  /** The table computes the 64-bit permutation p. */
  ghost predicate PermTable(perm: array3<bv8>, p: seq<nat>)
    requires Selects(p, 64, 64)
    reads perm
  {
    && perm.Length0 == 16 && perm.Length1 == 16 && perm.Length2 == 8
    && forall i, j :: 0 <= i < 16 && 0 <= j < 16 ==> BitsOf(Mask(perm, i, j)) == NibbleTargets(p, i, j)
  }

  /** The table computes the 32-bit permutation p. */
  ghost predicate P32Table(p32: array3<bv8>, p: seq<nat>)
    requires Selects(p, 32, 32)
    reads p32
  {
    && p32.Length0 == 4 && p32.Length1 == 256 && p32.Length2 == 4
    && forall i, j :: 0 <= i < 4 && 0 <= j < 256 ==> BitsOf(Mask(p32, i, j)) == ByteTargets(p, i, j)
  }

  /** Entry j of the i-th combined table. */
  function PairAt(i: nat, j: nat): bv8
    requires i < 4 && j < 4096
  {
    CompPair(i, (j as bv16) & 0xfff)
  }

  /** The four combined compression tables. */
  ghost predicate STable(s: array2<bv8>)
    reads s
  {
    && s.Length0 == 4 && s.Length1 == 4096
    && forall i, j :: 0 <= i < 4 && 0 <= j < 4096 ==> s[i, j] == PairAt(i, j)
  }

  function RowBytes(kn: array2<bv8>, n: nat): (row: seq<bv8>)
    requires n < kn.Length0
    reads kn
    ensures |row| == kn.Length1
  {
    seq(kn.Length1, i requires 0 <= i < kn.Length1 reads kn => kn[n, i])
  }

  function KeyRow(kn: array2<bv8>, n: nat): (k: Bits)
    requires kn.Length1 == 6 && n < kn.Length0
    reads kn
    ensures |k| == 48
  {
    BitsOf(RowBytes(kn, n))
  }

  function Keys(kn: array2<bv8>): (ks: seq<Bits>)
    requires kn.Length0 == 16 && kn.Length1 == 6
    reads kn
    ensures |ks| == 16 && RoundKeys(ks)
  {
    seq(16, n requires 0 <= n < 16 reads kn => KeyRow(kn, n))
  }

  /** Everything outside out[o..o + n] is as before. */
  twostate predicate OnlyChanges(a: array<bv8>, o: nat, n: nat)
    reads a
  {
    forall i :: 0 <= i < a.Length && !(o <= i < o + n) ==> a[i] == old(a[i])
  }

  // Filling the tables.

  /** Nothing but mask (i, j) has changed. */
  twostate predicate OnlyMask(t: array3<bv8>, i: nat, j: nat)
    reads t
  {
    forall x, y, b :: 0 <= x < t.Length0 && 0 <= y < t.Length1 && 0 <= b < t.Length2 && (x != i || y != j) ==>
      t[x, y, b] == old(t[x, y, b])
  }

  /** The source's step `|= bytebit`: bit k of mask (i, j) is set. */
  method SetMaskBit(t: array3<bv8>, i: nat, j: nat, k: nat)
    requires i < t.Length0 && j < t.Length1 && k < 8 * t.Length2
    modifies t
    ensures BitsOf(Mask(t, i, j)) == old(BitsOf(Mask(t, i, j)))[k := true]
    ensures OnlyMask(t, i, j)
  {
    hide ByteBit, BitsOf, Or8;
    ghost var row := Mask(t, i, j);
    t[i, j, k / 8] := Or8(t[i, j, k / 8], ByteBit(k % 8));
    SetBit(row, k);
    assert Mask(t, i, j) == row[k / 8 := Or8(row[k / 8], ByteBit(k % 8))];
  }

  method PermInit(perm: array3<bv8>, p: seq<nat>)
    requires Selects(p, 64, 64)
    requires perm.Length0 == 16 && perm.Length1 == 16 && perm.Length2 == 8
    modifies perm
    ensures PermTable(perm, p)
  {
    hide BitsOf, NibbleBit;
    forall i, j, k | 0 <= i < 16 && 0 <= j < 16 && 0 <= k < 8 {
      perm[i, j, k] := 0;
    }
    for i := 0 to 16
      invariant forall x, y :: 0 <= x < i && 0 <= y < 16 ==> BitsOf(Mask(perm, x, y)) == NibbleTargets(p, x, y)
      invariant forall x, y, b :: i <= x < 16 && 0 <= y < 16 && 0 <= b < 8 ==> perm[x, y, b] == 0
    {
      for j := 0 to 16
        invariant forall x, y :: 0 <= x <= i && 0 <= y < 16 && (x < i || y < j) ==>
                    BitsOf(Mask(perm, x, y)) == NibbleTargets(p, x, y)
        invariant forall x, y, b :: i <= x < 16 && 0 <= y < 16 && 0 <= b < 8 && (i < x || j <= y) ==> perm[x, y, b] == 0
      {
        label before:
        ghost var want := NibbleTargets(p, i, j);
        ZeroBytes(Mask(perm, i, j), want);
        for k := 0 to 64
          invariant OnlyMask@before(perm, i, j)
          invariant BitsOf(Mask(perm, i, j)) == FirstBits(want, k)
        {
          var l := p[k] - 1;
          if l / 4 == i && NibbleBit(j, l % 4) {
            SetMaskBit(perm, i, j, k);
          }
        }
        assert FirstBits(want, 64) == want;
        forall x, y | 0 <= x <= i && 0 <= y < 16 && (x < i || y < j)
          ensures BitsOf(Mask(perm, x, y)) == NibbleTargets(p, x, y)
        {
          assert Mask(perm, x, y) == old@before(Mask(perm, x, y));
        }
      }
    }
  }

  method P32Init(p32: array3<bv8>, p: seq<nat>)
    requires Selects(p, 32, 32)
    requires p32.Length0 == 4 && p32.Length1 == 256 && p32.Length2 == 4
    modifies p32
    ensures P32Table(p32, p)
  {
    hide BitsOf, Bit;
    forall i, j, k | 0 <= i < 4 && 0 <= j < 256 && 0 <= k < 4 {
      p32[i, j, k] := 0;
    }
    for i := 0 to 4
      invariant forall x, y :: 0 <= x < i && 0 <= y < 256 ==> BitsOf(Mask(p32, x, y)) == ByteTargets(p, x, y)
      invariant forall x, y, b :: i <= x < 4 && 0 <= y < 256 && 0 <= b < 4 ==> p32[x, y, b] == 0
    {
      for j := 0 to 256
        invariant forall x, y :: 0 <= x <= i && 0 <= y < 256 && (x < i || y < j) ==>
                    BitsOf(Mask(p32, x, y)) == ByteTargets(p, x, y)
        invariant forall x, y, b :: i <= x < 4 && 0 <= y < 256 && 0 <= b < 4 && (i < x || j <= y) ==> p32[x, y, b] == 0
      {
        label before:
        ghost var want := ByteTargets(p, i, j);
        ZeroBytes(Mask(p32, i, j), want);
        for k := 0 to 32
          invariant OnlyMask@before(p32, i, j)
          invariant BitsOf(Mask(p32, i, j)) == FirstBits(want, k)
        {
          var l := p[k] - 1;
          if l / 8 == i && Bit(j as bv8, l % 8) {
            SetMaskBit(p32, i, j, k);
          }
        }
        assert FirstBits(want, 32) == want;
        forall x, y | 0 <= x <= i && 0 <= y < 256 && (x < i || y < j)
          ensures BitsOf(Mask(p32, x, y)) == ByteTargets(p, x, y)
        {
          assert Mask(p32, x, y) == old@before(Mask(p32, x, y));
        }
      }
    }
  }

  method SInit(s: array2<bv8>)
    requires s.Length0 == 4 && s.Length1 == 4096
    modifies s
    ensures STable(s)
  {
    hide PairAt;
    for i := 0 to 4
      invariant forall x, j :: 0 <= x < i && 0 <= j < 4096 ==> s[x, j] == PairAt(x, j)
    {
      for j := 0 to 4096
        invariant forall x, y :: 0 <= x < i && 0 <= y < 4096 ==> s[x, y] == PairAt(x, y)
        invariant forall y :: 0 <= y < j ==> s[i, y] == PairAt(i, y)
      {
        s[i, j] := PairAt(i, j);
      }
    }
  }

  /** Round i of the key schedule: rotate, then pick out the 48 key bits. */
  method KeyRound(kn: array2<bv8>, pc1m: array<bool>, i: nat, ghost key: Bits)
    requires kn.Length0 == 16 && kn.Length1 == 6 && pc1m.Length == 56 && i < 16
    requires |key| == 64 && pc1m[..] == Select(key, KeyChoice1())
    requires forall b :: 0 <= b < 6 ==> kn[i, b] == 0
    modifies kn
    ensures KeyRow(kn, i) == Select(ShiftedHalves(key, i + 1), KeyChoice2())
    ensures forall n, b :: 0 <= n < 16 && 0 <= b < 6 && n != i ==> kn[n, b] == old(kn[n, b])
  {
    hide BitsOf, KeyChoice1, KeyChoice2, Pc1, Pc2, ByteBit, Select, ShiftedHalves;
    var pcr := new bool[56];
    for j := 0 to 56
      modifies pcr
      invariant forall x :: 0 <= x < j ==> pcr[x] == ShiftedHalves(key, i + 1)[x]
    {
      RotatedAt(key, i, j);
      var l := j + TOTROT[i];
      var from := if l < (if j < 28 then 28 else 56) then l else l - 28;
      assert pc1m[from] == pc1m[..][from];
      pcr[j] := pc1m[from];
    }
    assert pcr[..] == ShiftedHalves(key, i + 1);
    SourceChoicesAreStandard();
    SelectKeyBits(kn, pcr, i, Pc2());
  }

  method SelectKeyBits(kn: array2<bv8>, pcr: array<bool>, i: nat, pc2: seq<nat>)
    requires kn.Length0 == 16 && kn.Length1 == 6 && pcr.Length == 56 && i < 16
    requires Selects(pc2, 48, 56)
    requires forall b :: 0 <= b < 6 ==> kn[i, b] == 0
    modifies kn
    ensures KeyRow(kn, i) == Select(pcr[..], pc2)
    ensures forall n, b :: 0 <= n < 16 && 0 <= b < 6 && n != i ==> kn[n, b] == old(kn[n, b])
  {
    hide BitsOf, ByteBit, Or8;
    ghost var want := Select(pcr[..], pc2);
    ZeroBytes(RowBytes(kn, i), want);
    for j := 0 to 48
      invariant forall n, b :: 0 <= n < 16 && 0 <= b < 6 && n != i ==> kn[n, b] == old(kn[n, b])
      invariant BitsOf(RowBytes(kn, i)) == FirstBits(want, j)
    {
      if pcr[pc2[j] - 1] {
        ghost var row := RowBytes(kn, i);
        kn[i, j / 8] := Or8(kn[i, j / 8], ByteBit(j % 8));
        SetBit(row, j);
        assert RowBytes(kn, i) == row[j / 8 := Or8(row[j / 8], ByteBit(j % 8))];
      }
    }
    assert FirstBits(want, 48) == want;
  }

  method ChooseKeyBits(key64bit: array<bv8>, pc1: seq<nat>) returns (pc1m: array<bool>)
    requires key64bit.Length == 8 && Selects(pc1, 56, 64)
    ensures fresh(pc1m) && pc1m.Length == 56 && pc1m[..] == Select(BitsOf(key64bit[..]), pc1)
  {
    hide BitsOf, Bit;
    ghost var key := BitsOf(key64bit[..]);
    pc1m := new bool[56];
    for j := 0 to 56
      invariant forall x :: 0 <= x < j ==> pc1m[x] == key[pc1[x] - 1]
    {
      var l := pc1[j] - 1;
      BitAt(key64bit[..], l);
      pc1m[j] := Bit(key64bit[l / 8], l % 8);
    }
  }

  method KInit(kn: array2<bv8>, key64bit: array<bv8>)
    requires kn.Length0 == 16 && kn.Length1 == 6 && key64bit.Length == 8
    modifies kn
    ensures Keys(kn) == KeySchedule(BitsOf(key64bit[..]))
  {
    hide BitsOf, KeyChoice1, KeyChoice2, Pc1, Pc2, KeySchedule, ShiftedHalves, Select;
    ghost var key := BitsOf(key64bit[..]);
    SourceChoicesAreStandard();
    var pc1m := ChooseKeyBits(key64bit, Pc1());
    forall i, j | 0 <= i < 16 && 0 <= j < 6 {
      kn[i, j] := 0;
    }
    for i := 0 to 16
      modifies kn
      invariant pc1m[..] == Select(key, KeyChoice1())
      invariant forall n :: 0 <= n < i ==> KeyRow(kn, n) == Select(ShiftedHalves(key, n + 1), KeyChoice2())
      invariant forall n, b :: i <= n < 16 && 0 <= b < 6 ==> kn[n, b] == 0
    {
      label before:
      KeyRound(kn, pc1m, i, key);
      forall n | 0 <= n < i
        ensures KeyRow(kn, n) == Select(ShiftedHalves(key, n + 1), KeyChoice2())
      {
        assert RowBytes(kn, n) == old@before(RowBytes(kn, n));
        assert KeyRow(kn, n) == old@before(KeyRow(kn, n));
      }
    }
    KeyScheduleRows(key);
    assert key64bit[..] == old(key64bit[..]);
    assert Keys(kn) == KeySchedule(key) by {
      assert forall n :: 0 <= n < 16 ==> Keys(kn)[n] == KeySchedule(key)[n];
    }
  }

  /** The source's single rotation by the cumulative amount equals the standard's repeated shifts. */
  lemma {:induction false} RotatedAt(key: Bits, i: nat, j: nat)
    requires |key| == 64 && i < 16 && j < 56
    ensures |TOTROT| == 16 && TOTROT[i] <= 28
    ensures var l := j + TOTROT[i];
            ShiftedHalves(key, i + 1)[j]
            == Select(key, KeyChoice1())[if l < (if j < 28 then 28 else 56) then l else l - 28]
  {
    hide KeyChoice1, Select, RotateLeft;
    var s := Shifts(i + 1);
    TotalsAreRunningSums(i);
    RotatedOnceAt(ShiftedHalves(key, i), s, j);
    if i > 0 {
      var from := if j + s < (if j < 28 then 28 else 56) then j + s else j + s - 28;
      RotatedAt(key, i - 1, from);
    }
  }

  // Looking the tables up.

  /** What a permutation has produced once the input nibbles before j are done. */
  function Gathered(x: Bits, p: seq<nat>, j: nat): (r: Bits)
    requires |x| == 64 && Selects(p, 64, 64)
    ensures |r| == 64
  {
    seq(64, k requires 0 <= k < 64 => (p[k] - 1) / 4 < j && x[p[k] - 1])
  }

  lemma NibblesInString(s: seq<bv8>, h: nat, l: nat)
    requires h < |s| && l / 8 == h
    ensures NibbleBit((if l / 4 == 2 * h then (s[h] >> 4) & 0x0f else s[h] & 0x0f) as nat, l % 4) == BitsOf(s)[l]
  {
    hide Bit, BitsOf, NibbleBit;
    NibblesOfByte(s[h], l % 4);
    BitAt(s, l);
  }

  lemma QuarterOfEight(l: nat, h: nat)
    ensures l / 8 == h <==> l / 4 == 2 * h || l / 4 == 2 * h + 1
    ensures l / 4 < 2 * h + 2 <==> l / 4 < 2 * h || l / 8 == h
  {
  }

  lemma GatherStepAt(s: seq<bv8>, p: seq<nat>, h: nat, k: nat)
    requires |s| == 8 && Selects(p, 64, 64) && h < 8 && k < 64
    ensures var hi := NibbleTargets(p, 2 * h, ((s[h] >> 4) & 0x0f) as nat);
            var lo := NibbleTargets(p, 2 * h + 1, (s[h] & 0x0f) as nat);
            (Gathered(BitsOf(s), p, 2 * h)[k] || hi[k] || lo[k]) == Gathered(BitsOf(s), p, 2 * h + 2)[k]
  {
    hide Bit, BitsOf, NibbleBit;
    var l := p[k] - 1;
    QuarterOfEight(l, h);
    if l / 8 == h {
      NibblesInString(s, h, l);
    }
  }

  lemma GatherStep(s: seq<bv8>, p: seq<nat>, h: nat)
    requires |s| == 8 && Selects(p, 64, 64) && h < 8
    ensures var hi := NibbleTargets(p, 2 * h, ((s[h] >> 4) & 0x0f) as nat);
            var lo := NibbleTargets(p, 2 * h + 1, (s[h] & 0x0f) as nat);
            Or(Or(Gathered(BitsOf(s), p, 2 * h), hi), lo) == Gathered(BitsOf(s), p, 2 * h + 2)
  {
    hide BitsOf, NibbleTargets, Gathered;
    forall k | 0 <= k < 64 {
      GatherStepAt(s, p, h, k);
    }
  }

  /** The source's inner loop: the masks of two nibbles are ORed into the output block. */
  method OrMasks(perm: array3<bv8>, j: nat, hi: nat, lo: nat, outblock: array<bv8>, oo: nat)
    requires perm.Length0 == 16 && perm.Length1 == 16 && perm.Length2 == 8
    requires oo + 8 <= outblock.Length && j < 15 && hi < 16 && lo < 16
    modifies outblock
    ensures outblock[oo..oo + 8]
         == OrBytes(OrBytes(old(outblock[oo..oo + 8]), Mask(perm, j, hi)), Mask(perm, j + 1, lo))
    ensures OnlyChanges(outblock, oo, 8)
  {
    hide Or8;
    for i := 0 to 8
      invariant OnlyChanges(outblock, oo, 8)
      invariant forall b :: oo <= b < oo + i ==>
                  outblock[b] == Or8(Or8(old(outblock[b]), perm[j, hi, b - oo]), perm[j + 1, lo, b - oo])
      invariant forall b :: oo + i <= b < oo + 8 ==> outblock[b] == old(outblock[b])
    {
      OrTwice(outblock[oo + i], perm[j, hi, i], perm[j + 1, lo, i]);
      outblock[oo + i] := Or8(outblock[oo + i], Or8(perm[j, hi, i], perm[j + 1, lo, i]));
    }
  }

  method Permute(inblock: array<bv8>, io: nat, perm: array3<bv8>, ghost p: seq<nat>, outblock: array<bv8>, oo: nat)
    requires io + 8 <= inblock.Length && oo + 8 <= outblock.Length && inblock != outblock
    requires Selects(p, 64, 64) && PermTable(perm, p)
    modifies outblock
    ensures BitsOf(outblock[oo..oo + 8]) == Select(BitsOf(inblock[io..io + 8]), p)
    ensures OnlyChanges(outblock, oo, 8)
  {
    hide BitsOf, NibbleTargets, Gathered, Or, OrBytes, FirstBits, Select, Mask;
    for i := 0 to 8
      invariant OnlyChanges(outblock, oo, 8)
      invariant forall x :: oo <= x < oo + i ==> outblock[x] == 0
    {
      outblock[oo + i] := 0;
    }
    ghost var s := inblock[io..io + 8];
    ghost var x := BitsOf(s);
    ZeroBytes(outblock[oo..oo + 8], x);
    GatheredEnds(x, p);
    var j := 0;
    while j < 16
      invariant 0 <= j <= 16 && j % 2 == 0
      invariant OnlyChanges(outblock, oo, 8)
      invariant BitsOf(outblock[oo..oo + 8]) == Gathered(x, p, j)
    {
      var c := inblock[io + j / 2];
      var hi, lo := ((c >> 4) & 0x0f) as nat, (c & 0x0f) as nat;
      assert s[j / 2] == c;
      ghost var was := outblock[oo..oo + 8];
      OrMasks(perm, j, hi, lo, outblock, oo);
      BitsOfOr(was, Mask(perm, j, hi));
      BitsOfOr(OrBytes(was, Mask(perm, j, hi)), Mask(perm, j + 1, lo));
      GatherStep(s, p, j / 2);
      j := j + 2;
    }
  }

  lemma GatheredEnds(x: Bits, p: seq<nat>)
    requires |x| == 64 && Selects(p, 64, 64)
    ensures FirstBits(x, 0) == Gathered(x, p, 0)
    ensures Gathered(x, p, 16) == Select(x, p)
  {
  }

  method Expand(right: array<bv8>, ro: nat, bigright: array<bv8>)
    requires ro + 4 <= right.Length && bigright.Length == 6 && right != bigright
    modifies bigright
    ensures BitsOf(bigright[..]) == Select(BitsOf(right[ro..ro + 4]), Expansion())
  {
    hide BitsOf, Expansion, ExpandFirst, ExpandSecond, ExpandThird;
    var r0, r1, r2, r3 := right[ro], right[ro + 1], right[ro + 2], right[ro + 3];
    bigright[0] := ExpandFirst(r3, r0);
    bigright[1] := ExpandSecond(r0, r1);
    bigright[2] := ExpandThird(r1, r2);
    bigright[3] := ExpandFirst(r1, r2);
    bigright[4] := ExpandSecond(r2, r3);
    bigright[5] := ExpandThird(r3, r0);
    ghost var r := right[ro..ro + 4];
    assert r == [r0, r1, r2, r3];
    assert bigright[..] == ExpandBytes(r);
    ExpandIsE(r);
  }

  lemma PairAtOfIndex(i: nat, x: bv16)
    requires i < 4 && x < 4096
    ensures (x as nat) < 4096 && PairAt(i, x as nat) == CompPair(i, x)
  {
    hide CompPair;
    assert ((x as nat) as bv16) & 0xfff == x;
  }

  /** The bits that value `b` of each input byte before j sets, put together. */
  function Gathered32(x: Bits, p: seq<nat>, j: nat): (r: Bits)
    requires |x| == 32 && Selects(p, 32, 32)
    ensures |r| == 32
  {
    seq(32, k requires 0 <= k < 32 => (p[k] - 1) / 8 < j && x[p[k] - 1])
  }

  lemma GatherByteStepAt(s: seq<bv8>, p: seq<nat>, j: nat, k: nat)
    requires |s| == 4 && Selects(p, 32, 32) && j < 4 && k < 32
    ensures (s[j] as nat) < 256
    ensures (Gathered32(BitsOf(s), p, j)[k] || ByteTargets(p, j, s[j] as nat)[k]) == Gathered32(BitsOf(s), p, j + 1)[k]
  {
    hide Bit, BitsOf;
    var l := p[k] - 1;
    assert (s[j] as nat) as bv8 == s[j];
    if l / 8 == j {
      BitsAt(s, j, l % 8);
    }
  }

  lemma GatherByteStep(s: seq<bv8>, p: seq<nat>, j: nat)
    requires |s| == 4 && Selects(p, 32, 32) && j < 4
    ensures (s[j] as nat) < 256
    ensures Or(Gathered32(BitsOf(s), p, j), ByteTargets(p, j, s[j] as nat)) == Gathered32(BitsOf(s), p, j + 1)
  {
    hide BitsOf, ByteTargets, Gathered32;
    forall k | 0 <= k < 32 {
      GatherByteStepAt(s, p, j, k);
    }
  }

  lemma GatheredEnds32(x: Bits, p: seq<nat>)
    requires |x| == 32 && Selects(p, 32, 32)
    ensures FirstBits(x, 0) == Gathered32(x, p, 0)
    ensures Gathered32(x, p, 4) == Select(x, p)
  {
  }

  method Perm32(inblock: array<bv8>, p32: array3<bv8>, ghost p: seq<nat>, outblock: array<bv8>)
    requires inblock.Length == 4 && outblock.Length == 4 && inblock != outblock
    requires Selects(p, 32, 32) && P32Table(p32, p)
    modifies outblock
    ensures BitsOf(outblock[..]) == Select(BitsOf(inblock[..]), p)
  {
    hide BitsOf, ByteTargets, Gathered32, Or, FirstBits, Select, Or8;
    outblock[0], outblock[1], outblock[2], outblock[3] := 0, 0, 0, 0;
    ghost var s := inblock[..];
    ghost var x := BitsOf(s);
    ZeroBytes(outblock[..], x);
    GatheredEnds32(x, p);
    for j := 0 to 4
      invariant BitsOf(outblock[..]) == Gathered32(x, p, j)
    {
      var c := inblock[j] as nat;
      ghost var was, q := outblock[..], Mask(p32, j, c);
      outblock[0] := Or8(outblock[0], p32[j, c, 0]);
      outblock[1] := Or8(outblock[1], p32[j, c, 1]);
      outblock[2] := Or8(outblock[2], p32[j, c, 2]);
      outblock[3] := Or8(outblock[3], p32[j, c, 3]);
      assert outblock[..] == OrBytes(was, q);
      BitsOfOr(was, q);
      assert s[j] == inblock[j];
      GatherByteStep(s, p, j);
    }
  }
}
