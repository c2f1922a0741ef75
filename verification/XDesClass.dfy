/** The cipher object: Init fills the tables, Encrypt and Decrypt run over a buffer in place. */
module XDesObject {
  import opened DesTables
  import opened Fips46
  import opened DesBits
  import opened DesSBoxes
  import opened XDesCipher
  import opened XDesTables

  /** The whole 8-byte blocks before n, each put through the cipher; the other bytes as they were. */
  function CipherBytes(s: seq<bv8>, n: nat, ks: seq<Bits>): (r: seq<bv8>)
    requires n <= |s| && n % 8 == 0 && RoundKeys(ks)
    ensures |r| == |s|
  {
    if n == 0 then s
    else
      var done := CipherBytes(s, n - 8, ks);
      done[..n - 8] + CipherBlock(s[n - 8..n], ks) + done[n..]
  }

  function CipherBlock(b: seq<bv8>, ks: seq<Bits>): (r: seq<bv8>)
    requires |b| == 8 && RoundKeys(ks)
    ensures |r| == 8
  {
    BytesOf(Cipher(BitsOf(b), ks))
  }

  /** The length rounded down to whole blocks, as the source's mask with 0xfffffff8 does for either sign. */
  function Blocks(len: int): int {
    len - len % 8
  }

  lemma BlocksFit(len: int)
    ensures Blocks(len) % 8 == 0 && Blocks(len) <= len < Blocks(len) + 8
  {
  }

  /** The key bytes Init folds a password into: at most 40 characters, xored round robin. */
  function FoldedKey(password: seq<bv8>, n: nat): (key: seq<bv8>)
    requires n <= |password|
    ensures |key| == 8
  {
    if n == 0 then [0, 0, 0, 0, 0, 0, 0, 0]
    else
      var key := FoldedKey(password, n - 1);
      key[(n - 1) % 8 := Xor8(key[(n - 1) % 8], password[n - 1])]
  }

  function UsedChars(password: seq<bv8>): nat {
    if |password| < 40 then |password| else 40
  }

  function XorOf(s: seq<bv8>): bv8 {
    if s == [] then 0 else Xor8(XorOf(s[..|s| - 1]), s[|s| - 1])
  }

  /** The elements at positions i, i + 8, i + 16 and so on. */
  function EveryEighth(s: seq<bv8>, i: nat): seq<bv8> {
    if |s| <= i then [] else seq((|s| - i + 7) / 8, k requires 0 <= k < (|s| - i + 7) / 8 => s[i + 8 * k])
  }

  lemma EveryEighthGrows(s: seq<bv8>, b: bv8, i: nat)
    requires i < 8
    ensures EveryEighth(s + [b], i) == EveryEighth(s, i) + (if |s| % 8 == i then [b] else [])
  {
    var q := |s| / 8;
    assert |s| == 8 * q + |s| % 8;
  }

  /** Byte i of the key is the exclusive or of the used characters at positions i modulo 8. */
  lemma {:induction false} FoldedByte(password: seq<bv8>, n: nat, i: nat)
    requires n <= |password| && i < 8
    ensures FoldedKey(password, n)[i] == XorOf(EveryEighth(password[..n], i))
  {
    hide Xor8, EveryEighth;
    if n == 0 {
      NothingEighth(i);
      assert password[..0] == [];
    } else {
      FoldedByte(password, n - 1, i);
      assert password[..n] == password[..n - 1] + [password[n - 1]];
      EveryEighthGrows(password[..n - 1], password[n - 1], i);
      XorOfOneMore(EveryEighth(password[..n - 1], i), password[n - 1]);
    }
  }

  lemma NothingEighth(i: nat)
    ensures EveryEighth([], i) == [] && XorOf([]) == 0
  {
  }

  lemma XorOfOneMore(s: seq<bv8>, b: bv8)
    ensures XorOf(s + [b]) == Xor8(XorOf(s), b) && s + [] == s
  {
    hide Xor8;
    assert (s + [b])[..|s|] == s;
  }

  /** The first loop of Init. */
  method FoldPassword(password: seq<bv8>) returns (key64bit: array<bv8>)
    ensures fresh(key64bit) && key64bit.Length == 8
    ensures key64bit[..] == FoldedKey(password, UsedChars(password))
  {
    hide Xor8;
    key64bit := new bv8[8];
    for i := 0 to 8
      invariant forall x :: 0 <= x < i ==> key64bit[x] == 0
    {
      key64bit[i] := 0;
    }
    var i := 0;
    while i < |password| && i < 40
      invariant i <= UsedChars(password)
      invariant key64bit[..] == FoldedKey(password, i)
    {
      key64bit[i % 8] := Xor8(key64bit[i % 8], password[i]);
      i := i + 1;
    }
  }

  lemma ContractBytesInFull(b: seq<bv8>)
    requires |b| == 6
    ensures ContractBytes(b) == [CompPair(0, FirstTwelve(b[0], b[1])), CompPair(1, LastTwelve(b[1], b[2])),
                                 CompPair(2, FirstTwelve(b[3], b[4])), CompPair(3, LastTwelve(b[4], b[5]))]
  {
    hide CompPair, FirstTwelve, LastTwelve;
  }

  lemma IterateAllNext(x: Bits, ks: seq<Bits>, i: nat)
    requires |x| == 64 && RoundKeys(ks) && i < |ks|
    ensures IterateAll(x, ks[..i + 1]) == Iterate(IterateAll(x, ks[..i]), ks[i])
  {
    hide Iterate;
    assert ks[..i + 1][..i] == ks[..i];
  }

  lemma {:induction false} CipherBytesTail(s: seq<bv8>, n: nat, ks: seq<Bits>)
    requires n <= |s| && n % 8 == 0 && RoundKeys(ks)
    ensures CipherBytes(s, n, ks)[n..] == s[n..]
  {
    hide CipherBlock;
    if n > 0 {
      var done := CipherBytes(s, n - 8, ks);
      CipherBytesTail(s, n - 8, ks);
      TailOfPaste(done, n, CipherBlock(s[n - 8..n], ks));
      assert done[n..] == done[n - 8..][8..] && s[n..] == s[n - 8..][8..];
    }
  }

  lemma TailOfPaste(s: seq<bv8>, n: nat, block: seq<bv8>)
    requires 8 <= n <= |s| && |block| == 8
    ensures (s[..n - 8] + block + s[n..])[n..] == s[n..]
  {
    assert |s[..n - 8] + block| == n;
  }

  /** Each block of the result is the ciphered block of the input. */
  lemma {:induction false} CipherBytesBlock(s: seq<bv8>, n: nat, ks: seq<Bits>, b: nat)
    requires n <= |s| && n % 8 == 0 && RoundKeys(ks) && b % 8 == 0 && b + 8 <= n
    ensures CipherBytes(s, n, ks)[b..b + 8] == CipherBlock(s[b..b + 8], ks)
  {
    hide CipherBlock;
    var done := CipherBytes(s, n - 8, ks);
    if b + 8 == n {
      assert CipherBytes(s, n, ks)[b..b + 8] == CipherBlock(s[b..b + 8], ks);
    } else {
      CipherBytesBlock(s, n - 8, ks, b);
      assert CipherBytes(s, n, ks)[b..b + 8] == done[b..b + 8];
    }
  }

  /** Ciphering one more block of the buffer. */
  lemma CipherBytesNext(s: seq<bv8>, b: nat, ks: seq<Bits>, now: seq<bv8>)
    requires b + 8 <= |s| == |now| && b % 8 == 0 && RoundKeys(ks)
    requires var was := CipherBytes(s, b, ks);
             && now[b..b + 8] == CipherBlock(was[b..b + 8], ks)
             && forall i :: 0 <= i < |s| && !(b <= i < b + 8) ==> now[i] == was[i]
    ensures now == CipherBytes(s, b + 8, ks)
  {
    hide CipherBlock;
    var was := CipherBytes(s, b, ks);
    CipherBytesTail(s, b, ks);
    assert was[b..b + 8] == was[b..][..8] == s[b..][..8] == s[b..b + 8];
    assert now == was[..b] + CipherBlock(s[b..b + 8], ks) + was[b + 8..];
  }

  /** A ciphered buffer, block by block. */
  lemma WholeBuffer(s: seq<bv8>, n: nat, ks: seq<Bits>, now: seq<bv8>)
    requires n <= |s| && n % 8 == 0 && RoundKeys(ks) && now == CipherBytes(s, n, ks)
    ensures forall b :: 0 <= b && b + 8 <= n && b % 8 == 0 ==> now[b..b + 8] == CipherBlock(s[b..b + 8], ks)
    ensures forall i :: n <= i < |s| ==> now[i] == s[i]
  {
    hide CipherBlock, CipherBytes;
    forall b | 0 <= b && b + 8 <= n && b % 8 == 0
      ensures now[b..b + 8] == CipherBlock(s[b..b + 8], ks)
    {
      CipherBytesBlock(s, n, ks, b);
    }
    CipherBytesTail(s, n, ks);
    forall i | n <= i < |s|
      ensures now[i] == s[i]
    {
      assert now[i] == now[n..][i - n] && s[i] == s[n..][i - n];
    }
  }

  lemma CipherBytesNone(s: seq<bv8>, ks: seq<Bits>)
    requires RoundKeys(ks)
    ensures CipherBytes(s, 0, ks) == s
  {
  }

  method SwapHalves(iters: array<bv8>) returns (swap: array<bv8>)
    requires iters.Length == 136
    ensures fresh(swap) && swap.Length == 8
    ensures BitsOf(swap[..]) == Swap(BitsOf(iters[128..136]))
  {
    hide BitsOf;
    swap := new bv8[8];
    for i := 0 to 4
      invariant forall x :: 0 <= x < i ==> swap[x] == iters[132 + x]
    {
      swap[i] := iters[132 + i];
    }
    for i := 0 to 4
      invariant forall x :: 0 <= x < 4 ==> swap[x] == iters[132 + x]
      invariant forall x :: 4 <= x < 4 + i ==> swap[x] == iters[124 + x]
    {
      swap[4 + i] := iters[128 + i];
    }
    ghost var b := iters[128..136];
    assert swap[..] == b[4..] + b[..4] && b == b[..4] + b[4..];
    BitsOfConcat(b[..4], b[4..]);
    BitsOfConcat(b[4..], b[..4]);
  }

  method CopyFour(w: array<bv8>, from: nat, to: nat)
    requires from + 4 <= to && to + 4 <= w.Length
    modifies w
    ensures forall x :: to <= x < to + 4 ==> w[x] == old(w[x - to + from])
    ensures OnlyChanges(w, to, 4)
  {
    w[to], w[to + 1], w[to + 2], w[to + 3] := w[from], w[from + 1], w[from + 2], w[from + 3];
  }

  method XorFour(w: array<bv8>, from: nat, fret: array<bv8>, to: nat)
    requires from + 4 <= to && to + 4 <= w.Length && fret.Length == 4 && w != fret
    modifies w
    ensures forall x :: to <= x < to + 4 ==> w[x] == Xor8(old(w[x - to + from]), fret[x - to])
    ensures OnlyChanges(w, to, 4)
  {
    hide Xor8;
    w[to], w[to + 1], w[to + 2], w[to + 3] :=
      Xor8(w[from], fret[0]), Xor8(w[from + 1], fret[1]), Xor8(w[from + 2], fret[2]), Xor8(w[from + 3], fret[3]);
  }

  /** L[i] = R[i - 1] and R[i] = L[i - 1] xor f. */
  method WriteIteration(w: array<bv8>, io: nat, oo: nat, fret: array<bv8>)
    requires io + 8 <= oo && oo + 8 <= w.Length && fret.Length == 4 && w != fret
    modifies w
    ensures forall x :: oo <= x < oo + 4 ==> w[x] == old(w[x - oo + io + 4])
    ensures forall x :: oo + 4 <= x < oo + 8 ==> w[x] == Xor8(old(w[x - oo - 4 + io]), fret[x - oo - 4])
    ensures OnlyChanges(w, oo, 8)
  {
    hide Xor8;
    CopyFour(w, io + 4, oo);
    XorFour(w, io, fret, oo + 4);
  }

  /** An iteration on bytes is an iteration on bits. */
  lemma IterateBytes(b: seq<bv8>, f: seq<bv8>, k: Bits)
    requires |b| == 8 && |f| == 4 && |k| == 48
    requires BitsOf(f) == CipherF(BitsOf(b[4..]), k)
    ensures BitsOf(b[4..] + XorBytes(b[..4], f)) == Iterate(BitsOf(b), k)
  {
    hide BitsOf, CipherF, XorBytes, Xor;
    BitsOfConcat(b[4..], XorBytes(b[..4], f));
    BitsOfConcat(b[..4], b[4..]);
    assert b == b[..4] + b[4..];
    BitsOfXor(b[..4], f);
    var x := BitsOf(b);
    assert x[..32] == BitsOf(b[..4]) && x[32..] == BitsOf(b[4..]);
  }

  class XDes {
    const iperm: array3<bv8>
    const fperm: array3<bv8>
    const s: array2<bv8>
    const p32: array3<bv8>
    const kn: array2<bv8>
    ghost var key: Bits

    /** The tables have their sizes and do not share storage. */
    ghost predicate Shaped() {
      && iperm != fperm && iperm != p32 && fperm != p32 && s != kn
      && iperm.Length0 == 16 && iperm.Length1 == 16 && iperm.Length2 == 8
      && fperm.Length0 == 16 && fperm.Length1 == 16 && fperm.Length2 == 8
      && s.Length0 == 4 && s.Length1 == 4096
      && p32.Length0 == 4 && p32.Length1 == 256 && p32.Length2 == 4
      && kn.Length0 == 16 && kn.Length1 == 6
    }

    /** The tables hold what FIPS PUB 46-3 prescribes for `key`. */
    ghost predicate Ready()
      reads this, iperm, fperm, s, p32, kn
    {
      && Shaped()
      && |key| == 64
      && PermTable(iperm, Initial())
      && PermTable(fperm, Final())
      && STable(s)
      && P32Table(p32, Round())
      && Keys(kn) == KeySchedule(key)
    }

    constructor Unkeyed()
      ensures Shaped()
      ensures fresh(iperm) && fresh(fperm) && fresh(s) && fresh(p32) && fresh(kn)
    {
      iperm := new bv8[16, 16, 8];
      fperm := new bv8[16, 16, 8];
      s := new bv8[4, 4096];
      p32 := new bv8[4, 256, 4];
      kn := new bv8[16, 6];
    }

    /** `password` holds the characters before the terminating NUL. */
    method Init(password: seq<bv8>)
      requires Shaped()
      modifies this, iperm, fperm, s, p32, kn
      ensures Ready()
      ensures key == BitsOf(FoldedKey(password, UsedChars(password)))
    {
      hide PermTable, P32Table, STable, Keys, KeySchedule, Initial, Final, Round, Ip, Fp, P32i, BitsOf, FoldedKey;
      SourcePermutationsAreStandard();
      var key64bit := FoldPassword(password);
      PermInit(iperm, Ip());
      PermInit(fperm, Fp());
      KInit(kn, key64bit);
      SInit(s);
      P32Init(p32, P32i());
      key := BitsOf(key64bit[..]);
    }

    method Contract(in48: array<bv8>, out32: array<bv8>)
      requires STable(s) && in48.Length == 6 && out32.Length == 4 && in48 != out32
      modifies out32
      ensures BitsOf(out32[..]) == SubstituteAll(BitsOf(in48[..]))
    {
      hide BitsOf, SubstituteAll, CompPair, PairAt, FirstTwelve, LastTwelve, ContractBytes;
      ghost var b := in48[..];
      var x0, x1 := FirstTwelve(in48[0], in48[1]), LastTwelve(in48[1], in48[2]);
      var x2, x3 := FirstTwelve(in48[3], in48[4]), LastTwelve(in48[4], in48[5]);
      PairAtOfIndex(0, x0);
      PairAtOfIndex(1, x1);
      PairAtOfIndex(2, x2);
      PairAtOfIndex(3, x3);
      out32[0] := s[0, x0 as nat];
      out32[1] := s[1, x1 as nat];
      out32[2] := s[2, x2 as nat];
      out32[3] := s[3, x3 as nat];
      ContractBytesInFull(b);
      assert out32[..] == [CompPair(0, x0), CompPair(1, x1), CompPair(2, x2), CompPair(3, x3)];
      ContractIsS(b);
    }

    method F(right: array<bv8>, ro: nat, num: nat) returns (fret: array<bv8>)
      requires Ready() && ro + 4 <= right.Length && num < 16
      ensures fresh(fret) && fret.Length == 4
      ensures BitsOf(fret[..]) == CipherF(BitsOf(right[ro..ro + 4]), KeySchedule(key)[num])
    {
      hide BitsOf, SubstituteAll, Select, Xor, Xor8, Expansion, Round, Initial, Final, KeySchedule, PermTable, P32Table,
           STable;
      ghost var r := BitsOf(right[ro..ro + 4]);
      var bigright := new bv8[6];
      Expand(right, ro, bigright);
      ghost var e, k := bigright[..], RowBytes(kn, num);
      var result := new bv8[6];
      for i := 0 to 6
        modifies result
        invariant bigright[..] == e
        invariant forall x :: 0 <= x < i ==> result[x] == Xor8(e[x], k[x])
      {
        assert bigright[i] == e[i] && kn[num, i] == k[i];
        result[i] := Xor8(bigright[i], kn[num, i]);
      }
      assert result[..] == XorBytes(e, k);
      BitsOfXor(e, k);
      assert BitsOf(k) == KeySchedule(key)[num] by {
        assert Keys(kn)[num] == KeyRow(kn, num);
      }
      var preout := new bv8[4];
      Contract(result, preout);
      fret := new bv8[4];
      Perm32(preout, p32, Round(), fret);
    }

    /** One iteration between two rows of the same workspace. */
    method Iter(num: nat, w: array<bv8>, io: nat, oo: nat)
      requires Ready() && num < 16 && io + 8 <= oo && oo + 8 <= w.Length
      modifies w
      ensures BitsOf(w[oo..oo + 8]) == Iterate(old(BitsOf(w[io..io + 8])), KeySchedule(key)[num])
      ensures OnlyChanges(w, oo, 8)
    {
      hide BitsOf, CipherF, Iterate, Xor8, KeySchedule, PermTable, P32Table, STable, Initial, Final, Round;
      ghost var b, k := w[io..io + 8], KeySchedule(key)[num];
      assert w[io + 4..io + 8] == b[4..] && w[io..io + 4] == b[..4];
      var fret := F(w, io + 4, num);
      ghost var f := fret[..];
      IterateBytes(b, f, k);
      assert forall i :: 0 <= i < w.Length ==> w[i] == old(w[i]);
      WriteIteration(w, io, oo, fret);
      forall i | 0 <= i < 8
        ensures w[oo + i] == (b[4..] + XorBytes(b[..4], f))[i]
      {
        if i < 4 {
          assert w[oo + i] == old(w[io + 4 + i]) == b[4 + i];
        } else {
          assert w[oo + i] == Xor8(old(w[io + (i - 4)]), fret[i - 4]);
        }
      }
      assert w[oo..oo + 8] == b[4..] + XorBytes(b[..4], f);
    }

    /** The source's endes: in and out may be the same place of the same buffer. */
    method Endes(inblock: array<bv8>, io: nat, outblock: array<bv8>, oo: nat)
      requires Ready() && io + 8 <= inblock.Length && oo + 8 <= outblock.Length
      modifies outblock
      ensures outblock[oo..oo + 8] == CipherBlock(old(inblock[io..io + 8]), KeySchedule(key))
      ensures OnlyChanges(outblock, oo, 8)
    {
      hide BitsOf, BytesOf, Select, Iterate, Swap, KeySchedule, PermTable, P32Table, STable, Keys, Initial, Final,
           Round;
      ghost var ks := KeySchedule(key);
      ghost var x := BitsOf(inblock[io..io + 8]);
      ghost var start := Select(x, Initial());
      var iters := new bv8[136];
      Permute(inblock, io, iperm, Initial(), iters, 0);
      for i := 0 to 16
        modifies iters
        invariant BitsOf(iters[8 * i..8 * i + 8]) == IterateAll(start, ks[..i])
      {
        IterateAllNext(start, ks, i);
        Iter(i, iters, 8 * i, 8 * i + 8);
      }
      assert ks[..16] == ks;
      var swap := SwapHalves(iters);
      Permute(swap, 0, fperm, Final(), outblock, oo);
      assert swap[..] == swap[0..8];
      BytesOfBitsOf(outblock[oo..oo + 8]);
    }

    /** The source's dedes: the round keys in reverse order. */
    method Dedes(inblock: array<bv8>, io: nat, outblock: array<bv8>, oo: nat)
      requires Ready() && io + 8 <= inblock.Length && oo + 8 <= outblock.Length
      modifies outblock
      ensures outblock[oo..oo + 8] == CipherBlock(old(inblock[io..io + 8]), Reverse(KeySchedule(key)))
      ensures OnlyChanges(outblock, oo, 8)
    {
      hide BitsOf, BytesOf, Select, Iterate, Swap, KeySchedule, PermTable, P32Table, STable, Keys, Initial, Final,
           Round;
      ghost var ks := Reverse(KeySchedule(key));
      ghost var x := BitsOf(inblock[io..io + 8]);
      ghost var start := Select(x, Initial());
      var iters := new bv8[136];
      Permute(inblock, io, iperm, Initial(), iters, 0);
      for i := 0 to 16
        modifies iters
        invariant BitsOf(iters[8 * i..8 * i + 8]) == IterateAll(start, ks[..i])
      {
        IterateAllNext(start, ks, i);
        Iter(15 - i, iters, 8 * i, 8 * i + 8);
      }
      assert ks[..16] == ks;
      var swap := SwapHalves(iters);
      Permute(swap, 0, fperm, Final(), outblock, oo);
      assert swap[..] == swap[0..8];
      BytesOfBitsOf(outblock[oo..oo + 8]);
    }

    /** The round keys in the order in which one direction uses them. */
    ghost function DirectionKeys(encrypting: bool): (ks: seq<Bits>)
      requires |key| == 64
      reads this
      ensures |ks| == 16 && RoundKeys(ks)
    {
      if encrypting then KeySchedule(key) else Reverse(KeySchedule(key))
    }

    /** In place over a buffer; nothing happens for a negative length. */
    method DesMem(buf: array<bv8>, mlen: int, encrypting: bool)
      requires Ready() && mlen <= buf.Length && mlen % 8 == 0
      modifies buf
      ensures buf[..] == old(CipherBytes(buf[..], if mlen < 0 then 0 else mlen, DirectionKeys(encrypting)))
    {
      hide CipherBlock, CipherBytes, KeySchedule, PermTable, P32Table, STable, Keys, Initial, Final, Round;
      CipherBytesNone(buf[..], DirectionKeys(encrypting));
      ghost var s0, ks := buf[..], DirectionKeys(encrypting);
      var left, b := mlen, 0;
      while left > 0
        invariant b % 8 == 0 && b + left == mlen && (b > 0 ==> left >= 0)
        invariant b <= buf.Length && b <= (if mlen < 0 then 0 else mlen)
        invariant buf[..] == CipherBytes(s0, b, ks)
        modifies buf
      {
        ghost var was := buf[..];
        assert was[b..b + 8] == buf[b..b + 8];
        if encrypting {
          Endes(buf, b, buf, b);
        } else {
          Dedes(buf, b, buf, b);
        }
        assert buf[..][b..b + 8] == buf[b..b + 8];
        CipherBytesNext(s0, b, ks, buf[..]);
        left := left - 8;
        b := b + 8;
      }
    }

    /** Returns false, and does nothing, when there is no whole block. */
    method Encrypt(buf: array<bv8>, len: int) returns (ok: bool)
      requires Ready() && len <= buf.Length
      modifies buf
      ensures ok == (len < 0 || len >= 8)
      ensures forall b :: 0 <= b && b + 8 <= len && b % 8 == 0 ==>
                buf[b..b + 8] == CipherBlock(old(buf[b..b + 8]), KeySchedule(key))
      ensures forall i :: 0 <= i < buf.Length && i >= len - len % 8 ==> buf[i] == old(buf[i])
    {
      hide CipherBlock, CipherBytes, KeySchedule, PermTable, P32Table, STable, Keys, Initial, Final, Round;
      BlocksFit(len);
      if Blocks(len) == 0 {
        return false;
      }
      ghost var s, n := buf[..], if len < 0 then 0 else Blocks(len);
      DesMem(buf, Blocks(len), true);
      WholeBuffer(s, n, KeySchedule(key), buf[..]);
      return true;
    }

    method Decrypt(buf: array<bv8>, len: int) returns (ok: bool)
      requires Ready() && len <= buf.Length
      modifies buf
      ensures ok == (len < 0 || len >= 8)
      ensures forall b :: 0 <= b && b + 8 <= len && b % 8 == 0 ==>
                buf[b..b + 8] == CipherBlock(old(buf[b..b + 8]), Reverse(KeySchedule(key)))
      ensures forall i :: 0 <= i < buf.Length && i >= len - len % 8 ==> buf[i] == old(buf[i])
    {
      hide CipherBlock, CipherBytes, KeySchedule, PermTable, P32Table, STable, Keys, Initial, Final, Round;
      BlocksFit(len);
      if Blocks(len) == 0 {
        return false;
      }
      ghost var s, n := buf[..], if len < 0 then 0 else Blocks(len);
      DesMem(buf, Blocks(len), false);
      WholeBuffer(s, n, Reverse(KeySchedule(key)), buf[..]);
      return true;
    }
  }

  lemma CipherBlockUndone(b: seq<bv8>, ks: seq<Bits>)
    requires |b| == 8 && RoundKeys(ks)
    ensures CipherBlock(CipherBlock(b, ks), Reverse(ks)) == b
  {
    hide BitsOf, BytesOf, Cipher;
    BitsOfBytesOf(Cipher(BitsOf(b), ks));
    CipherUndone(BitsOf(b), ks);
    BytesOfBitsOf(b);
  }

  /** Ciphering a buffer again with the round keys reversed restores every byte of it. */
  lemma {:induction false} CipherBytesUndone(s: seq<bv8>, n: nat, ks: seq<Bits>)
    requires n <= |s| && n % 8 == 0 && RoundKeys(ks)
    ensures CipherBytes(CipherBytes(s, n, ks), n, Reverse(ks)) == s
  {
    hide CipherBlock, CipherBytes;
    var t := CipherBytes(s, n, ks);
    var u := CipherBytes(t, n, Reverse(ks));
    CipherBytesTail(s, n, ks);
    CipherBytesTail(t, n, Reverse(ks));
    forall i | 0 <= i < |s|
      ensures u[i] == s[i]
    {
      if i < n {
        var b := i - i % 8;
        CipherBytesBlock(s, n, ks, b);
        CipherBytesBlock(t, n, Reverse(ks), b);
        CipherBlockUndone(s[b..b + 8], ks);
        assert u[i] == u[b..b + 8][i - b] && s[i] == s[b..b + 8][i - b];
      } else {
        assert u[i] == u[n..][i - n] && t[i] == t[n..][i - n] && s[i] == s[n..][i - n];
      }
    }
  }

  /** What Encrypt followed by Decrypt, or the reverse, does to a buffer of any length under one key. */
  lemma BufferRoundTrip(s: seq<bv8>, n: nat, key: Bits)
    requires |key| == 64 && n <= |s| && n % 8 == 0
    ensures CipherBytes(CipherBytes(s, n, KeySchedule(key)), n, Reverse(KeySchedule(key))) == s
    ensures CipherBytes(CipherBytes(s, n, Reverse(KeySchedule(key))), n, KeySchedule(key)) == s
    ensures CipherBytes(s, n, KeySchedule(key))[n..] == s[n..]
    ensures CipherBytes(s, n, Reverse(KeySchedule(key)))[n..] == s[n..]
  {
    hide CipherBytes, KeySchedule;
    var ks := KeySchedule(key);
    CipherBytesUndone(s, n, ks);
    CipherBytesUndone(s, n, Reverse(ks));
    assert Reverse(Reverse(ks)) == ks;
    CipherBytesTail(s, n, ks);
    CipherBytesTail(s, n, Reverse(ks));
  }

  function NotBytes(s: seq<bv8>): (r: seq<bv8>)
    ensures |r| == |s|
  {
    seq(|s|, i requires 0 <= i < |s| => Xor8(s[i], 0xff))
  }

  lemma BitsOfNotBytes(s: seq<bv8>)
    ensures BitsOf(NotBytes(s)) == Not(BitsOf(s))
  {
    hide Bit, Xor8;
    forall i, m | 0 <= i < |s| && 0 <= m < 8
      ensures Bit(NotBytes(s)[i], m) == Not(BitsOf(s))[8 * i + m]
    {
      BitOfXor(s[i], 0xff, m);
      BitOfOnes(m);
      BitsAt(s, i, m);
    }
    SameBits(NotBytes(s), Not(BitsOf(s)));
  }

  lemma BitOfOnes(m: nat)
    requires m < 8
    ensures Bit(0xff, m)
  {
  }

  /** The complementation property, on the bytes endes works on. */
  lemma BlockComplementation(b: seq<bv8>, key: seq<bv8>)
    requires |b| == 8 && |key| == 8
    ensures CipherBlock(NotBytes(b), KeySchedule(BitsOf(NotBytes(key))))
         == NotBytes(CipherBlock(b, KeySchedule(BitsOf(key))))
  {
    hide BitsOf, BytesOf, NotBytes, Cipher, KeySchedule;
    var c := CipherBlock(b, KeySchedule(BitsOf(key)));
    BitsOfNotBytes(b);
    BitsOfNotBytes(key);
    BitsOfNotBytes(c);
    Complementation(BitsOf(b), BitsOf(key));
    BitsOfBytesOf(Cipher(BitsOf(b), KeySchedule(BitsOf(key))));
    BytesOfBitsOf(NotBytes(c));
  }
}
