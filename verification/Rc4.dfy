/** The RC4 stream as the source runs it, on values. */
module Rc4Stream {
  import opened Bytes

  datatype Cipher = Cipher(x: Byte, y: Byte, s: seq<Byte>)

  predicate WellSized(c: Cipher) {
    |c.s| == 256
  }

  /** The table holds every byte once. */
  predicate Permutation(s: seq<Byte>) {
    |s| == 256 && forall i, j :: 0 <= i < j < 256 ==> s[i] != s[j]
  }

  function Plus(a: int, b: int): Byte {
    (a + b) % 0x100
  }

  function Swapped(s: seq<Byte>, i: nat, j: nat): (t: seq<Byte>)
    requires i < |s| && j < |s|
    ensures |t| == |s|
  {
    s[i := s[j]][j := s[i]]
  }

  /** One byte further: advance x and y and exchange the two table entries. */
  function Step(c: Cipher): (d: Cipher)
    requires WellSized(c)
    ensures WellSized(d)
  {
    var x := Plus(c.x, 1);
    var y := Plus(c.y, c.s[x]);
    Cipher(x, y, Swapped(c.s, x, y))
  }

  /** The key stream byte that belongs to the state after a step. */
  function Output(c: Cipher): bv8
    requires WellSized(c)
  {
    c.s[Plus(c.s[c.x], c.s[c.y])] as bv8
  }

  function Steps(c: Cipher, n: nat): (d: Cipher)
    requires WellSized(c)
    ensures WellSized(d)
  {
    if n == 0 then c else Step(Steps(c, n - 1))
  }

  function KeyStream(c: Cipher, n: nat): (k: seq<bv8>)
    requires WellSized(c)
    ensures |k| == n
  {
    if n == 0 then [] else KeyStream(c, n - 1) + [Output(Steps(c, n))]
  }

  function XorByte(a: bv8, b: bv8): bv8 { a ^ b }

  function XorAll(a: seq<bv8>, b: seq<bv8>): (r: seq<bv8>)
    requires |a| == |b|
    ensures |r| == |a|
  {
    seq(|a|, i requires 0 <= i < |a| => XorByte(a[i], b[i]))
  }

  lemma XorIsOperator(a: bv8, b: bv8)
    ensures XorByte(a, b) == a ^ b
  {
  }

  /** What coding a block writes; encoding and decoding are the same. */
  function Coded(c: Cipher, data: seq<bv8>): (r: seq<bv8>)
    requires WellSized(c)
    ensures |r| == |data|
  {
    XorAll(data, KeyStream(c, |data|))
  }

  // The state step is a bijection and keeps the table a permutation.

  function Unstep(d: Cipher): (c: Cipher)
    requires WellSized(d)
    ensures WellSized(c)
  {
    var s := Swapped(d.s, d.x, d.y);
    var sx: int := s[d.x];
    Cipher(Plus(d.x, 0xFF), Plus(d.y, 0x100 - sx), s)
  }

  lemma SwapTwice(s: seq<Byte>, i: nat, j: nat)
    requires i < |s| && j < |s|
    ensures Swapped(Swapped(s, i, j), i, j) == s
    ensures Swapped(s, i, j)[i] == s[j] && Swapped(s, i, j)[j] == s[i]
  {
  }

  lemma PlusBack(a: Byte, b: Byte)
    ensures var n: int := b; Plus(Plus(a, n), 0x100 - n) == a && Plus(Plus(a, 0x100 - n), n) == a
  {
    var m: int, n: int := a, b;
    assert Plus(m, n) == if m + n < 0x100 then m + n else m + n - 0x100;
    assert Plus(m, 0x100 - n) == if m < n then m + 0x100 - n else m - n;
  }

  lemma UnstepUndoesStep(c: Cipher)
    requires WellSized(c)
    ensures Unstep(Step(c)) == c
  {
    hide Swapped, Plus;
    var d := Step(c);
    SwapTwice(c.s, d.x, d.y);
    PlusBack(c.x, 1);
    PlusBack(c.y, c.s[d.x]);
  }

  lemma StepUndoesUnstep(c: Cipher)
    requires WellSized(c)
    ensures Step(Unstep(c)) == c
  {
    hide Swapped, Plus;
    var u := Unstep(c);
    SwapTwice(c.s, c.x, c.y);
    PlusBack(c.x, 1);
    PlusBack(c.y, u.s[c.x]);
  }

  /** No two states step to the same state, and every state is stepped to. */
  lemma StepIsBijective(c: Cipher, d: Cipher)
    requires WellSized(c) && WellSized(d)
    ensures Step(c) == Step(d) ==> c == d
    ensures exists p :: WellSized(p) && Step(p) == c
  {
    hide Step, Unstep;
    UnstepUndoesStep(c);
    UnstepUndoesStep(d);
    StepUndoesUnstep(c);
  }

  lemma SwapKeepsPermutation(s: seq<Byte>, i: nat, j: nat)
    requires Permutation(s) && i < 256 && j < 256
    ensures Permutation(Swapped(s, i, j))
  {
  }

  lemma {:induction false} StepsKeepPermutation(c: Cipher, n: nat)
    requires Permutation(c.s)
    ensures Permutation(Steps(c, n).s)
  {
    hide Swapped;
    if n > 0 {
      StepsKeepPermutation(c, n - 1);
      var d := Steps(c, n - 1);
      assert WellSized(d);
      SwapKeepsPermutation(d.s, Plus(d.x, 1), Plus(d.y, d.s[Plus(d.x, 1)]));
    }
  }

  // Chunks.

  lemma {:induction false} StepsAdd(c: Cipher, m: nat, n: nat)
    requires WellSized(c)
    ensures Steps(c, m + n) == Steps(Steps(c, m), n)
  {
    hide Step;
    if n > 0 {
      StepsAdd(c, m, n - 1);
    }
  }

  lemma {:induction false} KeyStreamAdd(c: Cipher, m: nat, n: nat)
    requires WellSized(c)
    ensures KeyStream(c, m + n) == KeyStream(c, m) + KeyStream(Steps(c, m), n)
  {
    hide Output, Steps;
    if n > 0 {
      KeyStreamAdd(c, m, n - 1);
      StepsAdd(c, m, n);
    }
  }

  lemma KeyStreamOfChunks(c: Cipher, m: nat, n: nat, total: nat)
    requires WellSized(c) && total == m + n
    ensures KeyStream(c, total) == KeyStream(c, m) + KeyStream(Steps(c, m), n)
  {
    hide Step, Output;
    KeyStreamAdd(c, m, n);
  }

  /** Coding two chunks one after the other is coding them together. */
  lemma CodedInChunks(c: Cipher, a: seq<bv8>, b: seq<bv8>)
    requires WellSized(c)
    ensures Coded(c, a + b) == Coded(c, a) + Coded(Steps(c, |a|), b)
  {
    hide XorAll;
    KeyStreamOfChunks(c, |a|, |b|, |a + b|);
    XorAllConcat(a, b, KeyStream(c, |a|), KeyStream(Steps(c, |a|), |b|));
  }

  lemma XorAllConcat(a: seq<bv8>, b: seq<bv8>, k: seq<bv8>, l: seq<bv8>)
    requires |a| == |k| && |b| == |l|
    ensures XorAll(a + b, k + l) == XorAll(a, k) + XorAll(b, l)
  {
    hide XorByte;
  }

  lemma XorTwice(a: bv8, k: bv8)
    ensures XorByte(XorByte(a, k), k) == a
  {
  }

  /** Decoding what was encoded under the same state gives the data back. */
  lemma CodedTwice(c: Cipher, data: seq<bv8>)
    requires WellSized(c)
    ensures Coded(c, Coded(c, data)) == data
  {
    hide XorByte;
    forall i | 0 <= i < |data| {
      XorTwice(data[i], KeyStream(c, |data|)[i]);
    }
  }

  // Coding from one place of memory to another.

  lemma {:induction false} KeyStreamAt(c: Cipher, n: nat, i: nat)
    requires WellSized(c) && i < n
    ensures KeyStream(c, n)[i] == Output(Steps(c, i + 1))
  {
    hide Output, Step;
    if i < n - 1 {
      KeyStreamAt(c, n - 1, i);
    }
  }

  /**
   * The target after coding n bytes, one after the other.  In the same array a byte is read after the ones before it
   * have been written.
   */
  function CodedInto(c: Cipher, same: bool, src: seq<bv8>, so: nat, dst: seq<bv8>, to: nat, n: nat): (r: seq<bv8>)
    requires WellSized(c) && so + n <= |src| && to + n <= |dst| && (same ==> src == dst)
    ensures |r| == |dst|
  {
    if n == 0 then dst
    else
      var d := CodedInto(c, same, src, so, dst, to, n - 1);
      var b := if same then d[so + n - 1] else src[so + n - 1];
      d[to + n - 1 := XorByte(b, Output(Steps(c, n)))]
  }

  /** Every byte of the source is read before it is overwritten. */
  predicate NoFeedback(same: bool, so: nat, to: nat, n: nat) {
    !same || to <= so || so + n <= to
  }

  lemma {:induction false} CodedIntoAt(c: Cipher, same: bool, src: seq<bv8>, so: nat, dst: seq<bv8>, to: nat, n: nat,
                                       p: nat)
    requires WellSized(c) && so + n <= |src| && to + n <= |dst| && (same ==> src == dst) && NoFeedback(same, so, to, n)
    requires p < |dst|
    ensures CodedInto(c, same, src, so, dst, to, n)[p]
         == if to <= p < to + n then XorByte(src[so + p - to], Output(Steps(c, p - to + 1))) else dst[p]
  {
    hide XorByte, Output, Steps;
    if n > 0 {
      CodedIntoAt(c, same, src, so, dst, to, n - 1, p);
      if same {
        CodedIntoAt(c, same, src, so, dst, to, n - 1, so + n - 1);
      }
    }
  }

  lemma CodedAt(c: Cipher, data: seq<bv8>, i: nat)
    requires WellSized(c) && i < |data|
    ensures Coded(c, data)[i] == XorByte(data[i], Output(Steps(c, i + 1)))
  {
    hide XorByte, Output, Steps, KeyStream;
    KeyStreamAt(c, |data|, i);
  }

  /** dst with part copied to position to. */
  function Pasted(dst: seq<bv8>, to: nat, part: seq<bv8>): (r: seq<bv8>)
    requires to + |part| <= |dst|
    ensures |r| == |dst|
    ensures forall p :: 0 <= p < |r| ==> r[p] == if to <= p < to + |part| then part[p - to] else dst[p]
  {
    dst[..to] + part + dst[to + |part|..]
  }

  /** Without feedback the target holds the coded source, and the rest of its array is unchanged. */
  lemma CodedIntoIsCoded(c: Cipher, same: bool, src: seq<bv8>, so: nat, dst: seq<bv8>, to: nat, n: nat)
    requires WellSized(c) && so + n <= |src| && to + n <= |dst| && (same ==> src == dst) && NoFeedback(same, so, to, n)
    ensures CodedInto(c, same, src, so, dst, to, n) == Pasted(dst, to, Coded(c, src[so..so + n]))
  {
    hide XorByte, Output, Steps, CodedInto, Coded, Pasted, NoFeedback;
    var r, want := CodedInto(c, same, src, so, dst, to, n), Pasted(dst, to, Coded(c, src[so..so + n]));
    forall p | 0 <= p < |dst|
      ensures r[p] == want[p]
    {
      CodedIntoAt(c, same, src, so, dst, to, n, p);
      if to <= p < to + n {
        CodedAt(c, src[so..so + n], p - to);
      }
    }
  }

  // The key schedule, with the source's index j in place of the textbook's i.

  /** The key repeated to 256 bytes. */
  function Repeated(key: seq<Byte>): (k: seq<Byte>)
    requires key != []
    ensures |k| == 256
  {
    seq(256, i requires 0 <= i < 256 => key[i % |key|])
  }

  datatype Mixing = Mixing(s: seq<Byte>, j: Byte)

  function Identity(): (s: seq<Byte>)
    ensures |s| == 256
  {
    seq(256, i requires 0 <= i < 256 => i)
  }

  function MixingAfter(k: seq<Byte>, n: nat): (m: Mixing)
    requires |k| == 256 && n <= 256
    ensures |m.s| == 256
  {
    if n == 0 then Mixing(Identity(), 0)
    else
      var m := MixingAfter(k, n - 1);
      var sj: int, kj: int := m.s[m.j], k[m.j];
      var j := Plus(m.j, sj + kj);
      Mixing(Swapped(m.s, n - 1, j), j)
  }

  /** The characters of a C string, up to its NUL if there is one. */
  function CString(mem: seq<Byte>): seq<Byte> {
    if mem == [] || mem[0] == 0 then [] else [mem[0]] + CString(mem[1..])
  }

  lemma {:induction false} CStringIsPrefix(mem: seq<Byte>)
    ensures CString(mem) <= mem && 0 !in CString(mem)
  {
    if mem != [] && mem[0] != 0 {
      CStringIsPrefix(mem[1..]);
    }
  }

  lemma {:induction false} StringBeforeNul(key: seq<Byte>, rest: seq<Byte>)
    requires 0 !in key
    ensures CString(key + [0] + rest) == key
  {
    if key != [] {
      assert (key + [0] + rest)[1..] == key[1..] + [0] + rest;
      StringBeforeNul(key[1..], rest);
    }
  }

  /** What the key schedule may read: a NUL-terminated string, or as many bytes as the caller says. */
  predicate Readable(mem: seq<Byte>, keyLen: int) {
    mem == [] || mem[0] == 0 || (keyLen <= |mem| && (keyLen == 0 ==> 0 in mem))
  }

  /** The key that a pointer and a length stand for: zero asks for the string, a negative length uses one byte. */
  function UsedKey(mem: seq<Byte>, keyLen: int): (key: seq<Byte>)
    requires mem != [] && mem[0] != 0 && Readable(mem, keyLen)
    ensures key != []
  {
    if keyLen == 0 then CString(mem) else if keyLen < 0 then mem[..1] else mem[..keyLen]
  }

  /** The state for a key: mixed, then 1013 steps thrown away. */
  function Keyed(key: seq<Byte>): (c: Cipher)
    requires key != []
    ensures WellSized(c)
  {
    Steps(Cipher(0, 0, MixingAfter(Repeated(key), 256).s), 1013)
  }

  lemma {:induction false} MixingIsPermutation(k: seq<Byte>, n: nat)
    requires |k| == 256 && n <= 256
    ensures Permutation(MixingAfter(k, n).s)
  {
    hide Swapped;
    if n > 0 {
      MixingIsPermutation(k, n - 1);
      var m := MixingAfter(k, n - 1);
      var sj: int, kj: int := m.s[m.j], k[m.j];
      SwapKeepsPermutation(m.s, n - 1, Plus(m.j, sj + kj));
    }
  }

  lemma KeyedIsPermutation(key: seq<Byte>)
    requires key != []
    ensures Permutation(Keyed(key).s)
  {
    hide Steps, MixingAfter, Permutation, Repeated;
    MixingIsPermutation(Repeated(key), 256);
    StepsKeepPermutation(Cipher(0, 0, MixingAfter(Repeated(key), 256).s), 1013);
  }

  // Two ends of a connection.

  /** A call on a cipher object, with the data handed in. */
  datatype Call = Real(data: seq<bv8>) | Peek(data: seq<bv8>)

  /** The data of the real calls, in order. */
  function RealData(calls: seq<Call>): seq<bv8> {
    if calls == [] then []
    else
      var last := calls[|calls| - 1];
      RealData(calls[..|calls| - 1]) + (if last.Real? then last.data else [])
  }

  /** The state after some calls. */
  function StateAfter(c: Cipher, calls: seq<Call>): (d: Cipher)
    requires WellSized(c)
    ensures WellSized(d)
  {
    if calls == [] then c
    else
      var d, last := StateAfter(c, calls[..|calls| - 1]), calls[|calls| - 1];
      if last.Real? then Steps(d, |last.data|) else d
  }

  /** What the real calls have returned, in order. */
  function Returned(c: Cipher, calls: seq<Call>): (out: seq<bv8>)
    requires WellSized(c)
  {
    if calls == [] then []
    else
      var before, last := calls[..|calls| - 1], calls[|calls| - 1];
      Returned(c, before) + (if last.Real? then Coded(StateAfter(c, before), last.data) else [])
  }

  /** However the data are cut up and whatever is peeked in between, the calls code one stream. */
  lemma {:induction false} CallsAreOneStream(c: Cipher, calls: seq<Call>)
    requires WellSized(c)
    ensures Returned(c, calls) == Coded(c, RealData(calls))
    ensures StateAfter(c, calls) == Steps(c, |RealData(calls)|)
  {
    hide Coded, Steps;
    if calls == [] {
      NothingCoded(c);
    } else {
      var before, last := calls[..|calls| - 1], calls[|calls| - 1];
      CallsAreOneStream(c, before);
      if last.Real? {
        CodedInChunks(c, RealData(before), last.data);
        StepsAdd(c, |RealData(before)|, |last.data|);
      } else {
        assert RealData(calls) == RealData(before) && Returned(c, calls) == Returned(c, before);
      }
    }
  }

  lemma NothingCoded(c: Cipher)
    requires WellSized(c)
    ensures Coded(c, []) == [] && Steps(c, 0) == c
  {
  }

  /**
   * Sender and receiver start in the same state.  Whatever chunks and peeks either side uses, a
   * receiver that has been given a beginning of what the sender wrote has decoded a beginning of
   * what the sender was given.
   */
  lemma Lockstep(c: Cipher, sent: seq<Call>, received: seq<Call>)
    requires WellSized(c)
    requires RealData(received) <= Returned(c, sent)
    ensures Returned(c, received) <= RealData(sent)
    ensures |RealData(received)| == |RealData(sent)| ==> StateAfter(c, received) == StateAfter(c, sent)
  {
    hide Coded, Steps, StateAfter, Returned, RealData;
    CallsAreOneStream(c, sent);
    CallsAreOneStream(c, received);
    PrefixOfWire(c, RealData(sent), RealData(received));
  }

  /** A beginning of the wire decodes to a beginning of the plain data. */
  lemma PrefixOfWire(c: Cipher, plain: seq<bv8>, got: seq<bv8>)
    requires WellSized(c) && got <= Coded(c, plain)
    ensures Coded(c, got) <= plain
  {
    hide Coded, Steps;
    var n := |got|;
    var p, q := plain[..n], plain[n..];
    assert plain == p + q;
    CodedInChunks(c, p, q);
    assert got == Coded(c, p);
    CodedTwice(c, p);
  }
}

/** The cipher object of the source, and the wrapper that can peek. */
module Rc4Object {
  import opened Bytes
  import opened Division
  import opened Rc4Stream

  /** The lengths that an int can hold. */
  const INT_LIMIT: nat := 0x8000_0000

  class RC4Cipher {
    var x: Byte
    var y: Byte
    const s: array<Byte>

    ghost predicate Valid() {
      s.Length == 256
    }

    ghost function State(): (c: Cipher)
      requires Valid()
      reads this, s
      ensures WellSized(c)
    {
      Cipher(x, y, s[..])
    }

    /** The source leaves the state unset; every byte of it is arbitrary here too. */
    constructor ()
      ensures Valid() && fresh(s)
    {
      s := new Byte[256];
    }

    method SwapByte(i: nat, j: nat)
      requires Valid() && i < 256 && j < 256
      modifies s
      ensures s[..] == Swapped(old(s[..]), i, j)
    {
      var t := s[i];
      s[i] := s[j];
      s[j] := t;
    }

    /** What pKey points to, [] for a null pointer.  An empty string is refused too and leaves the state alone. */
    method PrepareKey(mem: seq<Byte>, keyLen: int) returns (ok: bool)
      requires Readable(mem, keyLen)
      requires Valid()
      modifies this, s
      ensures ok == (mem != [] && mem[0] != 0)
      ensures State() == if ok then Keyed(UsedKey(mem, keyLen)) else old(State())
    {
      hide Swapped, Steps, MixingAfter, Repeated, Identity;
      if mem == [] || mem[0] == 0 {
        return false;
      }
      var n := keyLen;
      if n == 0 {
        n := Strlen(mem);
      }
      CStringIsPrefix(mem);
      assert n == 0 || UsedKey(mem, keyLen) == if n < 0 then mem[..1] else mem[..n];
      IdentityAt();
      for i := 0 to 256
        invariant forall k :: 0 <= k < i ==> s[k] == Identity()[k]
      {
        s[i] := i;
      }
      assert s[..] == Identity();
      var repeated := RepeatKey(mem, n);
      Mix(repeated[..]);
      x, y := 0, 0;
      SkipFor(1013);
      return true;
    }

    /** The second loop of the key schedule. */
    method Mix(k: seq<Byte>)
      requires Valid() && |k| == 256 && s[..] == Identity()
      modifies s
      ensures s[..] == MixingAfter(k, 256).s
    {
      hide Swapped, Identity;
      var j: Byte := 0;
      for i := 0 to 256
        invariant MixingAfter(k, i) == Mixing(s[..], j)
      {
        var sum: int, sj: int, kj: int := j, s[j], k[j];
        j := (sum + sj + kj) % 0x100;
        SwapByte(i, j);
      }
    }

    /** Moves as codeBlock does, in a loop of its own that picks no key stream byte. */
    method SkipFor(len: nat)
      requires Valid() && len < INT_LIMIT
      modifies this, s
      ensures State() == Steps(old(State()), len)
    {
      hide Step;
      ghost var c := State();
      var lx, ly := x, y;
      for i := 0 to len
        invariant Cipher(lx, ly, s[..]) == Steps(c, i)
      {
        lx, ly := Move(lx, ly);
      }
      x, y := lx, ly;
    }

    /** The loop body of skipFor: entry y goes to x before the old entry x goes to y. */
    method Move(lx: Byte, ly: Byte) returns (x': Byte, y': Byte)
      requires Valid()
      modifies s
      ensures Cipher(x', y', s[..]) == Step(old(Cipher(lx, ly, s[..])))
    {
      var ix: int, iy: int := lx, ly;
      x' := (ix + 1) % 0x100;
      var sx: int := s[x'];
      y' := (iy + sx) % 0x100;
      s[x'] := s[y'];
      s[y'] := sx;
    }

    /** The loop body of codeBlock: the key stream byte is picked with the sum of the entries as they were. */
    method Advance(lx: Byte, ly: Byte) returns (x': Byte, y': Byte, k: bv8)
      requires Valid()
      modifies s
      ensures Cipher(x', y', s[..]) == Step(old(Cipher(lx, ly, s[..])))
      ensures k == Output(Cipher(x', y', s[..]))
    {
      ghost var c := Cipher(lx, ly, s[..]);
      var ix: int, iy: int := lx, ly;
      x' := (ix + 1) % 0x100;
      var sx: int := s[x'];
      y' := (iy + sx) % 0x100;
      var sy: int := s[y'];
      s[x'] := sy;
      s[y'] := sx;
      SwapTwice(c.s, x', y');
      assert s[..] == Swapped(c.s, x', y');
      k := s[(sx + sy) % 0x100] as bv8;
    }

    /** Source and target may be in the same array, and may overlap there. */
    method CodeBlock(src: array<bv8>, so: nat, dst: array<bv8>, to: nat, len: nat)
      requires Valid() && so + len <= src.Length && to + len <= dst.Length && len < INT_LIMIT
      requires s as object != dst && s as object != src
      modifies this, s, dst
      ensures State() == Steps(old(State()), len)
      ensures dst[..] == CodedInto(old(State()), src == dst, old(src[..]), so, old(dst[..]), to, len)
      ensures NoFeedback(src == dst, so, to, len) ==>
                dst[..] == Pasted(old(dst[..]), to, Coded(old(State()), old(src[..])[so..so + len]))
    {
      hide Step, XorByte, Output, Coded, Pasted;
      ghost var c, from, into := State(), src[..], dst[..];
      var lx, ly, k := x, y, 0;
      for i := 0 to len
        invariant Cipher(lx, ly, s[..]) == Steps(c, i)
        invariant dst[..] == CodedInto(c, src == dst, from, so, into, to, i)
        invariant src != dst ==> src[..] == from
      {
        lx, ly, k := Advance(lx, ly);
        assert src == dst ==> src[so + i] == dst[..][so + i];
        XorIsOperator(src[so + i], k);
        dst[to + i] := src[so + i] ^ k;
      }
      x, y := lx, ly;
      if NoFeedback(src == dst, so, to, len) {
        CodedIntoIsCoded(c, src == dst, from, so, into, to, len);
      }
    }
  }

  lemma CStringFrom(mem: seq<Byte>, n: nat)
    requires n < |mem| && mem[n] == 0 && 0 !in mem[..n]
    ensures CString(mem) == mem[..n]
  {
    assert mem == mem[..n] + [0] + mem[n + 1..];
    StringBeforeNul(mem[..n], mem[n + 1..]);
  }

  /** strlen. */
  method Strlen(mem: seq<Byte>) returns (n: nat)
    requires 0 in mem
    ensures n == |CString(mem)|
  {
    n := 0;
    while mem[n] != 0
      invariant n < |mem| && 0 !in mem[..n] && 0 in mem[n..]
      decreases |mem| - n
    {
      assert mem[n..] == [mem[n]] + mem[n + 1..];
      n := n + 1;
    }
    CStringFrom(mem, n);
  }

  lemma IdentityAt()
    ensures forall k :: 0 <= k < 256 ==> Identity()[k] == k
  {
  }

  /** The first loop of the key schedule: the key over and over, or its first byte for a negative length. */
  method RepeatKey(mem: seq<Byte>, keyLen: int) returns (repeated: array<Byte>)
    requires mem != [] && keyLen != 0 && keyLen <= |mem|
    ensures fresh(repeated) && repeated.Length == 256
    ensures repeated[..] == Repeated(if keyLen < 0 then mem[..1] else mem[..keyLen])
  {
    ghost var key := if keyLen < 0 then mem[..1] else mem[..keyLen];
    repeated := new Byte[256];
    var j := 0;
    for i := 0 to 256
      invariant j == i % |key|
      invariant forall k :: 0 <= k < i ==> repeated[k] == Repeated(key)[k]
    {
      repeated[i] := mem[j];
      NextIndex(i, |key|);
      j := j + 1;
      if j >= keyLen {
        j := 0;
      }
    }
  }

  lemma NextIndex(i: nat, n: nat)
    requires 0 < n
    ensures (i + 1) % n == if i % n + 1 == n then 0 else i % n + 1
  {
    var q, r := i / n, i % n;
    assert i == q * n + r;
    if r + 1 == n {
      assert i + 1 == (q + 1) * n;
      RemainderOf(n, q + 1, 0);
    } else {
      assert i + 1 == q * n + (r + 1);
      RemainderOf(n, q, r + 1);
    }
  }

  /** The key that Clear sets, byte by byte. */
  const DEFAULT_KEY: seq<Byte> := [78, 101, 97, 116, 32, 38, 32, 83, 105, 109, 112, 108, 101]

  const DEFAULT_TEXT := "Neat & Simple"

  predicate IsAscii(text: string) {
    forall i :: 0 <= i < |text| ==> text[i] < 128 as char
  }

  function Ascii(text: string): (s: seq<Byte>)
    requires IsAscii(text)
    ensures |s| == |text|
  {
    seq(|text|, i requires 0 <= i < |text| => text[i] as int)
  }

  lemma DefaultKeyAsString()
    ensures IsAscii(DEFAULT_TEXT) && Ascii(DEFAULT_TEXT) == DEFAULT_KEY && CString(DEFAULT_KEY + [0]) == DEFAULT_KEY
  {
    assert DEFAULT_KEY + [0] == DEFAULT_KEY + [0] + [];
    StringBeforeNul(DEFAULT_KEY, []);
  }

  class XRC4Cipher {
    const impl: RC4Cipher

    ghost predicate Valid() {
      impl.Valid()
    }

    ghost function State(): (c: Cipher)
      requires Valid()
      reads impl, impl.s
      ensures WellSized(c)
    {
      impl.State()
    }

    /** The buffers do not overlap the cipher's own table. */
    ghost predicate Apart(src: array<bv8>, dst: array<bv8>) {
      impl.s as object != src && impl.s as object != dst
    }

    constructor ()
      ensures Valid() && State() == Keyed(DEFAULT_KEY)
      ensures fresh(impl) && fresh(impl.s)
    {
      impl := new RC4Cipher();
      new;
      Clear();
    }

    method Clear()
      requires Valid()
      modifies impl, impl.s
      ensures State() == Keyed(DEFAULT_KEY)
    {
      hide Keyed, CString;
      DefaultKeyAsString();
      var ok := impl.PrepareKey(Ascii(DEFAULT_TEXT) + [0], 0);
    }

    /** What pKey points to, [] for a null pointer: the characters before the NUL are the key. */
    method SetKey(mem: seq<Byte>)
      requires Valid() && (mem == [] || 0 in mem)
      modifies impl, impl.s
      ensures State() == if CString(mem) == [] then old(State()) else Keyed(CString(mem))
    {
      hide Keyed;
      var ok := impl.PrepareKey(mem, 0);
    }

    /** Codes a block and puts the saved state back. */
    method TryCipher(src: array<bv8>, so: nat, dst: array<bv8>, to: nat, len: nat)
      requires Valid() && so + len <= src.Length && to + len <= dst.Length && len < INT_LIMIT && Apart(src, dst)
      modifies impl, impl.s, dst
      ensures State() == old(State())
      ensures dst[..] == CodedInto(old(State()), src == dst, old(src[..]), so, old(dst[..]), to, len)
      ensures NoFeedback(src == dst, so, to, len) ==>
                dst[..] == Pasted(old(dst[..]), to, Coded(old(State()), old(src[..])[so..so + len]))
    {
      hide CodedInto, Steps, Coded, Pasted;
      var backupX, backupY, backupS := impl.x, impl.y, impl.s[..];
      DoCipher(src, so, dst, to, len);
      impl.x, impl.y := backupX, backupY;
      forall i | 0 <= i < 256 {
        impl.s[i] := backupS[i];
      }
      assert impl.s[..] == backupS;
      assert State() == old(State());
    }

    method DoCipher(src: array<bv8>, so: nat, dst: array<bv8>, to: nat, len: nat)
      requires Valid() && so + len <= src.Length && to + len <= dst.Length && len < INT_LIMIT && Apart(src, dst)
      modifies impl, impl.s, dst
      ensures State() == Steps(old(State()), len)
      ensures dst[..] == CodedInto(old(State()), src == dst, old(src[..]), so, old(dst[..]), to, len)
      ensures NoFeedback(src == dst, so, to, len) ==>
                dst[..] == Pasted(old(dst[..]), to, Coded(old(State()), old(src[..])[so..so + len]))
    {
      hide CodedInto, Steps, Coded, Pasted;
      impl.CodeBlock(src, so, dst, to, len);
    }

    /** A peek returns what the next real call with the same data will return, and moves nothing. */
    method Encode(src: array<bv8>, so: nat, dst: array<bv8>, to: nat, len: nat, isPeek: bool)
      requires Valid() && so + len <= src.Length && to + len <= dst.Length && len < INT_LIMIT && Apart(src, dst)
      modifies impl, impl.s, dst
      ensures State() == if isPeek then old(State()) else Steps(old(State()), len)
      ensures dst[..] == CodedInto(old(State()), src == dst, old(src[..]), so, old(dst[..]), to, len)
      ensures NoFeedback(src == dst, so, to, len) ==>
                dst[..] == Pasted(old(dst[..]), to, Coded(old(State()), old(src[..])[so..so + len]))
    {
      hide CodedInto, Steps, Coded, Pasted;
      if isPeek {
        TryCipher(src, so, dst, to, len);
      } else {
        DoCipher(src, so, dst, to, len);
      }
    }

    method Decode(src: array<bv8>, so: nat, dst: array<bv8>, to: nat, len: nat, isPeek: bool)
      requires Valid() && so + len <= src.Length && to + len <= dst.Length && len < INT_LIMIT && Apart(src, dst)
      modifies impl, impl.s, dst
      ensures State() == if isPeek then old(State()) else Steps(old(State()), len)
      ensures dst[..] == CodedInto(old(State()), src == dst, old(src[..]), so, old(dst[..]), to, len)
      ensures NoFeedback(src == dst, so, to, len) ==>
                dst[..] == Pasted(old(dst[..]), to, Coded(old(State()), old(src[..])[so..so + len]))
    {
      hide CodedInto, Steps, Coded, Pasted;
      if isPeek {
        TryCipher(src, so, dst, to, len);
      } else {
        DoCipher(src, so, dst, to, len);
      }
    }
  }
}
