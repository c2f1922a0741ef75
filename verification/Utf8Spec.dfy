/** UTF-8 and UTF-16 as RFC 3629 and RFC 2781 define them, over the code points the source accepts. */
module Utf8Spec {
  import opened Bytes
  import opened Division

  type Octet = Byte
  type Word16 = x: int | 0 <= x < 0x1_0000

  /** Unlike RFC 3629, the source also rejects U+FFFE and U+FFFF. */
  predicate ValidPoint(cp: nat) {
    cp <= 0x10_FFFF && !IsSurrogate(cp) && cp != 0xFFFE && cp != 0xFFFF
  }

  predicate IsLeadSurrogate(x: nat) {
    0xD800 <= x <= 0xDBFF
  }

  predicate IsTrailSurrogate(x: nat) {
    0xDC00 <= x <= 0xDFFF
  }

  predicate IsSurrogate(x: nat) {
    0xD800 <= x <= 0xDFFF
  }

  predicate AllValid(cps: seq<nat>) {
    forall i :: 0 <= i < |cps| ==> ValidPoint(cps[i])
  }

  /** A tail octet with the six lowest bits of x. */
  function Tail(x: nat): Octet {
    var low: nat := x % 0x40;
    0x80 + low
  }

  /** Section 3 of RFC 3629: the octets of a character. */
  function Encode(cp: nat): (s: seq<Octet>)
    requires cp <= 0x10_FFFF
    ensures 1 <= |s| <= 4
  {
    var x6: nat, x12: nat, x18: nat := cp / 0x40, cp / 0x1000, cp / 0x4_0000;
    if cp < 0x80 then [cp]
    else if cp < 0x800 then [0xC0 + x6, Tail(cp)]
    else if cp < 0x1_0000 then [0xE0 + x12, Tail(x6), Tail(cp)]
    else [0xF0 + x18, Tail(x12), Tail(x6), Tail(cp)]
  }

  function EncodeAll(cps: seq<nat>): (s: seq<Octet>)
    requires AllValid(cps)
  {
    if cps == [] then [] else EncodeAll(cps[..|cps| - 1]) + Encode(cps[|cps| - 1])
  }

  /** Section 2.1 of RFC 2781. */
  function Encode16(cp: nat): (w: seq<Word16>)
    requires cp <= 0x10_FFFF
    ensures 1 <= |w| <= 2
  {
    if cp < 0x1_0000 then [cp]
    else
      var high: nat, low: nat := (cp - 0x1_0000) / 0x400, (cp - 0x1_0000) % 0x400;
      [0xD800 + high, 0xDC00 + low]
  }

  function EncodeAll16(cps: seq<nat>): (w: seq<Word16>)
    requires AllValid(cps)
  {
    if cps == [] then [] else EncodeAll16(cps[..|cps| - 1]) + Encode16(cps[|cps| - 1])
  }

  predicate IsTail(x: Octet) {
    x / 0x40 == 2
  }

  /** The length announced by the first octet, or zero. */
  function LengthOf(lead: Octet): (n: nat)
    ensures n <= 4
  {
    if lead < 0x80 then 1
    else if lead / 0x20 == 0x6 then 2
    else if lead / 0x10 == 0xE then 3
    else if lead / 0x8 == 0x1E then 4
    else 0
  }

  /** The value bits of a sequence of the announced length. */
  function Value(s: seq<Octet>): nat
    requires 1 <= |s| <= 4
  {
    var b: seq<nat> := s;
    match |s|
    case 1 => b[0]
    case 2 => b[0] % 0x20 * 0x40 + b[1] % 0x40
    case 3 => b[0] % 0x10 * 0x1000 + b[1] % 0x40 * 0x40 + b[2] % 0x40
    case _ => b[0] % 0x8 * 0x4_0000 + b[1] % 0x40 * 0x1000 + b[2] % 0x40 * 0x40 + b[3] % 0x40
  }

  /** The mask after a shift keeps the low bits: the products and remainders of the decoders, for any octet. */
  lemma LowBits(x: nat)
    ensures x * 0x40 % 0x800 == x % 0x20 * 0x40 && x * 0x40 % 0x1000 == x % 0x40 * 0x40
    ensures x * 0x1000 % 0x1_0000 == x % 0x10 * 0x1000 && x * 0x1000 % 0x4_0000 == x % 0x40 * 0x1000
    ensures x * 0x4_0000 % 0x20_0000 == x % 0x8 * 0x4_0000
  {
    ScaledRemainder(x, 0x20, 0x40);
    ScaledRemainder(x, 0x40, 0x40);
    ScaledRemainder(x, 0x10, 0x1000);
    ScaledRemainder(x, 0x40, 0x1000);
    ScaledRemainder(x, 0x8, 0x4_0000);
  }

  /** A first octet with as many tail octets as it announces. */
  predicate Shaped(s: seq<Octet>) {
    && 1 <= |s| <= 4
    && LengthOf(s[0]) == |s|
    && forall i :: 1 <= i < |s| ==> IsTail(s[i])
  }

  /** The shortest length for a value. */
  function ShortestLength(cp: nat): nat {
    if cp < 0x80 then 1 else if cp < 0x800 then 2 else if cp < 0x1_0000 then 3 else 4
  }

  // One character.

  lemma EncodeIsShaped(cp: nat)
    requires cp <= 0x10_FFFF
    ensures Shaped(Encode(cp)) && Value(Encode(cp)) == cp && |Encode(cp)| == ShortestLength(cp)
    ensures !IsTail(Encode(cp)[0])
  {
    if cp < 0x800 {
    } else if cp < 0x1_0000 {
      assert cp / 0x1000 == cp / 0x40 / 0x40;
    } else {
      assert cp / 0x1000 == cp / 0x40 / 0x40 && cp / 0x4_0000 == cp / 0x40 / 0x40 / 0x40;
    }
  }

  lemma TwoBytesBack(b0: Octet, b1: Octet, cp: nat)
    requires LengthOf(b0) == 2 && IsTail(b1) && cp == Value([b0, b1]) && ShortestLength(cp) == 2
    ensures Encode(cp) == [b0, b1]
  {
  }

  lemma ThreeBytesBack(b0: Octet, b1: Octet, b2: Octet, cp: nat)
    requires LengthOf(b0) == 3 && IsTail(b1) && IsTail(b2) && cp == Value([b0, b1, b2]) && ShortestLength(cp) == 3
    ensures Encode(cp) == [b0, b1, b2]
  {
    var n0: nat, n1: nat, n2: nat := b0, b1, b2;
    assert cp == (n0 - 0xE0) * 0x1000 + (n1 - 0x80) * 0x40 + (n2 - 0x80);
    assert cp / 0x40 == (n0 - 0xE0) * 0x40 + (n1 - 0x80);
    assert cp / 0x1000 == n0 - 0xE0;
  }

  lemma FourBytesBack(b0: Octet, b1: Octet, b2: Octet, b3: Octet, cp: nat)
    requires LengthOf(b0) == 4 && IsTail(b1) && IsTail(b2) && IsTail(b3)
    requires cp == Value([b0, b1, b2, b3]) && ShortestLength(cp) == 4 && cp <= 0x10_FFFF
    ensures Encode(cp) == [b0, b1, b2, b3]
  {
    var n0: nat, n1: nat, n2: nat, n3: nat := b0, b1, b2, b3;
    assert cp == (n0 - 0xF0) * 0x4_0000 + (n1 - 0x80) * 0x1000 + (n2 - 0x80) * 0x40 + (n3 - 0x80);
    assert cp / 0x40 == (n0 - 0xF0) * 0x1000 + (n1 - 0x80) * 0x40 + (n2 - 0x80);
    assert cp / 0x1000 == (n0 - 0xF0) * 0x40 + (n1 - 0x80);
    assert cp / 0x4_0000 == n0 - 0xF0;
  }

  lemma ShapedIsEncode(s: seq<Octet>)
    requires Shaped(s) && Value(s) <= 0x10_FFFF && |s| == ShortestLength(Value(s))
    ensures Encode(Value(s)) == s
  {
    if |s| == 2 {
      assert s == [s[0], s[1]];
      TwoBytesBack(s[0], s[1], Value(s));
    } else if |s| == 3 {
      assert s == [s[0], s[1], s[2]];
      ThreeBytesBack(s[0], s[1], s[2], Value(s));
    } else if |s| == 4 {
      assert s == [s[0], s[1], s[2], s[3]];
      FourBytesBack(s[0], s[1], s[2], s[3], Value(s));
    }
  }

  /** The character cp stands at position i, before position end. */
  ghost predicate Stands(s: seq<Octet>, i: nat, end: nat, cp: nat)
    requires end <= |s|
  {
    ValidPoint(cp) && i + |Encode(cp)| <= end && s[i..i + |Encode(cp)|] == Encode(cp)
  }

  /** No two characters can stand at the same place. */
  lemma StandsOnce(s: seq<Octet>, i: nat, e1: nat, e2: nat, c1: nat, c2: nat)
    requires e1 <= |s| && e2 <= |s| && Stands(s, i, e1, c1) && Stands(s, i, e2, c2)
    ensures c1 == c2
  {
    hide Encode, LengthOf, Value;
    EncodeIsShaped(c1);
    EncodeIsShaped(c2);
    assert Encode(c1)[0] == s[i] == Encode(c2)[0];
  }

  // Sequences of characters.

  lemma {:induction false} EncodeAllConcat(a: seq<nat>, b: seq<nat>)
    requires AllValid(a) && AllValid(b)
    ensures AllValid(a + b) && EncodeAll(a + b) == EncodeAll(a) + EncodeAll(b)
  {
    hide Encode;
    if b == [] {
      assert a + b == a;
    } else {
      EncodeAllConcat(a, b[..|b| - 1]);
      assert (a + b)[..|a + b| - 1] == a + b[..|b| - 1] && (a + b)[|a + b| - 1] == b[|b| - 1];
    }
  }

  lemma EncodeAllOne(cp: nat)
    requires ValidPoint(cp)
    ensures EncodeAll([cp]) == Encode(cp)
  {
    hide Encode;
    assert [cp][..0] == [];
  }

  /** Reading from the front: the first character stands at the start. */
  lemma EncodeAllFront(cps: seq<nat>)
    requires AllValid(cps) && cps != []
    ensures EncodeAll(cps) == Encode(cps[0]) + EncodeAll(cps[1..])
  {
    hide Encode;
    EncodeAllConcat(cps[..1], cps[1..]);
    assert cps == cps[..1] + cps[1..] && cps[..1] == [cps[0]];
    EncodeAllOne(cps[0]);
  }

  /** What has been read so far begins every possible reading. */
  lemma {:induction false} ReadingIsUnique(a: seq<nat>, b: seq<nat>)
    requires AllValid(a) && AllValid(b) && EncodeAll(a) <= EncodeAll(b)
    ensures a <= b
  {
    hide Encode;
    if a != [] {
      EncodeAllFront(a);
      var t := EncodeAll(b);
      assert t[..|EncodeAll(a)|] == EncodeAll(a);
      assert b != [];
      EncodeAllFront(b);
      assert t[0..0 + |Encode(a[0])|] == Encode(a[0]) && t[0..0 + |Encode(b[0])|] == Encode(b[0]);
      StandsOnce(t, 0, |t|, |t|, a[0], b[0]);
      assert EncodeAll(a[1..]) == EncodeAll(a)[|Encode(a[0])|..];
      assert EncodeAll(b[1..]) == t[|Encode(a[0])|..];
      ReadingIsUnique(a[1..], b[1..]);
      assert a == [a[0]] + a[1..] && b == [a[0]] + b[1..];
    }
  }

  lemma EncodeAllInjective(a: seq<nat>, b: seq<nat>)
    requires AllValid(a) && AllValid(b) && EncodeAll(a) == EncodeAll(b)
    ensures a == b
  {
    ReadingIsUnique(a, b);
    ReadingIsUnique(b, a);
  }

  /** The octets are a concatenation of encoded characters. */
  ghost predicate WellFormed8(s: seq<Octet>) {
    exists cps :: AllValid(cps) && EncodeAll(cps) == s
  }

  ghost function Points8(s: seq<Octet>): (cps: seq<nat>)
    requires WellFormed8(s)
    ensures AllValid(cps) && EncodeAll(cps) == s
  {
    var cps :| AllValid(cps) && EncodeAll(cps) == s;
    cps
  }

  lemma PointsOfEncoded(cps: seq<nat>)
    requires AllValid(cps)
    ensures WellFormed8(EncodeAll(cps)) && Points8(EncodeAll(cps)) == cps
  {
    EncodeAllInjective(Points8(EncodeAll(cps)), cps);
  }

  lemma StandsBetween(front: seq<Octet>, cp: nat, back: seq<Octet>)
    requires ValidPoint(cp)
    ensures var s := front + (Encode(cp) + back); Stands(s, |front|, |s|, cp)
  {
    hide Encode;
    var s := front + (Encode(cp) + back);
    assert s[|front|..|front| + |Encode(cp)|] == Encode(cp);
  }

  /** After a well-formed beginning, the whole is well-formed exactly if the rest starts with a character and so on. */
  lemma RestStands(s: seq<Octet>, done: seq<nat>, pos: nat)
    requires AllValid(done) && pos < |s| && s[..pos] == EncodeAll(done) && WellFormed8(s)
    ensures exists cp :: Stands(s, pos, |s|, cp)
  {
    hide Encode, Stands, EncodeAll, ValidPoint;
    var all := Points8(s);
    ReadingIsUnique(done, all);
    var tail := all[|done|..];
    assert all == done + tail;
    EncodeAllConcat(done, tail);
    assert tail == [] ==> all == done;
    assert tail != [];
    EncodeAllFront(tail);
    StandsBetween(EncodeAll(done), tail[0], EncodeAll(tail[1..]));
    assert Stands(s, pos, |s|, tail[0]);
  }

  // The syntax of section 4 of RFC 3629.

  predicate Abnf(s: seq<Octet>) {
    || (|s| == 1 && s[0] <= 0x7F)
    || (|s| == 2 && 0xC2 <= s[0] <= 0xDF && IsTail(s[1]))
    || (|s| == 3 && IsTail(s[1]) && IsTail(s[2])
        && ((s[0] == 0xE0 && 0xA0 <= s[1]) || 0xE1 <= s[0] <= 0xEC
            || (s[0] == 0xED && s[1] <= 0x9F) || 0xEE <= s[0] <= 0xEF))
    || (|s| == 4 && IsTail(s[1]) && IsTail(s[2]) && IsTail(s[3])
        && ((s[0] == 0xF0 && 0x90 <= s[1]) || 0xF1 <= s[0] <= 0xF3 || (s[0] == 0xF4 && s[1] <= 0x8F)))
  }

  /** U+FFFE and U+FFFF, which the standard allows and the source does not. */
  predicate EncodesNonCharacter(s: seq<Octet>) {
    s == [0xEF, 0xBF, 0xBE] || s == [0xEF, 0xBF, 0xBF]
  }

  lemma AbnfIsShaped(s: seq<Octet>)
    requires Abnf(s)
    ensures Shaped(s) && Value(s) <= 0x10_FFFF && |s| == ShortestLength(Value(s)) && !IsSurrogate(Value(s))
    ensures !EncodesNonCharacter(s) ==> ValidPoint(Value(s))
  {
  }

  lemma EncodeIsAbnf(cp: nat)
    requires ValidPoint(cp)
    ensures Abnf(Encode(cp)) && !EncodesNonCharacter(Encode(cp))
  {
  }

  /** The accepted characters are those of the standard's syntax, without the two non-characters. */
  lemma CharactersAreAbnf(s: seq<Octet>)
    ensures (exists cp :: ValidPoint(cp) && Encode(cp) == s) <==> Abnf(s) && !EncodesNonCharacter(s)
  {
    hide Encode;
    if Abnf(s) && !EncodesNonCharacter(s) {
      AbnfIsShaped(s);
      ShapedIsEncode(s);
    }
    forall cp | ValidPoint(cp) && Encode(cp) == s {
      EncodeIsAbnf(cp);
    }
  }

  // UTF-16.

  lemma {:induction false} EncodeAll16Concat(a: seq<nat>, b: seq<nat>)
    requires AllValid(a) && AllValid(b)
    ensures AllValid(a + b) && EncodeAll16(a + b) == EncodeAll16(a) + EncodeAll16(b)
  {
    hide Encode16, ValidPoint;
    if b == [] {
      assert a + b == a;
    } else {
      var n := |b| - 1;
      EncodeAll16Concat(a, b[..n]);
      assert (a + b)[..|a| + n] == a + b[..n] && (a + b)[|a| + n] == b[n];
    }
  }

  lemma EncodeAll16One(cp: nat)
    requires ValidPoint(cp)
    ensures AllValid([cp]) && EncodeAll16([cp]) == Encode16(cp)
  {
    hide Encode16, ValidPoint;
    assert [cp][..0] == [] && EncodeAll16([]) == [];
  }

  lemma EncodeAll16Front(cps: seq<nat>)
    requires AllValid(cps) && cps != []
    ensures EncodeAll16(cps) == Encode16(cps[0]) + EncodeAll16(cps[1..])
  {
    hide Encode16, EncodeAll16, ValidPoint;
    EncodeAll16One(cps[0]);
    EncodeAll16Concat([cps[0]], cps[1..]);
    assert cps == [cps[0]] + cps[1..];
  }

  /** Paired surrogates, and no U+FFFE or U+FFFF. */
  predicate WellFormed16(w: seq<Word16>) {
    if w == [] then true
    else if IsLeadSurrogate(w[0]) then |w| > 1 && IsTrailSurrogate(w[1]) && WellFormed16(w[2..])
    else ValidPoint(w[0]) && WellFormed16(w[1..])
  }

  /** Section 2.2 of RFC 2781. */
  function Combined(lead: nat, trail: nat): nat
    requires IsLeadSurrogate(lead) && IsTrailSurrogate(trail)
  {
    (lead - 0xD800) * 0x400 + (trail - 0xDC00) + 0x1_0000
  }

  lemma PairRoundTrip(lead: nat, trail: nat)
    requires IsLeadSurrogate(lead) && IsTrailSurrogate(trail)
    ensures 0x1_0000 <= Combined(lead, trail) <= 0x10_FFFF && ValidPoint(Combined(lead, trail))
    ensures Encode16(Combined(lead, trail)) == [lead, trail]
  {
  }

  lemma EncodedPair(cp: nat)
    requires 0x1_0000 <= cp <= 0x10_FFFF
    ensures var w := Encode16(cp);
            |w| == 2 && IsLeadSurrogate(w[0]) && IsTrailSurrogate(w[1]) && Combined(w[0], w[1]) == cp
  {
  }

  function Points16(w: seq<Word16>): (cps: seq<nat>)
    requires WellFormed16(w)
    ensures AllValid(cps) && EncodeAll16(cps) == w
  {
    if w == [] then []
    else if IsLeadSurrogate(w[0]) then
      var cp, rest := Combined(w[0], w[1]), Points16(w[2..]);
      PairRoundTrip(w[0], w[1]);
      EncodeAll16Front([cp] + rest);
      [cp] + rest
    else
      var rest := Points16(w[1..]);
      EncodeAll16Front([w[0]] + rest);
      [w[0]] + rest
  }

  lemma {:induction false} PointsOfEncoded16(cps: seq<nat>)
    requires AllValid(cps)
    ensures WellFormed16(EncodeAll16(cps)) && Points16(EncodeAll16(cps)) == cps
  {
    if cps != [] {
      EncodeAll16Front(cps);
      PointsOfEncoded16(cps[1..]);
      var w := EncodeAll16(cps);
      if cps[0] < 0x1_0000 {
        assert w[1..] == EncodeAll16(cps[1..]);
      } else {
        EncodedPair(cps[0]);
        assert w[2..] == EncodeAll16(cps[1..]);
      }
    }
  }

  // What the transcoders compute.

  ghost function To16(s: seq<Octet>): (w: seq<Word16>)
    requires WellFormed8(s)
  {
    EncodeAll16(Points8(s))
  }

  function To8(w: seq<Word16>): (s: seq<Octet>)
    requires WellFormed16(w)
  {
    EncodeAll(Points16(w))
  }

  /** Every accepted UTF-8 string survives the way to UTF-16 and back. */
  lemma ThereAndBack8(s: seq<Octet>)
    requires WellFormed8(s)
    ensures WellFormed16(To16(s)) && To8(To16(s)) == s
  {
    PointsOfEncoded16(Points8(s));
  }

  /** Every well-formed UTF-16 string survives the way to UTF-8 and back. */
  lemma ThereAndBack16(w: seq<Word16>)
    requires WellFormed16(w)
    ensures WellFormed8(To8(w)) && To16(To8(w)) == w
  {
    PointsOfEncoded(Points16(w));
  }
}
