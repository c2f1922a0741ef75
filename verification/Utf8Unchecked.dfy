/** The unchecked decoder and transcoders, which agree with the checked ones on well-formed input. */
module Utf8Unchecked {
  import opened Utf8Spec
  import opened Utf8Checked

  method UncheckedAppend(cp: nat, result: seq<Octet>) returns (r: seq<Octet>)
    requires cp < 0x1_0000_0000
    ensures r == result + Written(cp)
    ensures cp <= 0x10_FFFF ==> r == result + Encode(cp)
  {
    hide Written, Encode;
    if cp <= 0x10_FFFF {
      WrittenIsEncode(cp);
    }
    r := result + Written(cp);
  }

  /** How many octets next steps over: one even when the first octet announces nothing. */
  function StepOf(lead: Octet): (n: nat)
    ensures 1 <= n <= 4
  {
    if LengthOf(lead) == 0 then 1 else LengthOf(lead)
  }

  /** The value next computes from whatever octets are there. */
  function RawValue(t: seq<Octet>): nat
    requires t != [] && |t| == StepOf(t[0])
  {
    if LengthOf(t[0]) == 0 then t[0] else Value(t)
  }

  lemma RawOne(t: seq<Octet>)
    requires |t| == 1
    ensures Value(t) == t[0]
  {
  }

  lemma RawTwo(t: seq<Octet>)
    requires |t| == 2
    ensures var b: seq<nat> := t; b[0] * 0x40 % 0x800 + b[1] % 0x40 == Value(t)
  {
    LowBits(t[0]);
  }

  lemma RawThree(t: seq<Octet>)
    requires |t| == 3
    ensures var b: seq<nat> := t; b[0] * 0x1000 % 0x1_0000 + b[1] * 0x40 % 0x1000 + b[2] % 0x40 == Value(t)
  {
    LowBits(t[0]);
    LowBits(t[1]);
  }

  lemma RawFour(t: seq<Octet>)
    requires |t| == 4
    ensures var b: seq<nat> := t;
            b[0] * 0x4_0000 % 0x20_0000 + b[1] * 0x1000 % 0x4_0000 + b[2] * 0x40 % 0x1000 + b[3] % 0x40 == Value(t)
  {
    LowBits(t[0]);
    LowBits(t[1]);
    LowBits(t[2]);
  }

  method UncheckedNext(s: seq<Octet>, first: nat) returns (cp: nat, it: nat)
    requires first < |s| && first + StepOf(s[first]) <= |s|
    ensures it == first + StepOf(s[first]) && cp == RawValue(s[first..it])
  {
    hide Value;
    ghost var t := s[first..first + StepOf(s[first])];
    assert forall k :: 0 <= k < |t| ==> t[k] == s[first + k];
    if |t| == 1 {
      RawOne(t);
    }
    it := first;
    cp := s[it];
    var b: nat;
    match LengthOf(s[it]) {
      case 2 =>
        it := it + 1;
        b := s[it];
        cp := cp * 0x40 % 0x800 + b % 0x40;
        RawTwo(t);
      case 3 =>
        it := it + 1;
        b := s[it];
        cp := cp * 0x1000 % 0x1_0000 + b * 0x40 % 0x1000;
        it := it + 1;
        b := s[it];
        cp := cp + b % 0x40;
        RawThree(t);
      case 4 =>
        it := it + 1;
        b := s[it];
        cp := cp * 0x4_0000 % 0x20_0000 + b * 0x1000 % 0x4_0000;
        it := it + 1;
        b := s[it];
        cp := cp + b * 0x40 % 0x1000;
        it := it + 1;
        b := s[it];
        cp := cp + b % 0x40;
        RawFour(t);
      case _ =>
    }
    it := it + 1;
  }

  /** Where a character stands, the unchecked step reads exactly it. */
  lemma StepOverCharacter(s: seq<Octet>, first: nat, end: nat, cp: nat)
    requires first < end <= |s| && Stands(s, first, end, cp)
    ensures StepOf(s[first]) == |Encode(cp)| && RawValue(s[first..first + |Encode(cp)|]) == cp
  {
    hide Encode, Value;
    EncodeIsShaped(cp);
    assert s[first] == Encode(cp)[0];
  }

  method UncheckedDistance(s: seq<Octet>, start: nat, end: nat) returns (dist: nat)
    requires start <= end <= |s| && WellFormed8(s[start..end])
    ensures dist == |Points8(s[start..end])|
  {
    hide Encode, EncodeAll, RawValue, StepOf;
    var first := start;
    dist := 0;
    ghost var cps: seq<nat> := [];
    NothingRead();
    while first < end
      invariant start <= first <= end && dist == |cps| && AllValid(cps) && EncodeAll(cps) == s[start..first]
      decreases end - first
    {
      CanGoOn(s, start, first, end, cps);
      ghost var c :| Stands(s, first, end, c);
      StepOverCharacter(s, first, end, c);
      var cp, it := UncheckedNext(s, first);
      OneMore(s, start, first, end, cps, cp);
      cps := cps + [cp];
      first, dist := it, dist + 1;
    }
    PointsOfEncoded(cps);
  }

  method UncheckedUtf8To32(s: seq<Octet>, start: nat, end: nat) returns (out: seq<nat>)
    requires start <= end <= |s| && WellFormed8(s[start..end])
    ensures out == Points8(s[start..end])
  {
    hide Encode, EncodeAll, RawValue, StepOf;
    var pos := start;
    out := [];
    NothingRead();
    while pos < end
      invariant start <= pos <= end && AllValid(out) && EncodeAll(out) == s[start..pos]
      decreases end - pos
    {
      CanGoOn(s, start, pos, end, out);
      ghost var c :| Stands(s, pos, end, c);
      StepOverCharacter(s, pos, end, c);
      var cp, it := UncheckedNext(s, pos);
      OneMore(s, start, pos, end, out, cp);
      out := out + [cp];
      pos := it;
    }
    PointsOfEncoded(out);
  }

  method UncheckedUtf32To8(cps: seq<nat>) returns (out: seq<Octet>)
    requires AllValid(cps)
    ensures out == EncodeAll(cps)
  {
    hide Encode;
    out := [];
    for i := 0 to |cps|
      invariant AllValid(cps[..i]) && out == EncodeAll(cps[..i])
    {
      assert cps[..i + 1][..i] == cps[..i];
      out := UncheckedAppend(cps[i], out);
    }
    assert cps[..|cps|] == cps;
  }

  method UncheckedUtf8To16(s: seq<Octet>, start: nat, end: nat) returns (out: seq<Word16>)
    requires start <= end <= |s| && WellFormed8(s[start..end])
    ensures out == To16(s[start..end])
  {
    hide Encode, EncodeAll, Encode16, EncodeAll16, SplitPair, RawValue, StepOf;
    var pos := start;
    out := [];
    ghost var cps: seq<nat> := [];
    NothingRead();
    while pos < end
      invariant start <= pos <= end && AllValid(cps) && EncodeAll(cps) == s[start..pos]
      invariant out == EncodeAll16(cps)
      decreases end - pos
    {
      CanGoOn(s, start, pos, end, cps);
      ghost var c :| Stands(s, pos, end, c);
      StepOverCharacter(s, pos, end, c);
      var cp, it := UncheckedNext(s, pos);
      OneMore(s, start, pos, end, cps, cp);
      OneMore16(cps, cp);
      if cp > 0xFFFF {
        SplitPairIsEncode16(cp);
        out := out + SplitPair(cp);
      } else {
        out := out + [cp];
      }
      cps := cps + [cp];
      pos := it;
    }
    PointsOfEncoded(cps);
  }

  method UncheckedUtf16To8(w: seq<Word16>) returns (out: seq<Octet>)
    requires WellFormed16(w)
    ensures out == To8(w)
  {
    hide Encode, EncodeAll, Encode16, EncodeAll16, Combined;
    var pos := 0;
    out := [];
    ghost var cps: seq<nat> := [];
    NothingRead();
    while pos != |w|
      invariant 0 <= pos <= |w| && AllValid(cps) && EncodeAll16(cps) == w[..pos] && out == EncodeAll(cps)
      decreases |w| - pos
    {
      WellFormed16Rest(w, cps, pos);
      ghost var before := pos;
      var cp: nat := w[pos];
      pos := pos + 1;
      if IsLeadSurrogate(cp) {
        var trail: nat := w[pos];
        pos := pos + 1;
        OffsetCombines(cp, trail);
        PairRoundTrip(cp, trail);
        assert w[before..pos] == [cp, trail];
        cp := (cp * 0x400 % 0x1_0000_0000 + trail + SURROGATE_OFFSET) % 0x1_0000_0000;
      } else {
        SmallEncode16(cp);
        assert w[before..pos] == [cp];
      }
      assert w[before..pos] == Encode16(cp);
      out := UncheckedAppend(cp, out);
      OneMore16(cps, cp);
      assert w[..pos] == w[..before] + w[before..pos];
      cps := cps + [cp];
    }
    assert w[..pos] == w;
    PointsOfEncoded16(cps);
  }

  /** Stepping back without any check; some octet before `it` must not be a tail octet. */
  method UncheckedPrior(s: seq<Octet>, it: nat, ghost start: nat) returns (cp: nat, pos: nat)
    requires start < it <= |s| && WellFormed8(s[start..it])
    ensures var cps := Points8(s[start..it]);
            cps != [] && cp == cps[|cps| - 1] && pos == it - |Encode(cp)|
  {
    hide Encode, EncodeAll, RawValue, StepOf;
    WellFormedHasLead(s, start, it);
    pos := it - 1;
    while IsTail(s[pos])
      invariant start <= pos < it
      invariant forall k :: pos < k < it ==> IsTail(s[k])
      decreases pos
    {
      pos := pos - 1;
    }
    LastCharacter(s, start, it, pos);
    ghost var cps := Points8(s[start..it]);
    StepOverCharacter(s, pos, it, cps[|cps| - 1]);
    var temp;
    cp, temp := UncheckedNext(s, pos);
  }
}
