/**
 * The checked decoder and transcoders.  An iterator is a position in the sequence `s` of octets
 * in memory; an output iterator is the sequence written so far.  The shifts, masks and ORs of
 * the source are written as the products, remainders and sums they are on these ranges, except
 * in Append, where the OR is kept.
 */
module Utf8Checked {
  import opened Utf8Spec
  import opened Slices

  datatype UtfError = Utf8Ok | NotEnoughRoom | InvalidLead | IncompleteSequence | OverlongSequence | InvalidCodePoint

  datatype Exception =
    | NotEnoughRoomThrown
    | InvalidUtf8(octet: Octet)
    | InvalidUtf16(word: Word16)
    | InvalidPoint(cp: nat)

  datatype Result<+T> = Ok(value: T) | Thrown(exception: Exception)

  predicate IsOverlong(cp: nat, length: nat) {
    cp < 0x1_0000 && length != ShortestLength(cp)
  }

  /** Which octets of an announced sequence are there, and what is wrong with the first that is not. */
  function TailsVerdict(s: seq<Octet>, it: nat, end: nat, length: nat): UtfError
    requires it <= end <= |s| && 1 <= length <= 4
  {
    if it == end then NotEnoughRoom
    else if length >= 2 && it + 1 == end then NotEnoughRoom
    else if length >= 2 && !IsTail(s[it + 1]) then IncompleteSequence
    else if length >= 3 && it + 2 == end then NotEnoughRoom
    else if length >= 3 && !IsTail(s[it + 2]) then IncompleteSequence
    else if length >= 4 && it + 3 == end then NotEnoughRoom
    else if length >= 4 && !IsTail(s[it + 3]) then IncompleteSequence
    else Utf8Ok
  }

  method GetSequence1(s: seq<Octet>, first: nat, end: nat) returns (err: UtfError, it: nat, cp: nat)
    requires first <= end <= |s|
    ensures err == TailsVerdict(s, first, end, 1)
    ensures err == Utf8Ok ==> it == first && cp == Value(s[first..first + 1])
  {
    it, cp := first, 0;
    if it != end {
      cp := s[it];
      return Utf8Ok, it, cp;
    }
    err := NotEnoughRoom;
  }

  method GetSequence2(s: seq<Octet>, first: nat, end: nat) returns (err: UtfError, it: nat, cp: nat)
    requires first <= end <= |s|
    ensures err == TailsVerdict(s, first, end, 2)
    ensures err == Utf8Ok ==> it == first + 1 && cp == Value(s[first..first + 2])
  {
    it, err, cp := first, NotEnoughRoom, 0;
    if it != end {
      var c: nat := s[it];
      it := it + 1;
      if it != end {
        var b: nat := s[it];
        if IsTail(s[it]) {
          LowBits(c);
          cp := c * 0x40 % 0x800 + b % 0x40;
          err := Utf8Ok;
        } else {
          err := IncompleteSequence;
        }
      }
    }
  }

  method GetSequence3(s: seq<Octet>, first: nat, end: nat) returns (err: UtfError, it: nat, cp: nat)
    requires first <= end <= |s|
    ensures err == TailsVerdict(s, first, end, 3)
    ensures err == Utf8Ok ==> it == first + 2 && cp == Value(s[first..first + 3])
  {
    it, err, cp := first, NotEnoughRoom, 0;
    if it != end {
      var c: nat := s[it];
      it := it + 1;
      if it != end {
        var b: nat := s[it];
        if IsTail(s[it]) {
          LowBits(c);
          LowBits(b);
          c := c * 0x1000 % 0x1_0000 + b * 0x40 % 0x1000;
          it := it + 1;
          if it != end {
            b := s[it];
            if IsTail(s[it]) {
              c := c + b % 0x40;
              cp := c;
              err := Utf8Ok;
            } else {
              err := IncompleteSequence;
            }
          }
        } else {
          err := IncompleteSequence;
        }
      }
    }
  }

  method GetSequence4(s: seq<Octet>, first: nat, end: nat) returns (err: UtfError, it: nat, cp: nat)
    requires first <= end <= |s|
    ensures err == TailsVerdict(s, first, end, 4)
    ensures err == Utf8Ok ==> it == first + 3 && cp == Value(s[first..first + 4])
  {
    it, err, cp := first, NotEnoughRoom, 0;
    if it != end {
      var c: nat := s[it];
      it := it + 1;
      if it != end {
        var b: nat := s[it];
        if IsTail(s[it]) {
          LowBits(c);
          LowBits(b);
          c := c * 0x4_0000 % 0x20_0000 + b * 0x1000 % 0x4_0000;
          it := it + 1;
          if it != end {
            b := s[it];
            if IsTail(s[it]) {
              LowBits(b);
              c := c + b * 0x40 % 0x1000;
              it := it + 1;
              if it != end {
                b := s[it];
                if IsTail(s[it]) {
                  c := c + b % 0x40;
                  cp := c;
                  err := Utf8Ok;
                } else {
                  err := IncompleteSequence;
                }
              }
            } else {
              err := IncompleteSequence;
            }
          }
        } else {
          err := IncompleteSequence;
        }
      }
    }
  }

  /** What validate_next says about the octets at `it`. */
  function Verdict(s: seq<Octet>, it: nat, end: nat): UtfError
    requires it <= end <= |s| && it < |s|
  {
    var length := LengthOf(s[it]);
    if length == 0 then InvalidLead
    else
      var tails := TailsVerdict(s, it, end, length);
      if tails != Utf8Ok then tails
      else
        var cp := Value(s[it..it + length]);
        if !ValidPoint(cp) then InvalidCodePoint
        else if IsOverlong(cp, length) then OverlongSequence
        else Utf8Ok
  }

  /** The verdict is good exactly if the encoding of a valid code point stands there. */
  lemma GoodVerdict(s: seq<Octet>, it: nat, end: nat)
    requires it <= end <= |s| && it < |s|
    ensures Verdict(s, it, end) == Utf8Ok <==> exists cp :: Stands(s, it, end, cp)
    ensures Verdict(s, it, end) == Utf8Ok ==>
              LengthOf(s[it]) > 0 && it + LengthOf(s[it]) <= end
              && var t := s[it..it + LengthOf(s[it])]; Stands(s, it, end, Value(t)) && Encode(Value(t)) == t
  {
    hide Encode;
    if Verdict(s, it, end) == Utf8Ok {
      GoodIsEncoded(s, it, end);
    }
    forall cp | Stands(s, it, end, cp) {
      EncodedIsGood(s, it, end, cp);
    }
  }

  lemma GoodIsEncoded(s: seq<Octet>, it: nat, end: nat)
    requires it <= end <= |s| && it < |s| && Verdict(s, it, end) == Utf8Ok
    ensures LengthOf(s[it]) > 0 && it + LengthOf(s[it]) <= end
    ensures var t := s[it..it + LengthOf(s[it])]; Stands(s, it, end, Value(t)) && Encode(Value(t)) == t
  {
    hide Encode;
    var n := LengthOf(s[it]);
    var t := s[it..it + n];
    assert Shaped(t);
    ValueOfLongForm(t);
    ShapedIsEncode(t);
  }

  lemma ValueOfLongForm(t: seq<Octet>)
    requires Shaped(t)
    ensures |t| == 4 ==> Value(t) < 0x20_0000
    ensures |t| < 4 ==> Value(t) < 0x1_0000
  {
  }

  lemma EncodedIsGood(s: seq<Octet>, it: nat, end: nat, cp: nat)
    requires it <= end <= |s| && it < |s| && Stands(s, it, end, cp)
    ensures Verdict(s, it, end) == Utf8Ok
  {
    hide Encode, Value;
    var n := |Encode(cp)|;
    var t := s[it..it + n];
    EncodeIsShaped(cp);
    assert t[0] == s[it];
    assert forall i :: 1 <= i < n ==> t[i] == s[it + i];
  }

  method ValidateNext(s: seq<Octet>, first: nat, end: nat) returns (err: UtfError, it: nat, point: nat)
    requires first <= end <= |s| && first < |s|
    ensures err == Verdict(s, first, end)
    ensures err == Utf8Ok ==> Stands(s, first, end, point) && it == first + |Encode(point)|
    ensures err != Utf8Ok ==> it == first && point == 0
  {
    hide Encode, Value, TailsVerdict;
    it, point := first, 0;
    var cp := 0;
    var length := LengthOf(s[it]);
    if length == 0 {
      return InvalidLead, it, point;
    }
    match length {
      case 1 => err, it, cp := GetSequence1(s, it, end);
      case 2 => err, it, cp := GetSequence2(s, it, end);
      case 3 => err, it, cp := GetSequence3(s, it, end);
      case 4 => err, it, cp := GetSequence4(s, it, end);
    }
    if err == Utf8Ok {
      if ValidPoint(cp) {
        if !IsOverlong(cp, length) {
          point := cp;
          it := it + 1;
          GoodVerdict(s, first, end);
          return Utf8Ok, it, point;
        } else {
          err := OverlongSequence;
        }
      } else {
        err := InvalidCodePoint;
      }
    }
    it := first;
  }

  // Writing.

  /** The source's `static_cast<uint8_t>(x | mask)`. */
  function OrOctet(x: nat, mask: bv8): Octet {
    (((x % 0x100) as bv8) | mask) as Octet
  }

  lemma OrIsSum2(x: nat)
    requires x < 0x20
    ensures OrOctet(x, 0xC0) == 0xC0 + x
  {
  }

  lemma OrIsSum3(x: nat)
    requires x < 0x10
    ensures OrOctet(x, 0xE0) == 0xE0 + x
  {
  }

  lemma OrIsSum4(x: nat)
    requires x < 0x08
    ensures OrOctet(x, 0xF0) == 0xF0 + x
  {
  }

  lemma OrIsSumTail(x: nat)
    requires x < 0x40
    ensures OrOctet(x, 0x80) == 0x80 + x
  {
  }

  /** The octets the source's append writes for any 32-bit value. */
  function Written(cp: nat): (s: seq<Octet>)
    requires cp < 0x1_0000_0000
  {
    var x6: nat, x12: nat, x18: nat := cp / 0x40, cp / 0x1000, cp / 0x4_0000;
    if cp < 0x80 then [cp]
    else if cp < 0x800 then [OrOctet(x6, 0xC0), OrOctet(cp % 0x40, 0x80)]
    else if cp < 0x1_0000 then [OrOctet(x12, 0xE0), OrOctet(x6 % 0x40, 0x80), OrOctet(cp % 0x40, 0x80)]
    else [OrOctet(x18, 0xF0), OrOctet(x12 % 0x40, 0x80), OrOctet(x6 % 0x40, 0x80), OrOctet(cp % 0x40, 0x80)]
  }

  lemma WrittenIsEncode(cp: nat)
    requires cp <= 0x10_FFFF
    ensures Written(cp) == Encode(cp)
  {
    hide OrOctet;
    OrIsSumTail(cp % 0x40);
    OrIsSumTail(cp / 0x40 % 0x40);
    OrIsSumTail(cp / 0x1000 % 0x40);
    if cp < 0x800 {
      OrIsSum2(cp / 0x40 % 0x20);
    } else if cp < 0x1_0000 {
      OrIsSum3(cp / 0x1000);
    } else {
      OrIsSum4(cp / 0x4_0000);
    }
  }

  method Append(cp: nat, result: seq<Octet>) returns (r: Result<seq<Octet>>)
    requires cp < 0x1_0000_0000
    ensures r == if ValidPoint(cp) then Ok(result + Encode(cp)) else Thrown(InvalidPoint(cp))
  {
    hide Written, Encode;
    if !ValidPoint(cp) {
      return Thrown(InvalidPoint(cp));
    }
    WrittenIsEncode(cp);
    r := Ok(result + Written(cp));
  }

  // Reading.

  /** The exception for what is wrong at `it`; an invalid code point has not been stored when it is thrown. */
  predicate Reports(s: seq<Octet>, it: nat, end: nat, e: Exception)
    requires it <= end <= |s| && it < |s|
  {
    match Verdict(s, it, end)
    case Utf8Ok => false
    case NotEnoughRoom => e == NotEnoughRoomThrown
    case InvalidLead => e == InvalidUtf8(s[it])
    case IncompleteSequence => e == InvalidUtf8(s[it])
    case OverlongSequence => e == InvalidUtf8(s[it])
    case InvalidCodePoint => e == InvalidPoint(0)
  }

  method Next(s: seq<Octet>, first: nat, end: nat) returns (r: Result<nat>, it: nat)
    requires first <= end <= |s| && first < |s|
    ensures r.Ok? <==> exists cp :: Stands(s, first, end, cp)
    ensures r.Ok? ==> Stands(s, first, end, r.value) && it == first + |Encode(r.value)|
    ensures r.Thrown? ==> it == first && Reports(s, first, end, r.exception)
  {
    hide Encode, Verdict;
    var err, next, cp := ValidateNext(s, first, end);
    GoodVerdict(s, first, end);
    it := next;
    match err {
      case Utf8Ok => r := Ok(cp);
      case NotEnoughRoom => r := Thrown(NotEnoughRoomThrown);
      case InvalidLead => r := Thrown(InvalidUtf8(s[it]));
      case IncompleteSequence => r := Thrown(InvalidUtf8(s[it]));
      case OverlongSequence => r := Thrown(InvalidUtf8(s[it]));
      case InvalidCodePoint => r := Thrown(InvalidPoint(cp));
    }
  }

  /** The exception of the first position at which no character stands. */
  ghost predicate FirstFault(s: seq<Octet>, start: nat, end: nat, e: Exception)
    requires start <= end <= |s|
  {
    exists pos :: start <= pos < end && WellFormed8(s[start..pos]) && Reports(s, pos, end, e)
  }

  /** One more character read. */
  lemma OneMore(s: seq<Octet>, start: nat, pos: nat, end: nat, cps: seq<nat>, cp: nat)
    requires start <= pos < end <= |s| && AllValid(cps) && EncodeAll(cps) == s[start..pos] && Stands(s, pos, end, cp)
    ensures AllValid(cps + [cp]) && EncodeAll(cps + [cp]) == s[start..pos + |Encode(cp)|]
  {
    hide Encode;
    assert (cps + [cp])[..|cps|] == cps;
  }

  /** In a well-formed string reading can go on. */
  lemma CanGoOn(s: seq<Octet>, start: nat, pos: nat, end: nat, cps: seq<nat>)
    requires start <= pos < end <= |s| && AllValid(cps) && EncodeAll(cps) == s[start..pos] && WellFormed8(s[start..end])
    ensures exists cp :: Stands(s, pos, end, cp)
  {
    hide Encode, EncodeAll;
    var t := s[start..end];
    assert t[..pos - start] == s[start..pos];
    RestStands(t, cps, pos - start);
    var cp :| Stands(t, pos - start, |t|, cp);
    SliceOfSlice(s, start, end, pos - start, pos - start + |Encode(cp)|);
    assert Stands(s, pos, end, cp);
  }

  /** Reading got stuck, so nothing can be read. */
  lemma Stuck(s: seq<Octet>, start: nat, pos: nat, end: nat, cps: seq<nat>)
    requires start <= pos < end <= |s| && AllValid(cps) && EncodeAll(cps) == s[start..pos]
    requires !exists cp :: Stands(s, pos, end, cp)
    ensures !WellFormed8(s[start..end])
  {
    if WellFormed8(s[start..end]) {
      CanGoOn(s, start, pos, end, cps);
    }
  }

  /** Where the first character that is not well-formed starts. */
  method FindInvalid(s: seq<Octet>, start: nat, end: nat) returns (result: nat)
    requires start <= end <= |s|
    ensures start <= result <= end && WellFormed8(s[start..result])
    ensures result < end ==> !WellFormed8(s[start..end]) && !exists cp :: Stands(s, result, end, cp)
  {
    hide Encode, EncodeAll, Verdict;
    result := start;
    ghost var cps: seq<nat> := [];
    NothingRead();
    while result != end
      invariant start <= result <= end && AllValid(cps) && EncodeAll(cps) == s[start..result]
      decreases end - result
    {
      var err, it, cp := ValidateNext(s, result, end);
      GoodVerdict(s, result, end);
      if err != Utf8Ok {
        Stuck(s, start, result, end, cps);
        return;
      }
      OneMore(s, start, result, end, cps, cp);
      result, cps := it, cps + [cp];
    }
  }

  lemma NothingRead()
    ensures EncodeAll([]) == [] && EncodeAll16([]) == []
  {
  }

  method IsValid(s: seq<Octet>, start: nat, end: nat) returns (ok: bool)
    requires start <= end <= |s|
    ensures ok <==> WellFormed8(s[start..end])
  {
    var invalid := FindInvalid(s, start, end);
    ok := invalid == end;
  }

  /** Counts the characters, or throws. */
  method Distance(s: seq<Octet>, start: nat, end: nat) returns (r: Result<nat>)
    requires start <= end <= |s|
    ensures r.Ok? <==> WellFormed8(s[start..end])
    ensures r.Ok? ==> r.value == |Points8(s[start..end])|
    ensures r.Thrown? ==> FirstFault(s, start, end, r.exception)
  {
    hide Encode, EncodeAll, Reports;
    var first, dist := start, 0;
    ghost var cps: seq<nat> := [];
    NothingRead();
    while first < end
      invariant start <= first <= end && dist == |cps| && AllValid(cps) && EncodeAll(cps) == s[start..first]
    {
      var cp, it := Next(s, first, end);
      if cp.Thrown? {
        Stuck(s, start, first, end, cps);
        return Thrown(cp.exception);
      }
      OneMore(s, start, first, end, cps, cp.value);
      cps := cps + [cp.value];
      first, dist := it, dist + 1;
    }
    PointsOfEncoded(cps);
    r := Ok(dist);
  }

  method Utf8To32(s: seq<Octet>, start: nat, end: nat) returns (r: Result<seq<nat>>)
    requires start <= end <= |s|
    ensures r.Ok? <==> WellFormed8(s[start..end])
    ensures r.Ok? ==> r.value == Points8(s[start..end])
    ensures r.Thrown? ==> FirstFault(s, start, end, r.exception)
  {
    hide Encode, EncodeAll, Reports;
    var pos, out: seq<nat> := start, [];
    NothingRead();
    while pos != end
      invariant start <= pos <= end && AllValid(out) && EncodeAll(out) == s[start..pos]
      decreases end - pos
    {
      var cp, it := Next(s, pos, end);
      if cp.Thrown? {
        Stuck(s, start, pos, end, out);
        return Thrown(cp.exception);
      }
      OneMore(s, start, pos, end, out, cp.value);
      out := out + [cp.value];
      pos := it;
    }
    PointsOfEncoded(out);
    r := Ok(out);
  }

  method Utf32To8(cps: seq<nat>) returns (r: Result<seq<Octet>>)
    requires forall i :: 0 <= i < |cps| ==> cps[i] < 0x1_0000_0000
    ensures r.Ok? <==> AllValid(cps)
    ensures r.Ok? ==> r.value == EncodeAll(cps)
    ensures r.Thrown? ==>
              exists i :: 0 <= i < |cps| && AllValid(cps[..i]) && !ValidPoint(cps[i])
                          && r.exception == InvalidPoint(cps[i])
  {
    hide Encode;
    var out: seq<Octet> := [];
    for i := 0 to |cps|
      invariant AllValid(cps[..i]) && out == EncodeAll(cps[..i])
    {
      var next := Append(cps[i], out);
      if next.Thrown? {
        return Thrown(next.exception);
      }
      assert cps[..i + 1][..i] == cps[..i];
      out := next.value;
    }
    assert cps[..|cps|] == cps;
    r := Ok(out);
  }

  // UTF-16, with the source's 32-bit constants.

  const LEAD_OFFSET: nat := 0xD800 - 0x1_0000 / 0x400
  const SURROGATE_OFFSET: nat := (0x1_0000 - 0xD800 * 0x400 - 0xDC00) % 0x1_0000_0000

  /** The wrap-around sum of the source is the combination of RFC 2781. */
  lemma OffsetCombines(lead: nat, trail: nat)
    requires IsLeadSurrogate(lead) && IsTrailSurrogate(trail)
    ensures (lead * 0x400 % 0x1_0000_0000 + trail + SURROGATE_OFFSET) % 0x1_0000_0000 == Combined(lead, trail)
  {
  }

  /** The two words the source makes of a code point above U+FFFF, each cut to 16 bits. */
  function SplitPair(cp: nat): (w: seq<Word16>)
    ensures |w| == 2
  {
    var high: nat, low: nat := (cp / 0x400 + LEAD_OFFSET) % 0x1_0000, (cp % 0x400 + 0xDC00) % 0x1_0000;
    [high, low]
  }

  lemma SplitPairIsEncode16(cp: nat)
    requires 0x1_0000 <= cp <= 0x10_FFFF
    ensures SplitPair(cp) == Encode16(cp)
  {
  }

  method Utf8To16(s: seq<Octet>, start: nat, end: nat) returns (r: Result<seq<Word16>>)
    requires start <= end <= |s|
    ensures r.Ok? <==> WellFormed8(s[start..end])
    ensures r.Ok? ==> r.value == To16(s[start..end])
    ensures r.Thrown? ==> FirstFault(s, start, end, r.exception)
  {
    hide Encode, EncodeAll, Encode16, EncodeAll16, SplitPair, Reports;
    var pos := start;
    var out: seq<Word16> := [];
    ghost var cps: seq<nat> := [];
    NothingRead();
    while pos != end
      invariant start <= pos <= end && AllValid(cps) && EncodeAll(cps) == s[start..pos]
      invariant out == EncodeAll16(cps)
      decreases end - pos
    {
      var cp, it := Next(s, pos, end);
      if cp.Thrown? {
        Stuck(s, start, pos, end, cps);
        return Thrown(cp.exception);
      }
      OneMore(s, start, pos, end, cps, cp.value);
      OneMore16(cps, cp.value);
      if cp.value > 0xFFFF {
        SplitPairIsEncode16(cp.value);
        out := out + SplitPair(cp.value);
      } else {
        out := out + [cp.value];
      }
      cps := cps + [cp.value];
      pos := it;
    }
    PointsOfEncoded(cps);
    r := Ok(out);
  }

  lemma OneMore16(cps: seq<nat>, cp: nat)
    requires AllValid(cps) && ValidPoint(cp)
    ensures EncodeAll16(cps + [cp]) == EncodeAll16(cps) + Encode16(cp)
    ensures EncodeAll(cps + [cp]) == EncodeAll(cps) + Encode(cp)
    ensures cp <= 0xFFFF ==> Encode16(cp) == [cp]
  {
    hide Encode;
    assert (cps + [cp])[..|cps|] == cps;
  }

  /** The exception of the first word that is neither part of a pair nor a valid code point. */
  function Fault16(w: seq<Word16>): Exception
    requires !WellFormed16(w)
  {
    if IsLeadSurrogate(w[0]) then
      if |w| == 1 then InvalidUtf16(w[0])
      else if IsTrailSurrogate(w[1]) then Fault16(w[2..])
      else InvalidUtf16(w[1])
    else if IsTrailSurrogate(w[0]) then InvalidUtf16(w[0])
    else if ValidPoint(w[0]) then Fault16(w[1..])
    else InvalidPoint(w[0])
  }

  /** Reading UTF-16 does not depend on what came before. */
  lemma {:induction false} AfterEncoded16(done: seq<nat>, tail: seq<Word16>)
    requires AllValid(done)
    ensures WellFormed16(EncodeAll16(done) + tail) <==> WellFormed16(tail)
    ensures WellFormed16(tail) ==> Points16(EncodeAll16(done) + tail) == done + Points16(tail)
    ensures !WellFormed16(tail) ==> Fault16(EncodeAll16(done) + tail) == Fault16(tail)
  {
    hide Encode16, WellFormed16, Points16, Fault16;
    if done == [] {
      assert EncodeAll16(done) + tail == tail;
    } else {
      hide EncodeAll16;
      var e, rest := Encode16(done[0]), EncodeAll16(done[1..]) + tail;
      EncodeAll16Front(done);
      assert EncodeAll16(done) + tail == e + rest;
      AfterEncoded16(done[1..], tail);
      assert (e + rest)[|e|..] == rest && (e + rest)[..|e|] == e;
      FirstOf16(e + rest, done[0]);
      assert done == [done[0]] + done[1..];
    }
  }

  lemma WellFormed16Rest(w: seq<Word16>, done: seq<nat>, pos: nat)
    requires AllValid(done) && pos <= |w| && w[..pos] == EncodeAll16(done)
    ensures WellFormed16(w) <==> WellFormed16(w[pos..])
    ensures WellFormed16(w) ==> Points16(w) == done + Points16(w[pos..])
    ensures !WellFormed16(w) ==> Fault16(w) == Fault16(w[pos..])
  {
    hide Encode16, EncodeAll16, WellFormed16, Points16, Fault16, ValidPoint;
    assert w == w[..pos] + w[pos..];
    AfterEncoded16(done, w[pos..]);
  }

  lemma FirstOf16(w: seq<Word16>, cp: nat)
    requires ValidPoint(cp) && |Encode16(cp)| <= |w| && w[..|Encode16(cp)|] == Encode16(cp)
    ensures WellFormed16(w) <==> WellFormed16(w[|Encode16(cp)|..])
    ensures WellFormed16(w) ==> Points16(w) == [cp] + Points16(w[|Encode16(cp)|..])
    ensures !WellFormed16(w) ==> Fault16(w) == Fault16(w[|Encode16(cp)|..])
  {
    var e := Encode16(cp);
    assert w[0] == e[0];
    if cp >= 0x1_0000 {
      EncodedPair(cp);
      assert w[1] == e[1];
    }
  }

  method Utf16To8(w: seq<Word16>) returns (r: Result<seq<Octet>>)
    ensures r.Ok? <==> WellFormed16(w)
    ensures r.Ok? ==> r.value == To8(w)
    ensures r.Thrown? ==> r.exception == Fault16(w)
  {
    hide Encode, EncodeAll, Encode16, EncodeAll16, Combined;
    var pos := 0;
    var out: seq<Octet> := [];
    ghost var cps: seq<nat> := [];
    NothingRead();
    while pos != |w|
      invariant 0 <= pos <= |w| && AllValid(cps) && EncodeAll16(cps) == w[..pos] && out == EncodeAll(cps)
      decreases |w| - pos
    {
      WellFormed16Rest(w, cps, pos);
      var cp: nat := w[pos];
      ghost var before := pos;
      pos := pos + 1;
      if IsLeadSurrogate(cp) {
        if pos != |w| {
          var trail: nat := w[pos];
          pos := pos + 1;
          if IsTrailSurrogate(trail) {
            OffsetCombines(cp, trail);
            PairRoundTrip(cp, trail);
            cp := (cp * 0x400 % 0x1_0000_0000 + trail + SURROGATE_OFFSET) % 0x1_0000_0000;
          } else {
            return Thrown(InvalidUtf16(w[pos - 1]));
          }
        } else {
          return Thrown(InvalidUtf16(w[pos - 1]));
        }
      } else if IsTrailSurrogate(cp) {
        return Thrown(InvalidUtf16(w[pos - 1]));
      } else {
        SmallEncode16(cp);
      }
      assert ValidPoint(cp) ==> w[before..pos] == Encode16(cp);
      var next := Append(cp, out);
      if next.Thrown? {
        return Thrown(next.exception);
      }
      OneMore16(cps, cp);
      assert w[..pos] == w[..before] + w[before..pos];
      out, cps := next.value, cps + [cp];
    }
    assert w[..pos] == w;
    PointsOfEncoded16(cps);
    r := Ok(out);
  }

  lemma SmallEncode16(cp: nat)
    requires cp < 0x1_0000
    ensures Encode16(cp) == [cp]
  {
  }

  // Stepping back.

  /** Some octet of s[start..it] is not a tail octet. */
  ghost predicate HasLead(s: seq<Octet>, start: nat, it: nat)
    requires it <= |s|
  {
    exists k :: start <= k < it && !IsTail(s[k])
  }

  /**
   * The source steps back while it sees tail octets and looks for the lower bound only after
   * it has passed it.  When nothing but tail octets lie in the range, it therefore reads the octet before
   * the range, which has to be readable, and throws only if that is a tail octet too.
   */
  method Prior(s: seq<Octet>, it: nat, start: nat) returns (r: Result<nat>, pos: nat)
    requires start <= it <= |s| && (HasLead(s, start, it) || start > 0)
    ensures start <= pos <==> HasLead(s, start, it)
    ensures pos < it && start <= pos + 1 && forall k :: pos < k < it ==> IsTail(s[k])
    ensures IsTail(s[pos]) ==> pos + 1 == start && r == Thrown(InvalidUtf8(s[pos]))
    ensures !IsTail(s[pos]) ==> (r.Ok? <==> exists cp :: Stands(s, pos, it, cp))
    ensures !IsTail(s[pos]) && r.Ok? ==> Stands(s, pos, it, r.value)
    ensures !IsTail(s[pos]) && r.Thrown? ==> Reports(s, pos, it, r.exception)
  {
    hide Encode, Verdict;
    pos := it;
    pos := pos - 1;
    while IsTail(s[pos])
      invariant pos < it && start <= pos + 1
      invariant forall k :: pos < k < it ==> IsTail(s[k])
      invariant HasLead(s, start, it) ==> start <= pos
      invariant start <= pos || HasLead(s, start, it) || start > 0
      decreases pos
    {
      if pos < start {
        return Thrown(InvalidUtf8(s[pos])), pos;
      }
      pos := pos - 1;
    }
    var temp;
    r, temp := Next(s, pos, it);
  }

  /** In a well-formed string, stepping back from its end finds its last character. */
  lemma LastCharacter(s: seq<Octet>, start: nat, it: nat, pos: nat)
    requires start < it <= |s| && WellFormed8(s[start..it])
    requires start <= pos < it && !IsTail(s[pos]) && forall k :: pos < k < it ==> IsTail(s[k])
    ensures var cps := Points8(s[start..it]);
            && cps != [] && pos == it - |Encode(cps[|cps| - 1])|
            && Stands(s, pos, it, cps[|cps| - 1])
            && s[start..pos] == EncodeAll(cps[..|cps| - 1])
  {
    hide Encode, Shaped, Value;
    var t := s[start..it];
    var cps := Points8(t);
    var last := cps[|cps| - 1];
    EncodeIsShaped(last);
    var n := |Encode(last)|;
    var b := it - n;
    assert t == EncodeAll(cps[..|cps| - 1]) + Encode(last);
    SliceOfSlice(s, start, it, |t| - n, |t|);
    SliceOfSlice(s, start, it, 0, |t| - n);
    var e := s[b..it];
    assert e == Encode(last);
    ShapedOctets(e);
    assert s[b] == e[0];
    assert forall k :: b < k < it ==> s[k] == e[k - b];
  }

  lemma ShapedOctets(e: seq<Octet>)
    requires Shaped(e)
    ensures !IsTail(e[0]) && forall i :: 1 <= i < |e| ==> IsTail(e[i])
  {
  }

  lemma WellFormedHasLead(s: seq<Octet>, start: nat, it: nat)
    requires start < it <= |s| && WellFormed8(s[start..it])
    ensures HasLead(s, start, it)
  {
    hide Encode, Shaped;
    var t := s[start..it];
    var cps := Points8(t);
    EncodeAllFront(cps);
    EncodeIsShaped(cps[0]);
    assert t[0] == Encode(cps[0])[0];
    assert !IsTail(s[start]);
  }

  /** On valid UTF-8, prior returns the previous boundary and the character there. */
  method PriorOfValid(s: seq<Octet>, it: nat, start: nat) returns (cp: nat, pos: nat)
    requires start < it <= |s| && WellFormed8(s[start..it])
    ensures start <= pos < it && AllValid(Points8(s[start..it])[..|Points8(s[start..it])| - 1])
    ensures var cps := Points8(s[start..it]);
            && cps != [] && cp == cps[|cps| - 1] && pos == it - |Encode(cp)|
            && s[start..pos] == EncodeAll(cps[..|cps| - 1])
  {
    hide Encode, EncodeAll;
    WellFormedHasLead(s, start, it);
    var r, p := Prior(s, it, start);
    pos := p;
    LastCharacter(s, start, it, pos);
    cp := r.value;
    ghost var cps := Points8(s[start..it]);
    StandsOnce(s, pos, it, it, cp, cps[|cps| - 1]);
  }
}
