/** shared/Encryption/ByteBuffer.h: a growable byte array with separate read and write positions. */
module ByteBuffers {
  import opened Bytes
  import opened Fips46
  import opened DesBits
  import opened Division
  import opened Serial

  /** The size at which append's ASSERT ends the process. */
  const LIMIT: nat := 10_000_000

  /** s with zeros added up to n bytes, if it is shorter. */
  function Extended(s: seq<Byte>, n: nat): (r: seq<Byte>)
    ensures |r| == if |s| < n then n else |s|
  {
    if |s| < n then s + Zeros(n - |s|) else s
  }

  /** s after src has been copied to position at; a gap before it is filled with zeros. */
  function Overwrite(s: seq<Byte>, at: nat, src: seq<Byte>): (r: seq<Byte>)
    ensures |r| == if src == [] || at + |src| < |s| then |s| else at + |src|
  {
    if src == [] then s
    else
      var base := Extended(s, at + |src|);
      base[..at] + src + base[at + |src|..]
  }

  lemma OverwriteAt(s: seq<Byte>, at: nat, src: seq<Byte>, k: nat)
    requires src != [] && k < |Overwrite(s, at, src)|
    ensures Overwrite(s, at, src)[k] == if at <= k < at + |src| then src[k - at] else if k < |s| then s[k] else 0
  {
  }

  /** Writing twice in a row is writing the concatenation once. */
  lemma OverwriteTwice(s: seq<Byte>, at: nat, a: seq<Byte>, b: seq<Byte>)
    ensures Overwrite(Overwrite(s, at, a), at + |a|, b) == Overwrite(s, at, a + b)
  {
    hide Extended;
    if a == [] {
      assert a + b == b;
    } else if b == [] {
      assert a + b == a;
    } else {
      hide Overwrite;
      var once, twice := Overwrite(s, at, a + b), Overwrite(Overwrite(s, at, a), at + |a|, b);
      forall k | 0 <= k < |once|
        ensures once[k] == twice[k]
      {
        OverwriteAt(s, at, a + b, k);
        OverwriteAt(Overwrite(s, at, a), at + |a|, b, k);
        if k < |Overwrite(s, at, a)| {
          OverwriteAt(s, at, a, k);
        }
      }
    }
  }

  lemma OverwriteEnd(s: seq<Byte>, src: seq<Byte>)
    ensures Overwrite(s, |s|, src) == s + src
  {
  }

  // Single bits.

  function Pow2(n: nat): (p: nat)
    ensures 1 <= p
  {
    if n == 0 then 1 else 2 * Pow2(n - 1)
  }

  /** The count lowest bits of value, the highest of them first. */
  function ValueBits(value: nat, count: nat): (b: seq<bool>)
    ensures |b| == count
  {
    seq(count, i requires 0 <= i < count => value / Pow2(count - i - 1) % 2 == 1)
  }

  function FromBits(b: seq<bool>): nat {
    if b == [] then 0 else 2 * FromBits(b[..|b| - 1]) + (if b[|b| - 1] then 1 else 0)
  }

  /** Read as a binary number the written bits are the value modulo 2^count. */
  lemma {:induction false} BitsHoldValue(value: nat, count: nat)
    ensures FromBits(ValueBits(value, count)) == value % Pow2(count)
  {
    hide ValueBits, Pow2;
    FrontBits(value, count);
    if count == 0 {
      assert Pow2(0) == 1 by {
        NoShift();
      }
    } else {
      BitsHoldValue(value / 2, count - 1);
      Doubling(count - 1);
      Halves(value, Pow2(count - 1));
    }
  }

  lemma NoShift()
    ensures Pow2(0) == 1
  {
  }

  lemma Doubling(n: nat)
    ensures Pow2(n + 1) == 2 * Pow2(n)
  {
  }

  /** The last bit written is the lowest one; those before it are the bits of half the value. */
  lemma FrontBits(value: nat, count: nat)
    ensures count == 0 ==> ValueBits(value, count) == []
    ensures count > 0 ==>
              && ValueBits(value, count)[..count - 1] == ValueBits(value / 2, count - 1)
              && ValueBits(value, count)[count - 1] == (value % 2 == 1)
  {
    if count > 0 {
      var b, front := ValueBits(value, count), ValueBits(value / 2, count - 1);
      forall i | 0 <= i < count - 1
        ensures b[i] == front[i]
      {
        HalfThenShift(value, Pow2(count - i - 2));
        Doubling(count - i - 2);
      }
      NoShift();
    }
  }

  lemma HalfThenShift(value: nat, p: nat)
    requires 1 <= p
    ensures value / (2 * p) == value / 2 / p
  {
    var q := value / 2;
    var a, b := q / p, q % p;
    assert q == p * a + b && value == 2 * q + value % 2;
    assert 2 * (p * a) == (2 * p) * a;
    assert value == (2 * p) * a + (2 * b + value % 2);
    RemainderOf(2 * p, a, 2 * b + value % 2);
    QuotientOf(2 * p, a, 2 * b + value % 2);
  }

  lemma Halves(value: nat, p: nat)
    requires 1 <= p
    ensures value % (2 * p) == 2 * (value / 2 % p) + value % 2
  {
    var q := value / 2;
    var a, b := q / p, q % p;
    assert q == p * a + b && value == 2 * q + value % 2;
    assert 2 * (p * a) == (2 * p) * a;
    RemainderOf(2 * p, a, 2 * b + value % 2);
  }

  function And8(a: bv8, b: bv8): bv8 { a & b }

  function Not8(a: bv8): bv8 { !a }

  lemma ClearAtMask(a: bv8, b: bv8, m: bv8)
    requires m == 0x80 || m == 0x40 || m == 0x20 || m == 0x10 || m == 8 || m == 4 || m == 2 || m == 1
    ensures ((a & !b) & m != 0) == (a & m != 0 && b & m == 0)
  {
  }

  lemma BitOfClear(a: bv8, b: bv8, k: nat)
    requires k < 8
    ensures Bit(And8(a, Not8(b)), k) == (Bit(a, k) && !Bit(b, k))
  {
    ClearAtMask(a, b, ByteBit(k));
  }

  /** Setting or clearing one bit of one byte changes that bit of the bit string and no other. */
  lemma OneBit(row: seq<bv8>, k: nat, on: bool)
    requires k < 8 * |row|
    ensures var b := if on then Or8(row[k / 8], ByteBit(k % 8)) else And8(row[k / 8], Not8(ByteBit(k % 8)));
            BitsOf(row[k / 8 := b]) == BitsOf(row)[k := on]
  {
    hide Bit, ByteBit, Or8, And8, Not8;
    var b := if on then Or8(row[k / 8], ByteBit(k % 8)) else And8(row[k / 8], Not8(ByteBit(k % 8)));
    var row' := row[k / 8 := b];
    forall i, m | 0 <= i < |row'| && 0 <= m < 8
      ensures Bit(row'[i], m) == BitsOf(row)[k := on][8 * i + m]
    {
      BitOfOr(row[i], ByteBit(k % 8), m);
      BitOfClear(row[i], ByteBit(k % 8), m);
      BitOfMask(k % 8, m);
      BitsAt(row, i, m);
    }
    SameBits(row', BitsOf(row)[k := on]);
  }

  function AsBitVectors(s: seq<Byte>): (r: seq<bv8>)
    ensures |r| == |s|
  {
    seq(|s|, i requires 0 <= i < |s| => s[i] as bv8)
  }

  lemma UpdatedBitVectors(s: seq<Byte>, i: nat, b: Byte)
    requires i < |s|
    ensures AsBitVectors(s[i := b]) == AsBitVectors(s)[i := b as bv8] && AsBitVectors(s)[i] == s[i] as bv8
  {
  }

  /** The bits of a buffer, the highest of each byte first. */
  function BufferBits(s: seq<Byte>): (b: seq<bool>)
    ensures |b| == 8 * |s|
  {
    BitsOf(AsBitVectors(s))
  }

  /** What `|=` with the mask of a bit, or `&=` with its complement, makes of a byte. */
  function WithBit(b: Byte, k: nat, on: bool): Byte
    requires k < 8
  {
    (if on then Or8(b as bv8, ByteBit(k)) else And8(b as bv8, Not8(ByteBit(k)))) as int
  }

  lemma BothForms(b: Byte, k: nat, on: bool)
    requires k < 8
    ensures WithBit(b, k, on) as bv8 == if on then Or8(b as bv8, ByteBit(k)) else And8(b as bv8, Not8(ByteBit(k)))
  {
    hide Or8, And8, Not8, ByteBit;
  }

  lemma OneBufferBit(s: seq<Byte>, k: nat, on: bool)
    requires k < 8 * |s|
    ensures BufferBits(s[k / 8 := WithBit(s[k / 8], k % 8, on)]) == BufferBits(s)[k := on]
  {
    hide AsBitVectors, BitsOf, Or8, And8, Not8, ByteBit, WithBit;
    BothForms(s[k / 8], k % 8, on);
    UpdatedBitVectors(s, k / 8, WithBit(s[k / 8], k % 8, on));
    OneBit(AsBitVectors(s), k, on);
  }

  /** bits with part copied to position at. */
  function Patched(bits: seq<bool>, at: nat, part: seq<bool>): (r: seq<bool>)
    requires at + |part| <= |bits|
    ensures |r| == |bits|
  {
    bits[..at] + part + bits[at + |part|..]
  }

  lemma NoPatch(bits: seq<bool>, at: nat, part: seq<bool>)
    requires at + |part| <= |bits|
    ensures Patched(bits, at, part[..0]) == bits
  {
  }

  lemma PatchOneMore(bits: seq<bool>, at: nat, part: seq<bool>, i: nat)
    requires i < |part| && at + |part| <= |bits|
    ensures Patched(bits, at, part[..i])[at + i := part[i]] == Patched(bits, at, part[..i + 1])
  {
  }

  /** What writing bytes at position at of s has led to: all of them are there, or an ASSERT failed on a full buffer. */
  predicate Wrote(s: seq<Byte>, at: nat, ok: bool, bytes: seq<Byte>, s': seq<Byte>, at': nat) {
    if ok then s' == Overwrite(s, at, bytes) && at' == at + |bytes|
    else bytes != [] && LIMIT <= |s'| && (|s'| == |s| || |s'| < at + |bytes|)
  }

  /** Two writes in a row are one write of the concatenation. */
  lemma WroteNext(s: seq<Byte>, at: nat, a: seq<Byte>, mid: seq<Byte>, between: nat, ok: bool, b: seq<Byte>,
                  s': seq<Byte>, at': nat)
    requires Wrote(s, at, true, a, mid, between) && Wrote(mid, between, ok, b, s', at')
    ensures Wrote(s, at, ok, a + b, s', at')
  {
    hide Extended;
    OverwriteTwice(s, at, a, b);
  }

  lemma NothingWritten(s: seq<Byte>, at: nat)
    ensures Wrote(s, at, true, [], s, at)
  {
  }

  lemma NulByte()
    ensures LittleEndian(0, 1) == [0]
  {
  }

  lemma CountBytes(n: nat)
    ensures Count(n) == LittleEndian(n % 0x1_0000_0000, 4)
  {
  }

  /** A failed write stays a failed write of anything longer. */
  lemma WroteLess(s: seq<Byte>, at: nat, a: seq<Byte>, more: seq<Byte>, s': seq<Byte>, at': nat)
    requires Wrote(s, at, false, a, s', at') && a <= more
    ensures Wrote(s, at, false, more, s', at')
  {
  }

  lemma {:induction false} ItemsPrefix(items: seq<Val>, i: nat, n: nat, ty: Ty)
    requires ty.Vec? && AllHave(items, ty.elem) && i <= n <= |items|
    ensures EncodeItems(items, i, ty) <= EncodeItems(items, n, ty)
  {
    hide Encode, Has;
    if i < n {
      ItemsPrefix(items, i, n - 1, ty);
    }
  }

  lemma {:induction false} EntriesPrefix(entries: seq<Entry>, i: nat, n: nat, ty: Ty)
    requires ty.Map? && EntriesHave(entries, ty.key, ty.mapped) && i <= n <= |entries|
    ensures EncodeEntries(entries, i, ty) <= EncodeEntries(entries, n, ty)
  {
    hide Encode, Has;
    if i < n {
      EntriesPrefix(entries, i, n - 1, ty);
    }
  }

  lemma EntriesOneMore(head: seq<Byte>, entries: seq<Entry>, i: nat, ty: Ty)
    requires ty.Map? && EntriesHave(entries, ty.key, ty.mapped) && i < |entries|
    ensures head + EncodeEntries(entries, i, ty)
            + (Encode(entries[i].key, ty.key) + Encode(entries[i].mapped, ty.mapped))
         == head + EncodeEntries(entries, i + 1, ty)
  {
    hide Encode, Has;
  }

  // Bits left pending are written before the first scalar, so behind the characters of a string and before its NUL.

  function Flushed(pending: seq<Byte>, v: Val, ty: Ty): seq<Byte>
    requires Has(v, ty)
  {
    if ty.Str? then v.chars + pending + [0] else pending + Encode(v, ty)
  }

  lemma FlushedAlready(v: Val, ty: Ty)
    requires Has(v, ty)
    ensures Flushed([], v, ty) == Encode(v, ty)
  {
    assert ty.Str? ==> v.chars + [] == v.chars;
  }

  /** The first n fields of a message, with pending bits in front. */
  function FlushedFields(pending: seq<Byte>, fields: seq<Field>, n: nat): seq<Byte>
    requires WellTyped(fields) && n <= |fields|
  {
    if n == 0 then []
    else
      FlushedFields(pending, fields, n - 1)
      + Flushed(if n == 1 then pending else [], fields[n - 1].value, fields[n - 1].ty)
  }

  lemma NoFields(pending: seq<Byte>, fields: seq<Field>)
    requires WellTyped(fields)
    ensures FlushedFields(pending, fields, 0) == []
  {
  }

  lemma OneMoreField(pending: seq<Byte>, fields: seq<Field>, n: nat)
    requires WellTyped(fields) && n < |fields|
    ensures FlushedFields(pending, fields, n + 1)
         == FlushedFields(pending, fields, n) + Flushed(if n == 0 then pending else [], fields[n].value, fields[n].ty)
  {
    hide Flushed, Has;
  }

  lemma {:induction false} FieldsFlushedAlready(fields: seq<Field>, n: nat)
    requires WellTyped(fields) && n <= |fields|
    ensures FlushedFields([], fields, n) == EncodeFields(fields, n)
  {
    hide Flushed, Encode, Has;
    if n > 0 {
      FieldsFlushedAlready(fields, n - 1);
      FlushedAlready(fields[n - 1].value, fields[n - 1].ty);
    }
  }

  lemma {:induction false} FieldsPrefix(pending: seq<Byte>, fields: seq<Field>, i: nat, n: nat)
    requires WellTyped(fields) && i <= n <= |fields|
    ensures FlushedFields(pending, fields, i) <= FlushedFields(pending, fields, n)
  {
    hide Flushed, Has;
    if i < n {
      FieldsPrefix(pending, fields, i, n - 1);
    }
  }

  lemma PrefixAfter(head: seq<Byte>, a: seq<Byte>, b: seq<Byte>)
    requires a <= b
    ensures head + a <= head + b
  {
  }

  datatype Status = Done | PositionError | SourceError

  class ByteBuffer {
    var rpos: nat
    var wpos: nat
    var bitpos: nat
    var curbitval: Byte
    var storage: seq<Byte>

    /** The reserved capacity is not part of the state. */
    constructor (reserve: nat)
      ensures rpos == 0 && wpos == 0 && Aligned() && storage == []
    {
      rpos, wpos, bitpos, curbitval, storage := 0, 0, 8, 0, [];
    }

    /** No pending bits. No method leaves any. */
    predicate Aligned()
      reads this`bitpos
    {
      bitpos == 8
    }

    method Clear()
      modifies this
      ensures storage == [] && rpos == 0 && wpos == 0 && bitpos == old(bitpos) && curbitval == old(curbitval)
    {
      storage, rpos, wpos := [], 0, 0;
    }

    method Resize(newsize: nat)
      modifies this
      ensures storage == Extended(old(storage), newsize)[..newsize] && rpos == 0 && wpos == newsize
      ensures bitpos == old(bitpos) && curbitval == old(curbitval)
    {
      storage := Extended(storage, newsize)[..newsize];
      rpos, wpos := 0, |storage|;
    }

    /** append(src, cnt). False stands for the failed ASSERT. */
    method Append(src: seq<Byte>) returns (ok: bool)
      modifies this`storage, this`wpos
      ensures ok <==> src == [] || |old(storage)| < LIMIT
      ensures ok ==> storage == Overwrite(old(storage), old(wpos), src) && wpos == old(wpos) + |src|
      ensures !ok ==> storage == old(storage) && wpos == old(wpos)
    {
      if |src| == 0 {
        return true;
      }
      if |storage| >= 10_000_000 {
        return false;
      }
      if |storage| < wpos + |src| {
        storage := storage + Zeros(wpos + |src| - |storage|);
      }
      storage := storage[..wpos] + src + storage[wpos + |src|..];
      wpos := wpos + |src|;
      ok := true;
    }

    /** The byte of bits that have not been written yet; only the constructor from a message buffer can leave one. */
    function Pending(): seq<Byte>
      reads this`bitpos, this`curbitval
    {
      if bitpos == 8 then [] else [curbitval]
    }

    method FlushBits() returns (ok: bool)
      modifies this`storage, this`wpos, this`bitpos, this`curbitval
      ensures ok <==> old(Aligned()) || |old(storage)| < LIMIT
      ensures old(Aligned()) ==> curbitval == old(curbitval)
      ensures ok ==> Aligned() && (!old(Aligned()) ==> curbitval == 0)
      ensures Wrote(old(storage), old(wpos), ok, old(Pending()), storage, wpos)
      ensures !ok ==> storage == old(storage) && wpos == old(wpos) && bitpos == old(bitpos)
    {
      if bitpos == 8 {
        return true;
      }
      ok := Append([curbitval]);
      if ok {
        curbitval, bitpos := 0, 8;
      }
    }

    /** append<T> of a scalar on a little-endian host: pending bits, then the bytes of the value. */
    method AppendScalar(value: nat, size: nat) returns (ok: bool)
      requires 1 <= size
      modifies this`storage, this`wpos, this`bitpos, this`curbitval
      ensures ok ==> Aligned()
      ensures old(Aligned()) ==> Aligned() && (ok <==> |old(storage)| < LIMIT)
      ensures Wrote(old(storage), old(wpos), ok, old(Pending()) + LittleEndian(value, size), storage, wpos)
    {
      hide LittleEndian, Overwrite, Extended;
      ghost var pending, bytes := Pending(), LittleEndian(value, size);
      ok := FlushBits();
      if ok {
        ghost var mid, at := storage, wpos;
        ok := Append(LittleEndian(value, size));
        WroteNext(old(storage), old(wpos), pending, mid, at, ok, bytes, storage, wpos);
      } else {
        WroteLess(old(storage), old(wpos), pending, pending + bytes, storage, wpos);
      }
    }

    /** put(pos, src, cnt) from a source that is not null. */
    method Put(pos: nat, src: seq<Byte>) returns (r: Status)
      modifies this`storage
      ensures r == if pos + |src| > |old(storage)| then PositionError else Done
      ensures r.Done? ==> storage == old(storage)[..pos] + src + old(storage)[pos + |src|..]
      ensures !r.Done? ==> storage == old(storage)
    {
      if pos + |src| > |storage| {
        return PositionError;
      }
      storage := storage[..pos] + src + storage[pos + |src|..];
      r := Done;
    }

    /** PutBits<T>: value is the bit pattern of the promoted value, 32 or 64 bits wide. */
    method PutBits(pos: nat, value: nat, bitCount: nat, ghost width: nat) returns (r: Status)
      requires (width == 32 || width == 64) && value < Pow2(width) && bitCount <= width
      modifies this`storage
      ensures r == if bitCount == 0 then SourceError
                   else if pos + bitCount > 8 * |old(storage)| then PositionError
                   else Done
      ensures !r.Done? ==> storage == old(storage)
      ensures r.Done? ==>
                && |storage| == |old(storage)|
                && BufferBits(storage) == Patched(BufferBits(old(storage)), pos, ValueBits(value, bitCount))
    {
      hide Pow2, BufferBits, WithBit, Patched;
      if bitCount == 0 {
        return SourceError;
      }
      if pos + bitCount > |storage| * 8 {
        return PositionError;
      }
      ghost var bits, part := BufferBits(storage), ValueBits(value, bitCount);
      NoPatch(bits, pos, part);
      var i := 0;
      while i < bitCount
        invariant 0 <= i <= bitCount && |storage| == |old(storage)|
        invariant BufferBits(storage) == Patched(bits, pos, part[..i])
      {
        var wp, bit := (pos + i) / 8, (pos + i) % 8;
        OneBufferBit(storage, pos + i, part[i]);
        PatchOneMore(bits, pos, part, i);
        if value / Pow2(bitCount - i - 1) % 2 == 1 {
          storage := storage[wp := WithBit(storage[wp], bit, true)];
        } else {
          storage := storage[wp := WithBit(storage[wp], bit, false)];
        }
        i := i + 1;
      }
      assert part[..bitCount] == part;
      r := Done;
    }

    /** read<T>(): a scalar of size bytes at the read position. */
    method ReadScalar(size: nat) returns (o: Outcome<nat>)
      modifies this`rpos
      ensures o == ParseScalar(size, storage, old(rpos)) && rpos == o.next
    {
      if rpos + size > |storage| {
        return Thrown(rpos);
      }
      var r := FromLittleEndian(storage[rpos..rpos + size]);
      rpos := rpos + size;
      o := Got(r, rpos);
    }

    /** The string form of the read operator: up to a NUL or the end of the data. */
    method ReadText() returns (value: seq<Byte>)
      modifies this`rpos
      ensures var o := ParseText(storage, old(rpos)); value == o.value && rpos == o.next
    {
      value := [];
      ghost var start := rpos;
      while rpos < |storage|
        invariant start <= rpos
        invariant if start > |storage| then rpos == start && value == []
                  else rpos <= |storage| && value == storage[start..rpos]
                       && FirstNul(storage, start) == FirstNul(storage, rpos)
        decreases |storage| - rpos
      {
        var c := storage[rpos];
        rpos := rpos + 1;
        if c == 0 {
          break;
        }
        value := value + [c];
      }
    }

    /** One append of a non-empty source. */
    method WriteBytes(src: seq<Byte>) returns (ok: bool)
      modifies this`storage, this`wpos
      ensures Wrote(old(storage), old(wpos), ok, src, storage, wpos)
    {
      ok := Append(src);
    }

    /** The write operators for all types. */
    method Write(v: Val, ty: Ty) returns (ok: bool)
      requires Has(v, ty)
      modifies this
      ensures rpos == old(rpos) && (ok ==> Aligned())
      ensures Wrote(old(storage), old(wpos), ok, Flushed(old(Pending()), v, ty), storage, wpos)
      decreases ty, 2
    {
      hide Wrote, Overwrite, LittleEndian, EncodeItems, EncodeEntries;
      match ty {
        case Scalar(w) =>
          ok := AppendScalar(v.n, w);
        case Str =>
          ok := WriteBytes(v.chars);
          ghost var nul := Pending() + [0];
          assert v.chars + nul == v.chars + Pending() + [0];
          if ok {
            NulByte();
            ghost var mid, at := storage, wpos;
            ok := AppendScalar(0, 1);
            WroteNext(old(storage), old(wpos), v.chars, mid, at, ok, nul, storage, wpos);
          } else {
            WroteLess(old(storage), old(wpos), v.chars, v.chars + nul, storage, wpos);
          }
        case Vec(_) =>
          assert Pending() + (Count(|v.items|) + EncodeItems(v.items, |v.items|, ty))
              == Pending() + Count(|v.items|) + EncodeItems(v.items, |v.items|, ty);
          ok := WriteItems(v.items, ty);
        case Map(_, _, _) =>
          assert Pending() + (Count(|v.entries|) + EncodeEntries(v.entries, |v.entries|, ty))
              == Pending() + Count(|v.entries|) + EncodeEntries(v.entries, |v.entries|, ty);
          ok := WriteEntries(v.entries, ty);
      }
    }

    /** The operator for vectors and lists. */
    method WriteItems(items: seq<Val>, ty: Ty) returns (ok: bool)
      requires ty.Vec? && AllHave(items, ty.elem)
      modifies this
      ensures rpos == old(rpos) && (ok ==> Aligned())
      ensures Wrote(old(storage), old(wpos), ok,
                    old(Pending()) + Count(|items|) + EncodeItems(items, |items|, ty), storage, wpos)
      decreases ty, 0
    {
      hide Wrote, LittleEndian, Count, Encode, Has, Flushed;
      CountBytes(|items|);
      ghost var head := Pending() + Count(|items|);
      ghost var whole := head + EncodeItems(items, |items|, ty);
      ok := AppendScalar(|items| % 0x1_0000_0000, 4);
      assert head + EncodeItems(items, 0, ty) == head;
      ItemsPrefix(items, 0, |items|, ty);
      if !ok {
        WroteLess(old(storage), old(wpos), head, whole, storage, wpos);
        return;
      }
      var i := 0;
      while i < |items|
        invariant 0 <= i <= |items| && Aligned() && rpos == old(rpos)
        invariant Wrote(old(storage), old(wpos), true, head + EncodeItems(items, i, ty), storage, wpos)
      {
        ghost var done, last, mid, at := EncodeItems(items, i, ty), Encode(items[i], ty.elem), storage, wpos;
        FlushedAlready(items[i], ty.elem);
        ok := Write(items[i], ty.elem);
        WroteNext(old(storage), old(wpos), head + done, mid, at, ok, last, storage, wpos);
        assert head + done + last == head + EncodeItems(items, i + 1, ty);
        i := i + 1;
        if !ok {
          ItemsPrefix(items, i, |items|, ty);
          PrefixAfter(head, EncodeItems(items, i, ty), EncodeItems(items, |items|, ty));
          WroteLess(old(storage), old(wpos), head + EncodeItems(items, i, ty), whole, storage, wpos);
          return;
        }
      }
      ok := true;
    }

    /** The operator for maps: the entries in key order. */
    method WriteEntries(entries: seq<Entry>, ty: Ty) returns (ok: bool)
      requires ty.Map? && EntriesHave(entries, ty.key, ty.mapped)
      modifies this
      ensures rpos == old(rpos) && (ok ==> Aligned())
      ensures Wrote(old(storage), old(wpos), ok,
                    old(Pending()) + Count(|entries|) + EncodeEntries(entries, |entries|, ty), storage, wpos)
      decreases ty, 1
    {
      hide Wrote, LittleEndian, Count, Encode, Has, Flushed;
      CountBytes(|entries|);
      ghost var head := Pending() + Count(|entries|);
      ghost var whole := head + EncodeEntries(entries, |entries|, ty);
      ok := AppendScalar(|entries| % 0x1_0000_0000, 4);
      assert head + EncodeEntries(entries, 0, ty) == head;
      EntriesPrefix(entries, 0, |entries|, ty);
      if !ok {
        WroteLess(old(storage), old(wpos), head, whole, storage, wpos);
        return;
      }
      var i := 0;
      while i < |entries|
        invariant 0 <= i <= |entries| && Aligned() && rpos == old(rpos)
        invariant Wrote(old(storage), old(wpos), true, head + EncodeEntries(entries, i, ty), storage, wpos)
      {
        ghost var done, mid, at := EncodeEntries(entries, i, ty), storage, wpos;
        ghost var last := Encode(entries[i].key, ty.key) + Encode(entries[i].mapped, ty.mapped);
        ok := WriteEntry(entries[i], ty);
        WroteNext(old(storage), old(wpos), head + done, mid, at, ok, last, storage, wpos);
        EntriesOneMore(head, entries, i, ty);
        i := i + 1;
        if !ok {
          EntriesPrefix(entries, i, |entries|, ty);
          PrefixAfter(head, EncodeEntries(entries, i, ty), EncodeEntries(entries, |entries|, ty));
          WroteLess(old(storage), old(wpos), head + EncodeEntries(entries, i, ty), whole, storage, wpos);
          return;
        }
      }
      ok := true;
    }

    /** One entry: key, then value. */
    method WriteEntry(e: Entry, ty: Ty) returns (ok: bool)
      requires Aligned() && ty.Map? && Has(e.key, ty.key) && Has(e.mapped, ty.mapped)
      modifies this
      ensures rpos == old(rpos) && (ok ==> Aligned())
      ensures Wrote(old(storage), old(wpos), ok, Encode(e.key, ty.key) + Encode(e.mapped, ty.mapped), storage, wpos)
      decreases ty, 0
    {
      hide Wrote, Encode, Has, Flushed;
      ghost var key, mapped := Encode(e.key, ty.key), Encode(e.mapped, ty.mapped);
      FlushedAlready(e.key, ty.key);
      FlushedAlready(e.mapped, ty.mapped);
      ok := Write(e.key, ty.key);
      if ok {
        ghost var mid, at := storage, wpos;
        ok := Write(e.mapped, ty.mapped);
        WroteNext(old(storage), old(wpos), key, mid, at, ok, mapped, storage, wpos);
      } else {
        WroteLess(old(storage), old(wpos), key, key + mapped, storage, wpos);
      }
    }

    /** The read operators for all types. */
    method Read(ty: Ty) returns (o: Outcome<Val>)
      modifies this`rpos
      ensures o == Parse(ty, storage, old(rpos)) && rpos == o.next
      decreases ty, 1
    {
      hide ParseItems, ParseEntries, ParseScalar, ParseText;
      match ty {
        case Scalar(w) =>
          var r := ReadScalar(w);
          o := if r.Thrown? then Thrown(r.next) else Got(Num(r.value), r.next);
        case Str =>
          var text := ReadText();
          o := Got(Text(text), rpos);
        case Vec(_) =>
          var count := ReadScalar(4);
          if count.Thrown? {
            return Thrown(count.next);
          }
          var r := ReadItems(count.value, ty);
          o := if r.Thrown? then Thrown(r.next) else Got(Items(r.value), r.next);
        case Map(_, _, _) =>
          var count := ReadScalar(4);
          if count.Thrown? {
            return Thrown(count.next);
          }
          var r := ReadEntries(count.value, ty);
          o := if r.Thrown? then Thrown(r.next) else Got(Table(r.value), r.next);
      }
    }

    /** The loop of the vector and list read operators. */
    method ReadItems(count: nat, ty: Ty) returns (o: Outcome<seq<Val>>)
      requires ty.Vec?
      modifies this`rpos
      ensures o == ParseItems(count, ty, storage, old(rpos)) && rpos == o.next
      decreases ty, 0
    {
      hide Parse;
      var items := [];
      var i := 0;
      while i < count
        invariant 0 <= i <= count && ParseItems(i, ty, storage, old(rpos)) == Got(items, rpos)
      {
        var r := Read(ty.elem);
        if r.Thrown? {
          ItemsThrow(i + 1, count, ty, storage, old(rpos));
          return Thrown(r.next);
        }
        items := items + [r.value];
        i := i + 1;
      }
      o := Got(items, rpos);
    }

    /** The loop of the map read operator. */
    method ReadEntries(count: nat, ty: Ty) returns (o: Outcome<seq<Entry>>)
      requires ty.Map?
      modifies this`rpos
      ensures o == ParseEntries(count, ty, storage, old(rpos)) && rpos == o.next
      decreases ty, 0
    {
      hide Parse, Insert;
      var entries := [];
      var i := 0;
      while i < count
        invariant 0 <= i <= count && ParseEntries(i, ty, storage, old(rpos)) == Got(entries, rpos)
      {
        var k := Read(ty.key);
        if k.Thrown? {
          EntriesThrow(i + 1, count, ty, storage, old(rpos));
          return Thrown(k.next);
        }
        var m := Read(ty.mapped);
        if m.Thrown? {
          EntriesThrow(i + 1, count, ty, storage, old(rpos));
          return Thrown(m.next);
        }
        entries := Insert(entries, Entry(k.value, m.value), ty.less);
        i := i + 1;
      }
      o := Got(entries, rpos);
    }

    /** A chain of write operators. */
    method WriteFields(fields: seq<Field>) returns (ok: bool)
      requires WellTyped(fields)
      modifies this
      ensures rpos == old(rpos) && (ok && fields != [] ==> Aligned())
      ensures Wrote(old(storage), old(wpos), ok, FlushedFields(old(Pending()), fields, |fields|), storage, wpos)
    {
      hide Wrote, Encode, Has, Flushed, FlushedFields;
      ghost var pending := Pending();
      NothingWritten(storage, wpos);
      NoFields(pending, fields);
      var i := 0;
      while i < |fields|
        invariant 0 <= i <= |fields| && rpos == old(rpos)
        invariant Pending() == if i == 0 then pending else []
        invariant i > 0 ==> Aligned()
        invariant Wrote(old(storage), old(wpos), true, FlushedFields(pending, fields, i), storage, wpos)
      {
        ghost var done, mid, at := FlushedFields(pending, fields, i), storage, wpos;
        ghost var last := Flushed(Pending(), fields[i].value, fields[i].ty);
        OneMoreField(pending, fields, i);
        ok := Write(fields[i].value, fields[i].ty);
        WroteNext(old(storage), old(wpos), done, mid, at, ok, last, storage, wpos);
        i := i + 1;
        if !ok {
          FieldsPrefix(pending, fields, i, |fields|);
          WroteLess(old(storage), old(wpos), FlushedFields(pending, fields, i),
                    FlushedFields(pending, fields, |fields|), storage, wpos);
          return;
        }
      }
      ok := true;
    }

    /** A chain of read operators. */
    method ReadFields(types: seq<Ty>) returns (o: Outcome<seq<Val>>)
      modifies this`rpos
      ensures o == ParseFields(types, |types|, storage, old(rpos)) && rpos == o.next
    {
      hide Parse;
      var values := [];
      var i := 0;
      while i < |types|
        invariant 0 <= i <= |types| && ParseFields(types, i, storage, old(rpos)) == Got(values, rpos)
      {
        var r := Read(types[i]);
        if r.Thrown? {
          FieldsThrow(types, i + 1, |types|, storage, old(rpos));
          return Thrown(r.next);
        }
        values := values + [r.value];
        i := i + 1;
      }
      o := Got(values, rpos);
    }

    /** A run: a message written at the end of the buffer and read from where it starts. */
    method SendAndReceive(fields: seq<Field>) returns (sent: bool, o: Outcome<seq<Val>>)
      requires WellTyped(fields) && wpos == |storage|
      modifies this
      ensures |old(storage)| + |FlushedFields(old(Pending()), fields, |fields|)| <= LIMIT ==> sent
      ensures sent ==> storage == old(storage) + FlushedFields(old(Pending()), fields, |fields|) && wpos == |storage|
      ensures sent && old(Aligned()) ==> storage == old(storage) + EncodeFields(fields, |fields|)
      ensures sent && old(Aligned()) && |storage| < 0x1_0000_0000 && AllNulFree(fields) ==>
                o == Got(ValuesOf(fields), wpos) && rpos == wpos
    {
      hide EncodeFields, ParseFields, FlushedFields, AllNulFree, Overwrite;
      var start := wpos;
      ghost var bytes := FlushedFields(Pending(), fields, |fields|);
      ghost var aligned := Aligned();
      o := Got([], rpos);
      sent := WriteFields(fields);
      if sent {
        OverwriteEnd(old(storage), bytes);
        if aligned {
          FieldsFlushedAlready(fields, |fields|);
        }
        rpos := start;
        o := ReadFields(TypesOf(fields));
        if aligned && |storage| < 0x1_0000_0000 && AllNulFree(fields) {
          FieldsReadBack(fields, |fields|, storage, start);
          assert ValuesOf(fields)[..|fields|] == ValuesOf(fields);
        }
      }
    }
  }
}
