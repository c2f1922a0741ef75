/** shared/Server/XPacket.h and TS_MESSAGE.h: the seven-byte packet header and its checksum. */
module Packets {
  import opened Bytes
  import opened Division
  import opened Serial
  import opened ByteBuffers

  const HEADER: nat := 7

  type U16 = x: int | 0 <= x < 0x1_0000
  type U32 = x: int | 0 <= x < 0x1_0000_0000

  /** The conversion of a size to a 32-bit signed int. */
  function Int32(n: nat): int {
    var low := n % 0x1_0000_0000;
    if low < 0x8000_0000 then low else low - 0x1_0000_0000
  }

  /** Byte k of an int, lowest first: the arithmetic shift and mask of the source. */
  function Part(x: int, k: nat): Byte
    requires k < 4
  {
    var shifted: int := match k case 0 => x case 1 => x / 0x100 case 2 => x / 0x1_0000 case 3 => x / 0x100_0000;
    shifted % 0x100
  }

  /** The sum of the six bytes of size and id. */
  function PartSum(id: int, size: int): nat {
    var total: int := Part(size, 0) + Part(size, 1) + Part(size, 2) + Part(size, 3) + Part(id, 0) + Part(id, 1);
    total
  }

  function Checksum(id: int, size: int): Byte {
    PartSum(id, size) % 0x100
  }

  /** Adding to a byte wraps around. */
  function Add(a: Byte, b: Byte): Byte {
    var total: int := a + b;
    total % 0x100
  }

  /** Adding six bytes one by one, wrapping each time, is wrapping their sum. */
  lemma AddSix(start: Byte, a: Byte, b: Byte, c: Byte, d: Byte, e: Byte, f: Byte)
    ensures var total: int := start + a + b + c + d + e + f;
            Add(Add(Add(Add(Add(Add(start, a), b), c), d), e), f) == total % 0x100
  {
    hide Add;
    var x1: int := start + a;
    AddOne(start, start, a);
    AddOne(Add(start, a), x1, b);
    AddOne(Add(Add(start, a), b), x1 + b, c);
    AddOne(Add(Add(Add(start, a), b), c), x1 + b + c, d);
    AddOne(Add(Add(Add(Add(start, a), b), c), d), x1 + b + c + d, e);
    AddOne(Add(Add(Add(Add(Add(start, a), b), c), d), e), x1 + b + c + d + e, f);
  }

  lemma AddOne(acc: Byte, total: int, x: Byte)
    requires acc == total % 0x100
    ensures Add(acc, x) == (total + x) % 0x100
  {
  }

  /** TS_MESSAGE::GetChecksum. */
  method GetChecksum(id: int, size: int) returns (value: Byte)
    ensures value == Checksum(id, size)
  {
    hide Add, Part;
    value := 0;
    value := Add(value, Part(size, 0));
    value := Add(value, Part(size, 1));
    value := Add(value, Part(size, 2));
    value := Add(value, Part(size, 3));
    value := Add(value, Part(id, 0));
    value := Add(value, Part(id, 1));
    AddSix(0, Part(size, 0), Part(size, 1), Part(size, 2), Part(size, 3), Part(id, 0), Part(id, 1));
  }

  function ByteSum(s: seq<Byte>): nat {
    if s == [] then 0 else s[0] as int + ByteSum(s[1..])
  }

  /** A header that describes the packet: its size, and the checksum of the bytes before it. */
  predicate HeaderFits(s: seq<Byte>) {
    && |s| >= HEADER
    && FromLittleEndian(s[0..4]) == |s| % 0x1_0000_0000
    && s[6] as int == ByteSum(s[..6]) % 0x100
  }

  class TsMessage {
    var size: U32
    var id: U16
    var checksum: Byte

    /** It adds to the old checksum instead of replacing it. */
    method SetChecksum()
      modifies this`checksum
      ensures checksum == (old(checksum) + PartSum(id, size)) % 0x100
    {
      hide Add, Part;
      checksum := Add(checksum, Part(size, 0));
      checksum := Add(checksum, Part(size, 1));
      checksum := Add(checksum, Part(size, 2));
      checksum := Add(checksum, Part(size, 3));
      checksum := Add(checksum, Part(id, 0));
      checksum := Add(checksum, Part(id, 1));
      AddSix(old(checksum), Part(size, 0), Part(size, 1), Part(size, 2), Part(size, 3), Part(id, 0), Part(id, 1));
    }
  }

  /** Adding the same amount keeps two numbers equal or different modulo 256. */
  lemma SameSums(rest: int, a: int, b: int)
    ensures (rest + a) % 0x100 == (rest + b) % 0x100 <==> a % 0x100 == b % 0x100
  {
    SumOfRemainders(rest, a);
    SumOfRemainders(rest, b);
    SmallSums(rest % 0x100, a % 0x100, b % 0x100);
  }

  lemma SumOfRemainders(x: int, y: int)
    ensures (x + y) % 0x100 == (x % 0x100 + y % 0x100) % 0x100
  {
  }

  lemma SmallSums(r: int, a: int, b: int)
    requires 0 <= r < 0x100 && 0 <= a < 0x100 && 0 <= b < 0x100
    ensures (r + a) % 0x100 == (r + b) % 0x100 <==> a == b
  {
    Wrap(r + a);
    Wrap(r + b);
  }

  lemma Wrap(x: int)
    requires 0 <= x < 0x200
    ensures x % 0x100 == if x < 0x100 then x else x - 0x100
  {
  }

  /** SetChecksum leaves what GetChecksum returns exactly when the field was zero before. */
  lemma FieldMustBeZero(before: Byte, id: U16, size: U32)
    ensures (before + PartSum(id, size)) % 0x100 == Checksum(id, size) <==> before == 0
  {
    hide PartSum;
    SameSums(PartSum(id, size), before, 0);
  }

  /** The checksum of a size and an id is the byte sum of their little-endian header fields. */
  lemma ChecksumIsByteSum(id: U16, size: nat)
    ensures Checksum(id, Int32(size)) == ByteSum(LittleEndian(size % 0x1_0000_0000, 4) + LittleEndian(id, 2)) % 0x100
  {
    hide LittleEndian, ByteSum, Int32, Low, Part;
    var n: nat, i: nat := size % 0x1_0000_0000, id;
    FourBytesOf(n);
    TwoBytesOf(i);
    SignDoesNotMatter(size, 0);
    SignDoesNotMatter(size, 1);
    SignDoesNotMatter(size, 2);
    SignDoesNotMatter(size, 3);
    SumOfSix(Part(n, 0), Part(n, 1), Part(n, 2), Part(n, 3), Part(i, 0), Part(i, 1));
    assert LittleEndian(n, 4) + LittleEndian(i, 2)
        == [Part(n, 0), Part(n, 1), Part(n, 2), Part(n, 3), Part(i, 0), Part(i, 1)];
  }

  lemma SignDoesNotMatter(size: nat, k: nat)
    requires k < 4
    ensures Part(Int32(size), k) == Part(size % 0x1_0000_0000, k)
  {
    var n: int := size % 0x1_0000_0000;
    Shifted(n);
    Wrapped(n / 0x100, 0x1_0000);
    Wrapped(n / 0x1_0000, 0x100);
    Wrapped(n / 0x100_0000, 1);
    Wrapped(n, 0x100_0000);
  }

  lemma Shifted(n: int)
    ensures (n - 0x1_0000_0000) / 0x100 == n / 0x100 - 0x100_0000
    ensures (n - 0x1_0000_0000) / 0x1_0000 == n / 0x1_0000 - 0x1_0000
    ensures (n - 0x1_0000_0000) / 0x100_0000 == n / 0x100_0000 - 0x100
  {
  }

  lemma Wrapped(x: int, a: int)
    ensures (x - 0x100 * a) % 0x100 == x % 0x100
  {
  }

  lemma FourBytesOf(n: nat)
    ensures LittleEndian(n, 4) == [Part(n, 0), Part(n, 1), Part(n, 2), Part(n, 3)]
  {
    assert n / 0x100 / 0x100 == n / 0x1_0000 && n / 0x1_0000 / 0x100 == n / 0x100_0000;
    assert LittleEndian(n / 0x100_0000, 1) == [Part(n, 3)];
    assert LittleEndian(n / 0x1_0000, 2) == [Part(n, 2)] + LittleEndian(n / 0x100_0000, 1);
    assert LittleEndian(n / 0x100, 3) == [Part(n, 1)] + LittleEndian(n / 0x1_0000, 2);
  }

  lemma TwoBytesOf(n: nat)
    ensures LittleEndian(n, 2) == [Part(n, 0), Part(n, 1)]
  {
    assert LittleEndian(n / 0x100, 1) == [Part(n, 1)];
  }

  lemma SumOfSix(a: Byte, b: Byte, c: Byte, d: Byte, e: Byte, f: Byte)
    ensures ByteSum([a, b, c, d, e, f]) == a as int + b as int + c as int + d as int + e as int + f as int
  {
    hide ByteSum;
    NoSum();
    ConsSum(f, []);
    ConsSum(e, [f]);
    ConsSum(d, [e, f]);
    ConsSum(c, [d, e, f]);
    ConsSum(b, [c, d, e, f]);
    ConsSum(a, [b, c, d, e, f]);
    assert [a] + [b, c, d, e, f] == [a, b, c, d, e, f] && [b] + [c, d, e, f] == [b, c, d, e, f];
    assert [c] + [d, e, f] == [c, d, e, f] && [d] + [e, f] == [d, e, f] && [e] + [f] == [e, f] && [f] + [] == [f];
  }

  lemma NoSum()
    ensures ByteSum([]) == 0
  {
  }

  lemma ConsSum(x: Byte, s: seq<Byte>)
    ensures ByteSum([x] + s) == x as int + ByteSum(s)
  {
    assert ([x] + s)[1..] == s;
  }

  /** s with a size, the same id bytes and a checksum in front of the same body. */
  function WithHeader(s: seq<Byte>, id: U16): (r: seq<Byte>)
    requires |s| >= HEADER
    ensures |r| == |s|
  {
    LittleEndian(|s| % 0x1_0000_0000, 4) + s[4..6] + [Checksum(id, Int32(|s|))] + s[7..]
  }

  lemma Assembled(size: seq<Byte>, id: seq<Byte>, sum: Byte, body: seq<Byte>, r: seq<Byte>)
    requires |size| == 4 && |id| == 2 && r == size + id + [sum] + body
    ensures r[0..4] == size && r[..6] == size + id && r[4..6] == id && r[6] == sum && r[7..] == body
  {
  }

  /** What the two puts of FinalizePacket leave. */
  lemma TwoPuts(s: seq<Byte>, size: seq<Byte>, sum: Byte)
    requires |s| >= HEADER && |size| == 4
    ensures var once := s[..0] + size + s[4..]; once[..6] + [sum] + once[7..] == size + s[4..6] + [sum] + s[7..]
  {
    var once := s[..0] + size + s[4..];
    assert once == size + s[4..6] + s[6..];
    assert once[..6] == size + s[4..6];
    assert once[7..] == s[7..];
  }

  /** The fields of the header, one by one. */
  lemma HeaderFields(s: seq<Byte>, id: U16)
    requires |s| >= HEADER
    ensures var r := WithHeader(s, id);
            && FromLittleEndian(r[0..4]) == |s| % 0x1_0000_0000
            && r[..6] == LittleEndian(|s| % 0x1_0000_0000, 4) + s[4..6]
            && r[4..6] == s[4..6] && r[6] == Checksum(id, Int32(|s|)) && r[7..] == s[7..]
  {
    hide ByteSum, LittleEndian, FromLittleEndian, Low, Checksum, Int32, Pow256;
    var n: nat := |s| % 0x1_0000_0000;
    var size, c := LittleEndian(n, 4), Checksum(id, Int32(|s|));
    SmallRemainder(c, 256);
    FourBytes();
    ScalarReadsBack(n, 4);
    SmallRemainder(n, 0x1_0000_0000);
    Assembled(size, s[4..6], c, s[7..], WithHeader(s, id));
  }

  /** The header fits the packet as long as its id field holds the packet's id; the body is untouched. */
  lemma HeaderIsRight(s: seq<Byte>, id: U16)
    requires |s| >= HEADER && s[4..6] == LittleEndian(id, 2)
    ensures HeaderFits(WithHeader(s, id))
    ensures WithHeader(s, id)[4..6] == LittleEndian(id, 2) && WithHeader(s, id)[7..] == s[7..]
  {
    hide ByteSum, LittleEndian, FromLittleEndian, Low, Checksum, Int32, WithHeader;
    HeaderFields(s, id);
    ChecksumIsByteSum(id, |s|);
  }

  /** With any other id field, the checksum fits only if the two id bytes have the same sum modulo 256. */
  lemma StaleId(s: seq<Byte>, id: U16, other: U16)
    requires |s| >= HEADER && s[4..6] == LittleEndian(other, 2)
    ensures HeaderFits(WithHeader(s, id)) <==>
              (id % 0x100 + id / 0x100) % 0x100 == (other % 0x100 + other / 0x100) % 0x100
  {
    hide ByteSum, LittleEndian, FromLittleEndian, Low, Int32, Checksum, WithHeader;
    HeaderFields(s, id);
    ChecksumIsByteSum(other, |s|);
    ChecksumsDiffer(id, other, Int32(|s|));
  }

  lemma ChecksumsDiffer(id: U16, other: U16, size: int)
    ensures Checksum(id, size) == Checksum(other, size) <==>
              (id % 0x100 + id / 0x100) % 0x100 == (other % 0x100 + other / 0x100) % 0x100
  {
    var rest: int := Part(size, 0) + Part(size, 1) + Part(size, 2) + Part(size, 3);
    var a: int, b: int := Part(id, 0) + Part(id, 1), Part(other, 0) + Part(other, 1);
    TwoParts(id);
    TwoParts(other);
    hide Part;
    SameSums(rest, a, b);
  }

  lemma TwoParts(id: U16)
    ensures Part(id, 0) == id % 0x100 && Part(id, 1) == id / 0x100
  {
  }

  /** A packet: a byte buffer that starts with a header. */
  class XPacket {
    const buffer: ByteBuffer
    var packetId: U16

    constructor (id: U16)
      ensures fresh(buffer) && packetId == id && buffer.Aligned()
      ensures buffer.storage == [0, 0, 0, 0] + LittleEndian(id, 2) + [0] && buffer.rpos == 0 && buffer.wpos == HEADER
    {
      buffer := new ByteBuffer(0);
      packetId := id;
      new;
      StartHeader();
    }

    /** The shared half of the constructor and of Reset: an empty header with the id in it. */
    method StartHeader()
      requires buffer.storage == []
      modifies buffer
      ensures buffer.storage == [0, 0, 0, 0] + LittleEndian(packetId, 2) + [0]
      ensures buffer.rpos == 0 && buffer.wpos == HEADER
      ensures buffer.bitpos == old(buffer.bitpos)
    {
      hide LittleEndian;
      buffer.Resize(HEADER);
      assert buffer.storage == Zeros(7);
      var r := buffer.Put(4, LittleEndian(packetId, 2));
      assert buffer.storage[..4] == [0, 0, 0, 0] && buffer.storage[6..] == [0];
    }

    method Reset()
      modifies buffer
      ensures buffer.storage == [0, 0, 0, 0] + LittleEndian(packetId, 2) + [0]
      ensures buffer.rpos == 0 && buffer.wpos == HEADER
      ensures buffer.bitpos == old(buffer.bitpos)
    {
      buffer.Clear();
      StartHeader();
    }

    /** On a packet shorter than its header the position exception leaves whatever was written before it. */
    method FinalizePacket() returns (r: Status)
      modifies buffer
      ensures buffer.rpos == old(buffer.rpos) && buffer.wpos == old(buffer.wpos) && buffer.bitpos == old(buffer.bitpos)
      ensures r == if |old(buffer.storage)| < HEADER then PositionError else Done
      ensures |buffer.storage| == |old(buffer.storage)|
      ensures r.Done? ==> buffer.storage == WithHeader(old(buffer.storage), packetId)
      ensures |buffer.storage| < 4 ==> buffer.storage == old(buffer.storage)
      ensures 4 <= |buffer.storage| < HEADER ==>
                buffer.storage == LittleEndian(|buffer.storage|, 4) + old(buffer.storage)[4..]
    {
      hide LittleEndian, Checksum, Int32, Low;
      var size := |buffer.storage|;
      r := buffer.Put(0, LittleEndian(size % 0x1_0000_0000, 4));
      if !r.Done? {
        return;
      }
      assert size < HEADER ==> size % 0x1_0000_0000 == size;
      var sum := GetChecksum(packetId, Int32(|buffer.storage|));
      r := buffer.Put(6, [sum]);
      if r.Done? {
        ghost var s := old(buffer.storage);
        TwoPuts(s, LittleEndian(size % 0x1_0000_0000, 4), sum);
        assert buffer.storage == WithHeader(s, packetId);
      }
    }

    /** A run: a new packet, fields written behind its header, and the finished packet read back. */
    method BuildAndRead(fields: seq<Field>) returns (sent: bool, o: Outcome<seq<Val>>)
      requires WellTyped(fields) && buffer.Aligned()
      modifies buffer
      ensures HEADER + |EncodeFields(fields, |fields|)| <= LIMIT ==> sent
      ensures sent ==> HeaderFits(buffer.storage) && buffer.storage[4..6] == LittleEndian(packetId, 2)
      ensures sent ==> buffer.storage[HEADER..] == EncodeFields(fields, |fields|)
      ensures sent && |buffer.storage| < 0x1_0000_0000 && AllNulFree(fields) ==>
                o == Got(ValuesOf(fields), |buffer.storage|)
    {
      hide LittleEndian, Checksum, Int32, Low, EncodeFields, ParseFields, FlushedFields,
           AllNulFree, HeaderFits, Has;
      Reset();
      o := Got([], 0);
      ghost var bytes := EncodeFields(fields, |fields|);
      FieldsFlushedAlready(fields, |fields|);
      sent := buffer.WriteFields(fields);
      if sent {
        OverwriteEnd([0, 0, 0, 0] + LittleEndian(packetId, 2) + [0], bytes);
        ghost var s := buffer.storage;
        assert s[4..6] == LittleEndian(packetId, 2) && s[7..] == bytes;
        var r := FinalizePacket();
        HeaderIsRight(s, packetId);
        buffer.rpos := HEADER;
        o := buffer.ReadFields(TypesOf(fields));
        if |buffer.storage| < 0x1_0000_0000 && AllNulFree(fields) {
          FieldsReadBack(fields, |fields|, buffer.storage, HEADER);
          assert ValuesOf(fields)[..|fields|] == ValuesOf(fields);
        }
      }
    }
  }
}
