/** What ByteBuffer's operators << and >> write and read, as values. */
module Serial {
  import opened Bytes
  import opened Division

  // Scalars, least significant byte first.

  /** How many bytes a scalar has: one, two, four or eight in the source, but nothing depends on it. */
  type Width = n: nat | 0 < n witness 1

  function Pow256(n: nat): (p: nat)
    ensures 1 <= p
  {
    if n == 0 then 1 else 256 * Pow256(n - 1)
  }

  function Low(n: nat): Byte {
    n % 256
  }

  function LittleEndian(n: nat, size: nat): (s: seq<Byte>)
    ensures |s| == size
  {
    if size == 0 then [] else [Low(n)] + LittleEndian(n / 256, size - 1)
  }

  function FromLittleEndian(s: seq<Byte>): nat {
    if s == [] then 0 else s[0] as int + 256 * FromLittleEndian(s[1..])
  }

  lemma DivideTwice(n: nat, p: nat)
    requires 1 <= p
    ensures n / 256 / p == n / (256 * p)
  {
    var q, r := n / 256, n % 256;
    var a, b := q / p, q % p;
    assert q == p * a + b;
    assert n == 256 * q + r == 256 * (p * a + b) + r;
    assert 256 * (p * a) == (256 * p) * a;
    QuotientOf(256 * p, a, 256 * b + r);
  }

  /** Byte k holds the digit of weight 256^k. */
  lemma {:induction false} LittleEndianAt(n: nat, size: nat, k: nat)
    requires k < size
    ensures LittleEndian(n, size)[k] == n / Pow256(k) % 256
    decreases k
  {
    if k == 0 {
      assert Pow256(0) == 1;
    } else {
      LittleEndianAt(n / 256, size - 1, k - 1);
      DivideTwice(n, Pow256(k - 1));
    }
  }

  lemma {:induction false} FromLittleEndianFits(s: seq<Byte>)
    ensures FromLittleEndian(s) < Pow256(|s|)
  {
    if s != [] {
      FromLittleEndianFits(s[1..]);
    }
  }

  lemma {:induction false} ScalarReadsBack(n: nat, size: nat)
    ensures FromLittleEndian(LittleEndian(n, size)) == n % Pow256(size)
    decreases size
  {
    if size == 0 {
    } else {
      var s := LittleEndian(n, size);
      assert s[1..] == LittleEndian(n / 256, size - 1);
      ScalarReadsBack(n / 256, size - 1);
      SplitRemainder(n, Pow256(size - 1));
    }
  }

  lemma SplitRemainder(n: nat, p: nat)
    requires 1 <= p
    ensures n % 256 + 256 * (n / 256 % p) == n % (256 * p)
  {
    var q, r := n / 256, n % 256;
    var a, b := q / p, q % p;
    assert q == p * a + b;
    assert n == 256 * q + r == 256 * (p * a + b) + r;
    assert 256 * (p * a) == (256 * p) * a;
    assert n == (256 * p) * a + (256 * b + r);
    RemainderOf(256 * p, a, 256 * b + r);
  }

  // Typed values.

  /** The C++ types that can be written and read; a list is written as a vector. A map type carries its key order. */
  datatype Ty = Scalar(width: Width) | Str | Vec(elem: Ty) | Map(key: Ty, mapped: Ty, less: (Val, Val) -> bool)

  datatype Val = Num(n: nat) | Text(chars: seq<Byte>) | Items(items: seq<Val>) | Table(entries: seq<Entry>)

  datatype Entry = Entry(key: Val, mapped: Val)

  /** A map iterates its entries in strictly increasing key order. */
  predicate Increasing(entries: seq<Entry>, less: (Val, Val) -> bool) {
    forall i, j :: 0 <= i < j < |entries| ==> less(entries[i].key, entries[j].key)
  }

  /** v is a value of type ty. */
  predicate Has(v: Val, ty: Ty)
    decreases ty
  {
    match ty
    case Scalar(w) => v.Num? && v.n < Pow256(w)
    case Str => v.Text?
    case Vec(e) => v.Items? && forall i :: 0 <= i < |v.items| ==> Has(v.items[i], e)
    case Map(k, m, less) =>
      && v.Table? && Increasing(v.entries, less)
      && forall i :: 0 <= i < |v.entries| ==> Has(v.entries[i].key, k) && Has(v.entries[i].mapped, m)
  }

  /** No string inside v holds a NUL. */
  predicate NulFree(v: Val, ty: Ty)
    requires Has(v, ty)
    decreases ty
  {
    match ty
    case Scalar(_) => true
    case Str => 0 !in v.chars
    case Vec(e) => forall i :: 0 <= i < |v.items| ==> NulFree(v.items[i], e)
    case Map(k, m, _) =>
      forall i :: 0 <= i < |v.entries| ==> NulFree(v.entries[i].key, k) && NulFree(v.entries[i].mapped, m)
  }

  /** The 32-bit element count the source puts before vectors, lists and maps. */
  function Count(n: nat): (s: seq<Byte>)
    ensures |s| == 4
  {
    LittleEndian(n % 0x1_0000_0000, 4)
  }

  function Encode(v: Val, ty: Ty): seq<Byte>
    requires Has(v, ty)
    decreases ty, 1, 0
  {
    match ty
    case Scalar(w) => LittleEndian(v.n, w)
    case Str => v.chars + [0]
    case Vec(_) => Count(|v.items|) + EncodeItems(v.items, |v.items|, ty)
    case Map(_, _, _) => Count(|v.entries|) + EncodeEntries(v.entries, |v.entries|, ty)
  }

  predicate AllHave(items: seq<Val>, elem: Ty) {
    forall i :: 0 <= i < |items| ==> Has(items[i], elem)
  }

  predicate EntriesHave(entries: seq<Entry>, key: Ty, mapped: Ty) {
    forall i :: 0 <= i < |entries| ==> Has(entries[i].key, key) && Has(entries[i].mapped, mapped)
  }

  /** The first n elements of a vector. */
  function EncodeItems(items: seq<Val>, n: nat, ty: Ty): seq<Byte>
    requires ty.Vec? && AllHave(items, ty.elem) && n <= |items|
    decreases ty, 0, n
  {
    if n == 0 then [] else EncodeItems(items, n - 1, ty) + Encode(items[n - 1], ty.elem)
  }

  /** The first n entries of a map. */
  function EncodeEntries(entries: seq<Entry>, n: nat, ty: Ty): seq<Byte>
    requires ty.Map? && EntriesHave(entries, ty.key, ty.mapped) && n <= |entries|
    decreases ty, 0, n
  {
    if n == 0 then []
    else
      EncodeEntries(entries, n - 1, ty)
      + Encode(entries[n - 1].key, ty.key) + Encode(entries[n - 1].mapped, ty.mapped)
  }

  // Reading.

  /** What a read yields: a value, or the position exception; in both cases the read position it leaves. */
  datatype Outcome<T> = Got(value: T, next: nat) | Thrown(next: nat)

  /** Where a string read at pos ends: the first NUL, or the end of the data. */
  function FirstNul(data: seq<Byte>, pos: nat): (e: nat)
    requires pos <= |data|
    ensures pos <= e <= |data|
    decreases |data| - pos
  {
    if pos == |data| || data[pos] == 0 then pos else FirstNul(data, pos + 1)
  }

  function ParseScalar(size: nat, data: seq<Byte>, pos: nat): (o: Outcome<nat>) {
    if pos + size > |data| then Thrown(pos) else Got(FromLittleEndian(data[pos..pos + size]), pos + size)
  }

  /** A string read never throws: at or past the end it is empty. */
  function ParseText(data: seq<Byte>, pos: nat): (o: Outcome<seq<Byte>>)
    ensures o.Got?
  {
    if pos >= |data| then Got([], pos)
    else
      var e := FirstNul(data, pos);
      Got(data[pos..e], if e < |data| then e + 1 else e)
  }

  function Parse(ty: Ty, data: seq<Byte>, pos: nat): (o: Outcome<Val>)
    decreases ty, 1, 0
  {
    match ty
    case Scalar(w) => (
      var r := ParseScalar(w, data, pos);
      if r.Thrown? then Thrown(r.next) else Got(Num(r.value), r.next))
    case Str =>
      var r := ParseText(data, pos);
      Got(Text(r.value), r.next)
    case Vec(_) => (
      var c := ParseScalar(4, data, pos);
      if c.Thrown? then Thrown(c.next) else
      var r := ParseItems(c.value, ty, data, c.next);
      if r.Thrown? then Thrown(r.next) else Got(Items(r.value), r.next))
    case Map(_, _, _) => (
      var c := ParseScalar(4, data, pos);
      if c.Thrown? then Thrown(c.next) else
      var r := ParseEntries(c.value, ty, data, c.next);
      if r.Thrown? then Thrown(r.next) else Got(Table(r.value), r.next))
  }

  /** n elements of a vector, one after the other. */
  function ParseItems(n: nat, ty: Ty, data: seq<Byte>, pos: nat): (o: Outcome<seq<Val>>)
    requires ty.Vec?
    ensures o.Got? ==> |o.value| == n
    decreases ty, 0, n
  {
    if n == 0 then Got([], pos)
    else
      var front := ParseItems(n - 1, ty, data, pos);
      if front.Thrown? then front
      else
        var last := Parse(ty.elem, data, front.next);
        if last.Thrown? then Thrown(last.next) else Got(front.value + [last.value], last.next)
  }

  /** std::map::insert: the entry goes to its place in key order, unless its key is there already. */
  function Insert(entries: seq<Entry>, e: Entry, less: (Val, Val) -> bool): seq<Entry> {
    if entries == [] then [e]
    else if less(entries[0].key, e.key) then [entries[0]] + Insert(entries[1..], e, less)
    else if less(e.key, entries[0].key) then [e] + entries
    else entries
  }

  /** n entries of a map, inserted one after the other. */
  function ParseEntries(n: nat, ty: Ty, data: seq<Byte>, pos: nat): (o: Outcome<seq<Entry>>)
    requires ty.Map?
    decreases ty, 0, n
  {
    if n == 0 then Got([], pos)
    else
      var front := ParseEntries(n - 1, ty, data, pos);
      if front.Thrown? then front
      else
        var k := Parse(ty.key, data, front.next);
        if k.Thrown? then Thrown(k.next)
        else
          var m := Parse(ty.mapped, data, k.next);
          if m.Thrown? then Thrown(m.next) else Got(Insert(front.value, Entry(k.value, m.value), ty.less), m.next)
  }

  /** Once an element cannot be read, reading more of them fails in the same place. */
  lemma {:induction false} ItemsThrow(i: nat, n: nat, ty: Ty, data: seq<Byte>, pos: nat)
    requires ty.Vec? && i <= n && ParseItems(i, ty, data, pos).Thrown?
    ensures ParseItems(n, ty, data, pos) == ParseItems(i, ty, data, pos)
  {
    hide Parse;
    if i < n {
      ItemsThrow(i, n - 1, ty, data, pos);
    }
  }

  lemma {:induction false} EntriesThrow(i: nat, n: nat, ty: Ty, data: seq<Byte>, pos: nat)
    requires ty.Map? && i <= n && ParseEntries(i, ty, data, pos).Thrown?
    ensures ParseEntries(n, ty, data, pos) == ParseEntries(i, ty, data, pos)
  {
    hide Parse;
    if i < n {
      EntriesThrow(i, n - 1, ty, data, pos);
    }
  }

  // Reading back what was written.

  /** The bytes of data from pos on begin with part. */
  predicate At(data: seq<Byte>, pos: nat, part: seq<Byte>) {
    pos + |part| <= |data| && data[pos..pos + |part|] == part
  }

  lemma AtSplits(data: seq<Byte>, pos: nat, a: seq<Byte>, b: seq<Byte>)
    requires At(data, pos, a + b)
    ensures At(data, pos, a) && At(data, pos + |a|, b)
  {
    var ab := a + b;
    assert a == ab[..|a|] && b == ab[|a|..];
    assert data[pos..pos + |a|] == data[pos..pos + |ab|][..|a|];
    assert data[pos + |a|..pos + |a| + |b|] == data[pos..pos + |ab|][|a|..];
  }

  lemma ScalarAt(n: nat, size: nat, data: seq<Byte>, pos: nat)
    requires n < Pow256(size) && At(data, pos, LittleEndian(n, size))
    ensures ParseScalar(size, data, pos) == Got(n, pos + size)
  {
    hide Pow256, LittleEndian, FromLittleEndian;
    ScalarReadsBack(n, size);
    SmallRemainder(n, Pow256(size));
  }

  lemma FourBytes()
    ensures Pow256(4) == 0x1_0000_0000
  {
    assert Pow256(1) == 256 && Pow256(2) == 0x1_0000 && Pow256(3) == 0x100_0000;
  }

  lemma CountAt(n: nat, data: seq<Byte>, pos: nat)
    requires n < 0x1_0000_0000 && At(data, pos, Count(n))
    ensures ParseScalar(4, data, pos) == Got(n, pos + 4)
  {
    hide Pow256, LittleEndian, FromLittleEndian, At, ParseScalar;
    FourBytes();
    ScalarAt(n, 4, data, pos);
  }

  lemma {:induction false} NulFound(data: seq<Byte>, pos: nat, e: nat)
    requires pos <= e < |data| && data[e] == 0 && forall i :: pos <= i < e ==> data[i] != 0
    ensures FirstNul(data, pos) == e
    decreases e - pos
  {
    if pos < e {
      NulFound(data, pos + 1, e);
    }
  }

  lemma TextAt(chars: seq<Byte>, data: seq<Byte>, pos: nat)
    requires 0 !in chars && At(data, pos, chars + [0])
    ensures ParseText(data, pos) == Got(chars, pos + |chars| + 1)
  {
    var e := pos + |chars|;
    AtSplits(data, pos, chars, [0]);
    assert data[e] == data[e..e + 1][0];
    forall i | pos <= i < e
      ensures data[i] != 0
    {
      assert data[i] == data[pos..e][i - pos];
    }
    NulFound(data, pos, e);
  }

  lemma {:induction false} InsertLast(entries: seq<Entry>, e: Entry, less: (Val, Val) -> bool)
    requires forall i :: 0 <= i < |entries| ==> less(entries[i].key, e.key)
    ensures Insert(entries, e, less) == entries + [e]
  {
    if entries != [] {
      InsertLast(entries[1..], e, less);
    }
  }

  /** The key order of a std::map: strict and total on the keys. */
  ghost predicate TotalOrder(less: (Val, Val) -> bool, key: Ty) {
    && (forall a :: Has(a, key) ==> !less(a, a))
    && (forall a, b :: Has(a, key) && Has(b, key) && a != b ==> less(a, b) || less(b, a))
    && (forall a, b, c :: Has(a, key) && Has(b, key) && Has(c, key) && less(a, b) && less(b, c) ==> less(a, c))
  }

  predicate KeyIn(key: Val, entries: seq<Entry>) {
    exists i :: 0 <= i < |entries| && entries[i].key == key
  }

  lemma IncreasingFromFront(first: Entry, rest: seq<Entry>, less: (Val, Val) -> bool)
    requires Increasing(rest, less) && forall x :: x in rest ==> less(first.key, x.key)
    ensures Increasing([first] + rest, less)
  {
    var all := [first] + rest;
    forall i, j | 0 <= i < j < |all|
      ensures less(all[i].key, all[j].key)
    {
      assert all[j] == rest[j - 1];
    }
  }

  /** An inserted entry is added in key order; an entry whose key is there already keeps its value. */
  lemma {:induction false} InsertIsMapInsert(entries: seq<Entry>, e: Entry, less: (Val, Val) -> bool, key: Ty)
    requires TotalOrder(less, key) && Increasing(entries, less) && Has(e.key, key)
    requires forall i :: 0 <= i < |entries| ==> Has(entries[i].key, key)
    ensures Increasing(Insert(entries, e, less), less)
    ensures forall x :: x in Insert(entries, e, less) <==> x in entries || (x == e && !KeyIn(e.key, entries))
  {
    hide Has;
    if entries != [] {
      var first, rest := entries[0], entries[1..];
      assert entries == [first] + rest;
      if less(first.key, e.key) {
        InsertIsMapInsert(rest, e, less, key);
        assert KeyIn(e.key, entries) <==> KeyIn(e.key, rest) by {
          assert forall i :: 0 <= i < |rest| ==> rest[i] == entries[i + 1];
        }
        IncreasingFromFront(first, Insert(rest, e, less), less);
      } else if less(e.key, first.key) {
        IncreasingFromFront(e, entries, less);
      } else {
        assert entries[0].key == e.key;
      }
    }
  }

  /** All maps in the type have such an order. */
  ghost predicate Ordered(ty: Ty) {
    match ty
    case Scalar(_) => true
    case Str => true
    case Vec(e) => Ordered(e)
    case Map(k, m, less) => Ordered(k) && Ordered(m) && TotalOrder(less, k)
  }

  /** Whatever the bytes are, a value that is read has its type. */
  lemma {:induction false} ParsedHas(ty: Ty, data: seq<Byte>, pos: nat)
    requires Ordered(ty)
    ensures var o := Parse(ty, data, pos); o.Got? ==> Has(o.value, ty)
    decreases ty, 1, 0
  {
    hide ParseItems, ParseEntries, Pow256, FromLittleEndian;
    match ty
    case Scalar(w) =>
      if pos + w <= |data| {
        FromLittleEndianFits(data[pos..pos + w]);
      }
    case Str =>
    case Vec(_) =>
      var c := ParseScalar(4, data, pos);
      if c.Got? {
        ParsedItemsHave(c.value, ty, data, c.next);
      }
    case Map(_, _, _) =>
      var c := ParseScalar(4, data, pos);
      if c.Got? {
        ParsedEntriesHave(c.value, ty, data, c.next);
      }
  }

  lemma {:induction false} ParsedItemsHave(n: nat, ty: Ty, data: seq<Byte>, pos: nat)
    requires ty.Vec? && Ordered(ty)
    ensures var o := ParseItems(n, ty, data, pos); o.Got? ==> AllHave(o.value, ty.elem)
    decreases ty, 0, n
  {
    hide Parse, Has;
    if n > 0 {
      ParsedItemsHave(n - 1, ty, data, pos);
      ParsedHas(ty.elem, data, ParseItems(n - 1, ty, data, pos).next);
    }
  }

  lemma {:induction false} ParsedEntriesHave(n: nat, ty: Ty, data: seq<Byte>, pos: nat)
    requires ty.Map? && Ordered(ty)
    ensures var o := ParseEntries(n, ty, data, pos);
            o.Got? ==> Increasing(o.value, ty.less) && EntriesHave(o.value, ty.key, ty.mapped)
    decreases ty, 0, n
  {
    hide Parse, Has, Insert, TotalOrder;
    if n > 0 {
      ParsedEntriesHave(n - 1, ty, data, pos);
      var front := ParseEntries(n - 1, ty, data, pos);
      ParsedHas(ty.key, data, front.next);
      var k := Parse(ty.key, data, front.next);
      ParsedHas(ty.mapped, data, k.next);
      var m := Parse(ty.mapped, data, k.next);
      if front.Got? && k.Got? && m.Got? {
        var e := Entry(k.value, m.value);
        InsertIsMapInsert(front.value, e, ty.less, ty.key);
        var all := Insert(front.value, e, ty.less);
        forall i | 0 <= i < |all|
          ensures Has(all[i].key, ty.key) && Has(all[i].mapped, ty.mapped)
        {
          assert all[i] in all;
        }
      }
    }
  }

  /** Every value takes at least a byte, so a count never exceeds the bytes that follow it. */
  lemma {:induction false} EncodeIsNotEmpty(v: Val, ty: Ty)
    requires Has(v, ty)
    ensures |Encode(v, ty)| >= 1
  {
  }

  lemma {:induction false} ItemsTakeBytes(items: seq<Val>, n: nat, ty: Ty)
    requires ty.Vec? && AllHave(items, ty.elem) && n <= |items|
    ensures n <= |EncodeItems(items, n, ty)|
  {
    hide Encode;
    if n > 0 {
      ItemsTakeBytes(items, n - 1, ty);
      EncodeIsNotEmpty(items[n - 1], ty.elem);
    }
  }

  lemma {:induction false} EntriesTakeBytes(entries: seq<Entry>, n: nat, ty: Ty)
    requires ty.Map? && EntriesHave(entries, ty.key, ty.mapped) && n <= |entries|
    ensures n <= |EncodeEntries(entries, n, ty)|
  {
    hide Encode;
    if n > 0 {
      EntriesTakeBytes(entries, n - 1, ty);
      EncodeIsNotEmpty(entries[n - 1].key, ty.key);
    }
  }

  /** Whatever was written is read back, and the read position moves past it. */
  lemma {:induction false} ReadsBack(v: Val, ty: Ty, data: seq<Byte>, pos: nat)
    requires Has(v, ty) && NulFree(v, ty) && At(data, pos, Encode(v, ty)) && |data| < 0x1_0000_0000
    ensures Parse(ty, data, pos) == Got(v, pos + |Encode(v, ty)|)
    decreases ty, 1, 0
  {
    hide At, EncodeItems, EncodeEntries, ParseScalar, ParseText, LittleEndian, ParseItems, ParseEntries;
    match ty
    case Scalar(w) =>
      ScalarAt(v.n, w, data, pos);
    case Str =>
      TextAt(v.chars, data, pos);
    case Vec(_) =>
      var n := |v.items|;
      AtSplits(data, pos, Count(n), EncodeItems(v.items, n, ty));
      ItemsTakeBytes(v.items, n, ty);
      CountAt(n, data, pos);
      ItemsReadBack(v.items, n, ty, data, pos + 4);
      assert v.items[..n] == v.items;
    case Map(_, _, _) =>
      var n := |v.entries|;
      AtSplits(data, pos, Count(n), EncodeEntries(v.entries, n, ty));
      EntriesTakeBytes(v.entries, n, ty);
      CountAt(n, data, pos);
      EntriesReadBack(v.entries, n, ty, data, pos + 4);
      assert v.entries[..n] == v.entries;
  }

  lemma {:induction false} ItemsReadBack(items: seq<Val>, n: nat, ty: Ty, data: seq<Byte>, pos: nat)
    requires ty.Vec? && AllHave(items, ty.elem) && n <= |items| && |data| < 0x1_0000_0000
    requires forall i :: 0 <= i < |items| ==> NulFree(items[i], ty.elem)
    requires At(data, pos, EncodeItems(items, n, ty))
    ensures ParseItems(n, ty, data, pos) == Got(items[..n], pos + |EncodeItems(items, n, ty)|)
    decreases ty, 0, n
  {
    hide At, Encode, Parse, Has, NulFree, LittleEndian;
    if n > 0 {
      var front, last := EncodeItems(items, n - 1, ty), Encode(items[n - 1], ty.elem);
      AtSplits(data, pos, front, last);
      ItemsReadBack(items, n - 1, ty, data, pos);
      ReadsBack(items[n - 1], ty.elem, data, pos + |front|);
      assert items[..n] == items[..n - 1] + [items[n - 1]];
    }
  }

  lemma {:induction false} EntriesReadBack(entries: seq<Entry>, n: nat, ty: Ty, data: seq<Byte>, pos: nat)
    requires ty.Map? && EntriesHave(entries, ty.key, ty.mapped) && n <= |entries| && |data| < 0x1_0000_0000
    requires Increasing(entries, ty.less)
    requires forall i :: 0 <= i < |entries| ==> NulFree(entries[i].key, ty.key) && NulFree(entries[i].mapped, ty.mapped)
    requires At(data, pos, EncodeEntries(entries, n, ty))
    ensures ParseEntries(n, ty, data, pos) == Got(entries[..n], pos + |EncodeEntries(entries, n, ty)|)
    decreases ty, 0, n
  {
    hide At, Encode, Parse, Has, NulFree, Insert, LittleEndian;
    if n > 0 {
      var e := entries[n - 1];
      var front, key, mapped := EncodeEntries(entries, n - 1, ty), Encode(e.key, ty.key), Encode(e.mapped, ty.mapped);
      AtSplits(data, pos, front + key, mapped);
      AtSplits(data, pos, front, key);
      EntriesReadBack(entries, n - 1, ty, data, pos);
      ReadsBack(e.key, ty.key, data, pos + |front|);
      ReadsBack(e.mapped, ty.mapped, data, pos + |front| + |key|);
      InsertLast(entries[..n - 1], e, ty.less);
      assert entries[..n] == entries[..n - 1] + [e];
    }
  }

  /** A string is read back exactly when it holds no NUL. */
  lemma NulCutsText(chars: seq<Byte>, data: seq<Byte>, pos: nat)
    requires At(data, pos, chars + [0])
    ensures ParseText(data, pos) == Got(chars, pos + |chars| + 1) <==> 0 !in chars
  {
    if 0 in chars {
      AtSplits(data, pos, chars, [0]);
      NoNulBefore(data, pos);
      var i :| 0 <= i < |chars| && chars[i] == 0;
      assert data[pos + i] == data[pos..pos + |chars|][i];
    } else {
      TextAt(chars, data, pos);
    }
  }

  lemma {:induction false} NoNulBefore(data: seq<Byte>, pos: nat)
    requires pos <= |data|
    ensures forall i :: pos <= i < FirstNul(data, pos) ==> data[i] != 0
    decreases |data| - pos
  {
    if pos < |data| && data[pos] != 0 {
      NoNulBefore(data, pos + 1);
    }
  }

  /** Whatever the bytes are, a read moves forward and never past the end. */
  lemma {:induction false} ParseStaysInside(ty: Ty, data: seq<Byte>, pos: nat)
    requires pos <= |data|
    ensures pos <= Parse(ty, data, pos).next <= |data|
    decreases ty, 1, 0
  {
    hide FirstNul, FromLittleEndian;
    var c := ParseScalar(4, data, pos);
    if c.Got? {
      if ty.Vec? {
        ItemsStayInside(c.value, ty, data, c.next);
      } else if ty.Map? {
        EntriesStayInside(c.value, ty, data, c.next);
      }
    }
  }

  lemma {:induction false} ItemsStayInside(n: nat, ty: Ty, data: seq<Byte>, pos: nat)
    requires ty.Vec? && pos <= |data|
    ensures pos <= ParseItems(n, ty, data, pos).next <= |data|
    decreases ty, 0, n
  {
    hide Parse;
    if n > 0 {
      ItemsStayInside(n - 1, ty, data, pos);
      ParseStaysInside(ty.elem, data, ParseItems(n - 1, ty, data, pos).next);
    }
  }

  lemma {:induction false} EntriesStayInside(n: nat, ty: Ty, data: seq<Byte>, pos: nat)
    requires ty.Map? && pos <= |data|
    ensures pos <= ParseEntries(n, ty, data, pos).next <= |data|
    decreases ty, 0, n
  {
    hide Parse, Insert;
    if n > 0 {
      EntriesStayInside(n - 1, ty, data, pos);
      var front := ParseEntries(n - 1, ty, data, pos);
      ParseStaysInside(ty.key, data, front.next);
      ParseStaysInside(ty.mapped, data, Parse(ty.key, data, front.next).next);
    }
  }

  // A message: values of any types, one after the other.

  datatype Field = Field(value: Val, ty: Ty)

  predicate WellTyped(fields: seq<Field>) {
    forall i :: 0 <= i < |fields| ==> Has(fields[i].value, fields[i].ty)
  }

  predicate AllNulFree(fields: seq<Field>)
    requires WellTyped(fields)
  {
    forall i :: 0 <= i < |fields| ==> NulFree(fields[i].value, fields[i].ty)
  }

  /** The first n fields. */
  function EncodeFields(fields: seq<Field>, n: nat): seq<Byte>
    requires WellTyped(fields) && n <= |fields|
  {
    if n == 0 then [] else EncodeFields(fields, n - 1) + Encode(fields[n - 1].value, fields[n - 1].ty)
  }

  /** The first n types read one after the other. */
  function ParseFields(types: seq<Ty>, n: nat, data: seq<Byte>, pos: nat): (o: Outcome<seq<Val>>)
    requires n <= |types|
    ensures o.Got? ==> |o.value| == n
  {
    if n == 0 then Got([], pos)
    else
      var front := ParseFields(types, n - 1, data, pos);
      if front.Thrown? then front
      else
        var last := Parse(types[n - 1], data, front.next);
        if last.Thrown? then Thrown(last.next) else Got(front.value + [last.value], last.next)
  }

  function TypesOf(fields: seq<Field>): (t: seq<Ty>)
    ensures |t| == |fields|
  {
    seq(|fields|, i requires 0 <= i < |fields| => fields[i].ty)
  }

  function ValuesOf(fields: seq<Field>): (v: seq<Val>)
    ensures |v| == |fields|
  {
    seq(|fields|, i requires 0 <= i < |fields| => fields[i].value)
  }

  lemma {:induction false} FieldsThrow(types: seq<Ty>, i: nat, n: nat, data: seq<Byte>, pos: nat)
    requires i <= n <= |types| && ParseFields(types, i, data, pos).Thrown?
    ensures ParseFields(types, n, data, pos) == ParseFields(types, i, data, pos)
  {
    hide Parse;
    if i < n {
      FieldsThrow(types, i, n - 1, data, pos);
    }
  }

  /** A whole message reads back as it was written. */
  lemma {:induction false} FieldsReadBack(fields: seq<Field>, n: nat, data: seq<Byte>, pos: nat)
    requires WellTyped(fields) && n <= |fields| && |data| < 0x1_0000_0000
    requires AllNulFree(fields) && At(data, pos, EncodeFields(fields, n))
    ensures ParseFields(TypesOf(fields), n, data, pos) == Got(ValuesOf(fields)[..n], pos + |EncodeFields(fields, n)|)
  {
    hide At, Encode, Parse, Has, NulFree, LittleEndian;
    if n > 0 {
      var f := fields[n - 1];
      AtSplits(data, pos, EncodeFields(fields, n - 1), Encode(f.value, f.ty));
      FieldsReadBack(fields, n - 1, data, pos);
      ReadsBack(f.value, f.ty, data, pos + |EncodeFields(fields, n - 1)|);
      assert ValuesOf(fields)[..n] == ValuesOf(fields)[..n - 1] + [f.value];
    }
  }
}
