/**
 Canonical bytes of BSON values and oplog entries (audit-service/src/audit/oplog_canon.rs).
 Strings are their UTF-8 bytes; lengths are truncated to 32 bits as the code's casts do.
 */
module CanonicalBson {
  import opened ByteStrings
  import opened Options
  import opened Sequences

  const TWO32 := 0x1_0000_0000
  const TWO64 := 0x1_0000_0000_0000_0000

  type U32 = n: int | 0 <= n < TWO32
  type I32 = n: int | -0x8000_0000 <= n < 0x8000_0000
  type U64 = n: int | 0 <= n < TWO64
  type I64 = n: int | -0x8000_0000_0000_0000 <= n < 0x8000_0000_0000_0000

  datatype Keyed<T> = Keyed(key: Bytes, value: T)

  datatype Bson =
    | Null
    | Boolean(b: bool)
    | Int32(i: I32)
    | Int64(l: I64)
    | Double(bits: U64)
    | Str(s: Bytes)
    | ObjectId(oid: Bytes12)
    | DateTime(ms: I64)
    | Timestamp(time: U32, increment: U32)
    | Binary(subtype: Byte, data: Bytes)
    | Regex(pattern: Bytes, options: Bytes)
    | Array(items: seq<Bson>)
    | Document(fields: seq<Keyed<Bson>>)
    | Decimal128(dec: Bytes16)
    | JavaScriptCode(code: Bytes)
    | Symbol(symbol: Bytes)
    | CodeWithScope(scoped: Bytes, scope: seq<Keyed<Bson>>)
    | Other(display: Bytes) // undefined, min/max key, DB pointer: written as their display text

  type Bytes12 = s: Bytes | |s| == 12 witness [0, 0, 0, 0, 0, 0, 0, 0, 0, 0, 0, 0]
  type Bytes16 = s: Bytes | |s| == 16 witness [0, 0, 0, 0, 0, 0, 0, 0, 0, 0, 0, 0, 0, 0, 0, 0]

  const CANONICAL_NAN: U64 := 0x7ff8_0000_0000_0000

  predicate IsNaN(bits: U64) {
    bits % 0x8000_0000_0000_0000 > 0x7ff0_0000_0000_0000
  }

  function CanonicalBits(bits: U64): U64 {
    if IsNaN(bits) then CANONICAL_NAN else bits
  }

  // ----- Integers, little-endian -----

  function LittleEndian(n: nat, width: nat): (r: Bytes)
    ensures |r| == width
  {
    if width == 0 then [] else [(n % 256) as Byte] + LittleEndian(n / 256, width - 1)
  }

  function FromLittleEndian(s: Bytes): nat {
    if s == [] then 0 else s[0] as int + 256 * FromLittleEndian(s[1..])
  }

  function Pow256(k: nat): (p: nat)
    ensures p >= 1
  {
    if k == 0 then 1 else 256 * Pow256(k - 1)
  }

  lemma {:induction false} LittleEndianReads(n: nat, width: nat)
    requires n < Pow256(width)
    ensures FromLittleEndian(LittleEndian(n, width)) == n
  {
    if width > 0 {
      LittleEndianReads(n / 256, width - 1);
      assert LittleEndian(n, width)[1..] == LittleEndian(n / 256, width - 1);
    }
  }

  lemma LittleEndianInjective(m: nat, n: nat, width: nat)
    requires m < Pow256(width) && n < Pow256(width) && LittleEndian(m, width) == LittleEndian(n, width)
    ensures m == n
  {
    LittleEndianReads(m, width);
    LittleEndianReads(n, width);
  }

  lemma Widths()
    ensures Pow256(4) == TWO32 && Pow256(8) == TWO64
  {
    assert Pow256(1) == 256 && Pow256(2) == 0x1_0000 && Pow256(3) == 0x100_0000;
    assert Pow256(5) == 0x100_0000_0000 && Pow256(6) == 0x1_0000_0000_0000 && Pow256(7) == 0x100_0000_0000_0000;
  }

  function U32Bytes(n: U32): Bytes { LittleEndian(n, 4) }

  function U64Bytes(n: U64): Bytes { LittleEndian(n, 8) }

  function I32Bytes(n: I32): Bytes { U32Bytes(n % TWO32) }

  function I64Bytes(n: I64): Bytes { U64Bytes(n % TWO64) }

  /** A length, cast to 32 bits. */
  function Len(n: nat): Bytes { U32Bytes(n % TWO32) }

  /** Bytes after their length. */
  function Counted(s: Bytes): Bytes { Len(|s|) + s }

  lemma U32Injective(m: U32, n: U32)
    requires U32Bytes(m) == U32Bytes(n)
    ensures m == n
  {
    Widths();
    LittleEndianInjective(m, n, 4);
  }

  lemma U64Injective(m: U64, n: U64)
    requires U64Bytes(m) == U64Bytes(n)
    ensures m == n
  {
    Widths();
    LittleEndianInjective(m, n, 8);
  }

  lemma I32Injective(m: I32, n: I32)
    requires I32Bytes(m) == I32Bytes(n)
    ensures m == n
  {
    U32Injective(m % TWO32, n % TWO32);
  }

  lemma I64Injective(m: I64, n: I64)
    requires I64Bytes(m) == I64Bytes(n)
    ensures m == n
  {
    U64Injective(m % TWO64, n % TWO64);
  }

  // ----- Sorting by key -----

  /** Byte-wise lexicographic order, as Rust compares strings. */
  predicate Le(a: Bytes, b: Bytes) {
    a == [] || (b != [] && (a[0] < b[0] || (a[0] == b[0] && Le(a[1..], b[1..]))))
  }

  lemma {:induction false} LeTotal(a: Bytes, b: Bytes)
    ensures Le(a, b) || Le(b, a)
  {
    if a != [] && b != [] { LeTotal(a[1..], b[1..]); }
  }

  lemma {:induction false} LeTrans(a: Bytes, b: Bytes, c: Bytes)
    requires Le(a, b) && Le(b, c)
    ensures Le(a, c)
  {
    if a != [] && a[0] == b[0] == c[0] { LeTrans(a[1..], b[1..], c[1..]); }
  }

  lemma {:induction false} LeAntisymmetric(a: Bytes, b: Bytes)
    requires Le(a, b) && Le(b, a)
    ensures a == b
  {
    if a != [] {
      LeAntisymmetric(a[1..], b[1..]);
      assert a == [a[0]] + a[1..] && b == [b[0]] + b[1..];
    }
  }

  function Insert<T>(x: Keyed<T>, s: seq<Keyed<T>>): seq<Keyed<T>> {
    if s == [] || Le(x.key, s[0].key) then [x] + s else [s[0]] + Insert(x, s[1..])
  }

  /** The stable sort by key. */
  function Sort<T>(s: seq<Keyed<T>>): (r: seq<Keyed<T>>)
    ensures |r| == |s|
  {
    if s == [] then [] else
      var r := Insert(s[0], Sort(s[1..]));
      InsertLength(s[0], Sort(s[1..]));
      r
  }

  lemma {:induction false} InsertLength<T>(x: Keyed<T>, s: seq<Keyed<T>>)
    ensures |Insert(x, s)| == |s| + 1
  {
    if s != [] { InsertLength(x, s[1..]); }
  }

  predicate Sorted<T>(s: seq<Keyed<T>>) {
    s == [] || ((s[1..] == [] || Le(s[0].key, s[1].key)) && Sorted(s[1..]))
  }

  lemma {:induction false} InsertSorted<T>(x: Keyed<T>, s: seq<Keyed<T>>)
    requires Sorted(s)
    ensures Sorted(Insert(x, s))
  {
    if s != [] && !Le(x.key, s[0].key) {
      LeTotal(x.key, s[0].key);
      InsertSorted(x, s[1..]);
      assert Insert(x, s)[1..] == Insert(x, s[1..]);
    } else {
      assert ([x] + s)[1..] == s;
    }
  }

  lemma {:induction false} SortSorted<T>(s: seq<Keyed<T>>)
    ensures Sorted(Sort(s))
  {
    if s != [] {
      SortSorted(s[1..]);
      InsertSorted(s[0], Sort(s[1..]));
    }
  }

  lemma {:induction false} SortOfSorted<T>(s: seq<Keyed<T>>)
    requires Sorted(s)
    ensures Sort(s) == s
  {
    if s != [] {
      SortOfSorted(s[1..]);
    }
  }

  // ----- Canonical bytes -----

  const TAG_NULL: Byte := 1
  const TAG_BOOL: Byte := 2
  const TAG_INT32: Byte := 3
  const TAG_INT64: Byte := 4
  const TAG_DOUBLE: Byte := 5
  const TAG_STRING: Byte := 6
  const TAG_OBJECT_ID: Byte := 7
  const TAG_DATE_TIME: Byte := 8
  const TAG_TIMESTAMP: Byte := 9
  const TAG_BINARY: Byte := 10
  const TAG_REGEX: Byte := 11
  const TAG_ARRAY: Byte := 12
  const TAG_DOCUMENT: Byte := 13
  const TAG_DECIMAL128: Byte := 14

  function Canon(v: Bson): Bytes
    decreases v, 0
  {
    match v
    case Null => [TAG_NULL]
    case Boolean(b) => [TAG_BOOL, if b then 1 else 0]
    case Int32(n) => [TAG_INT32] + I32Bytes(n)
    case Int64(n) => [TAG_INT64] + I64Bytes(n)
    case Double(bits) => [TAG_DOUBLE] + U64Bytes(CanonicalBits(bits))
    case Str(s) => [TAG_STRING] + Counted(s)
    case ObjectId(oid) => [TAG_OBJECT_ID] + oid
    case DateTime(ms) => [TAG_DATE_TIME] + I64Bytes(ms)
    case Timestamp(time, increment) => [TAG_TIMESTAMP] + (U32Bytes(time) + U32Bytes(increment))
    case Binary(subtype, data) => [TAG_BINARY] + ([subtype] + Counted(data))
    case Regex(pattern, options) => [TAG_REGEX] + (Counted(pattern) + Counted(options))
    case Array(items) => [TAG_ARRAY] + (Len(|items|) + CanonAll(items))
    case Document(fields) => [TAG_DOCUMENT] + DocumentBody(fields)
    case Decimal128(dec) => [TAG_DECIMAL128] + dec
    case JavaScriptCode(s) => [TAG_STRING] + Counted(s)
    case Symbol(s) => [TAG_STRING] + Counted(s)
    case CodeWithScope(s, _) => [TAG_STRING] + Counted(s)
    case Other(s) => [TAG_STRING] + Counted(s)
  }

  /** The number of fields, then their keys and values, sorted by key. */
  function DocumentBody(fields: seq<Keyed<Bson>>): Bytes
    decreases fields, 1
  {
    Len(|fields|) + Emit(Sort(Pairs(fields)))
  }

  function CanonAll(items: seq<Bson>): Bytes
    decreases items, 0
  {
    if items == [] then [] else Canon(items[0]) + CanonAll(items[1..])
  }

  /** The (key, canonical value bytes) pairs of a document. */
  function Pairs(fields: seq<Keyed<Bson>>): (r: seq<Keyed<Bytes>>)
    ensures |r| == |fields| && forall i :: 0 <= i < |r| ==> r[i].key == fields[i].key
    decreases fields, 0
  {
    if fields == [] then []
    else [Keyed(fields[0].key, Canon(fields[0].value))] + Pairs(fields[1..])
  }

  function Emit(pairs: seq<Keyed<Bytes>>): Bytes {
    if pairs == [] then [] else Counted(pairs[0].key) + (pairs[0].value + Emit(pairs[1..]))
  }

  /** The buffer the encoder appends to. */
  class Buffer {
    var bytes: Bytes

    constructor ()
      ensures bytes == []
    {
      bytes := [];
    }

    method Push(b: Byte)
      modifies this
      ensures bytes == old(bytes) + [b]
    {
      bytes := bytes + [b];
    }

    method Extend(s: Bytes)
      modifies this
      ensures bytes == old(bytes) + s
    {
      bytes := bytes + s;
    }
  }

  method WriteCounted(buf: Buffer, tag: Byte, s: Bytes)
    modifies buf
    ensures buf.bytes == old(buf.bytes) + ([tag] + Counted(s))
  {
    buf.Push(tag);
    buf.Extend(Len(|s|));
    buf.Extend(s);
  }

  method WriteTagged(buf: Buffer, tag: Byte, s: Bytes)
    modifies buf
    ensures buf.bytes == old(buf.bytes) + ([tag] + s)
  {
    buf.Push(tag);
    buf.Extend(s);
  }

  /** `write_canonical_bson`: appends the canonical bytes and nothing else. */
  method WriteCanonicalBson(buf: Buffer, value: Bson)
    modifies buf
    ensures buf.bytes == old(buf.bytes) + Canon(value)
    decreases value
  {
    match value
    case Null => buf.Push(TAG_NULL);
    case Boolean(b) => WriteTagged(buf, TAG_BOOL, [if b then 1 else 0]);
    case Int32(n) => WriteTagged(buf, TAG_INT32, I32Bytes(n));
    case Int64(n) => WriteTagged(buf, TAG_INT64, I64Bytes(n));
    case Double(bits) => WriteTagged(buf, TAG_DOUBLE, U64Bytes(CanonicalBits(bits)));
    case Str(s) => WriteCounted(buf, TAG_STRING, s);
    case ObjectId(oid) => WriteTagged(buf, TAG_OBJECT_ID, oid);
    case DateTime(ms) => WriteTagged(buf, TAG_DATE_TIME, I64Bytes(ms));
    case Timestamp(time, increment) => WriteTagged(buf, TAG_TIMESTAMP, U32Bytes(time) + U32Bytes(increment));
    case Binary(subtype, data) => WriteTagged(buf, TAG_BINARY, [subtype] + Counted(data));
    case Regex(pattern, options) => WriteTagged(buf, TAG_REGEX, Counted(pattern) + Counted(options));
    case Array(items) => WriteArray(buf, items);
    case Document(fields) => WriteDocument(buf, fields);
    case Decimal128(dec) => WriteTagged(buf, TAG_DECIMAL128, dec);
    case JavaScriptCode(s) => WriteCounted(buf, TAG_STRING, s);
    case Symbol(s) => WriteCounted(buf, TAG_STRING, s);
    case CodeWithScope(s, _) => WriteCounted(buf, TAG_STRING, s);
    case Other(s) => WriteCounted(buf, TAG_STRING, s);
  }

  method WriteArray(buf: Buffer, items: seq<Bson>)
    modifies buf
    ensures buf.bytes == old(buf.bytes) + ([TAG_ARRAY] + (Len(|items|) + CanonAll(items)))
    decreases items
  {
    WriteTagged(buf, TAG_ARRAY, Len(|items|));
    ghost var start := buf.bytes;
    var i := 0;
    while i < |items|
      invariant 0 <= i <= |items|
      invariant buf.bytes + CanonAll(items[i..]) == start + CanonAll(items)
    {
      assert items[i..][1..] == items[i + 1..];
      PlusAssociates(buf.bytes, Canon(items[i]), CanonAll(items[i + 1..]));
      WriteCanonicalBson(buf, items[i]);
      i := i + 1;
    }
    assert buf.bytes == start + CanonAll(items) by { assert CanonAll(items[i..]) == []; }
  }

  method WriteDocument(buf: Buffer, fields: seq<Keyed<Bson>>)
    modifies buf
    ensures buf.bytes == old(buf.bytes) + ([TAG_DOCUMENT] + (Len(|fields|) + Emit(Sort(Pairs(fields)))))
    decreases fields, 1
  {
    var pairs := EncodePairs(fields);
    WriteTagged(buf, TAG_DOCUMENT, Len(|pairs|));
    WritePairs(buf, Sort(pairs));
    PlusAssociates(old(buf.bytes) + [TAG_DOCUMENT], Len(|fields|), Emit(Sort(pairs)));
  }

  /** Each value is encoded into a buffer of its own. */
  method EncodePairs(fields: seq<Keyed<Bson>>) returns (pairs: seq<Keyed<Bytes>>)
    ensures pairs == Pairs(fields)
    decreases fields, 0
  {
    pairs := [];
    var i := 0;
    while i < |fields|
      invariant 0 <= i <= |fields|
      invariant pairs + Pairs(fields[i..]) == Pairs(fields)
    {
      var b := new Buffer();
      WriteCanonicalBson(b, fields[i].value);
      PairsStep(fields, i, pairs);
      var pair := Keyed(fields[i].key, b.bytes);
      assert pair.value == Canon(fields[i].value);
      pairs := pairs + [pair];
      i := i + 1;
    }
    PairsDone(fields, pairs);
  }

  lemma PairsStep(fields: seq<Keyed<Bson>>, i: nat, done: seq<Keyed<Bytes>>)
    requires i < |fields|
    ensures done + Pairs(fields[i..]) == done + [Keyed(fields[i].key, Canon(fields[i].value))] + Pairs(fields[i + 1..])
  {
    assert fields[i..][1..] == fields[i + 1..];
  }

  lemma PairsDone(fields: seq<Keyed<Bson>>, done: seq<Keyed<Bytes>>)
    ensures done + Pairs(fields[|fields|..]) == done
  {
  }

  lemma EmitStep(done: Bytes, pairs: seq<Keyed<Bytes>>, j: nat)
    requires j < |pairs|
    ensures done + Emit(pairs[j..]) == done + Counted(pairs[j].key) + pairs[j].value + Emit(pairs[j + 1..])
  {
    assert pairs[j..][1..] == pairs[j + 1..];
    PlusAssociates(done, Counted(pairs[j].key), pairs[j].value + Emit(pairs[j + 1..]));
    PlusAssociates(done + Counted(pairs[j].key), pairs[j].value, Emit(pairs[j + 1..]));
  }

  method WritePairs(buf: Buffer, pairs: seq<Keyed<Bytes>>)
    modifies buf
    ensures buf.bytes == old(buf.bytes) + Emit(pairs)
  {
    var j := 0;
    while j < |pairs|
      invariant 0 <= j <= |pairs|
      invariant buf.bytes + Emit(pairs[j..]) == old(buf.bytes) + Emit(pairs)
    {
      EmitStep(buf.bytes, pairs, j);
      buf.Extend(Len(|pairs[j].key|) + pairs[j].key);
      buf.Extend(pairs[j].value);
      j := j + 1;
    }
    assert buf.bytes + Emit(pairs[j..]) == buf.bytes;
  }

  // ----- The value the bytes stand for -----

  /** What the encoding does not distinguish is made equal: NaNs, kinds of text, and the order of fields. */
  function Norm(v: Bson): Bson
    decreases v, 0
  {
    match v
    case Double(bits) => Double(CanonicalBits(bits))
    case Array(items) => Array(NormAll(items))
    case Document(fields) => Document(Sort(NormFields(fields)))
    case JavaScriptCode(s) => Str(s)
    case Symbol(s) => Str(s)
    case CodeWithScope(s, _) => Str(s)
    case Other(s) => Str(s)
    case _ => v
  }

  function NormAll(items: seq<Bson>): (r: seq<Bson>)
    ensures |r| == |items|
    decreases items, 0
  {
    if items == [] then [] else [Norm(items[0])] + NormAll(items[1..])
  }

  function NormFields(fields: seq<Keyed<Bson>>): (r: seq<Keyed<Bson>>)
    ensures |r| == |fields|
    decreases fields, 0
  {
    if fields == [] then [] else [Keyed(fields[0].key, Norm(fields[0].value))] + NormFields(fields[1..])
  }

  /** Every length fits in 32 bits, so that no cast truncates. */
  predicate Fits(v: Bson)
    decreases v, 0
  {
    match v
    case Str(s) => |s| < TWO32
    case Binary(_, data) => |data| < TWO32
    case Regex(pattern, options) => |pattern| < TWO32 && |options| < TWO32
    case Array(items) => |items| < TWO32 && AllFit(items)
    case Document(fields) => |fields| < TWO32 && FieldsFit(fields)
    case JavaScriptCode(s) => |s| < TWO32
    case Symbol(s) => |s| < TWO32
    case CodeWithScope(s, _) => |s| < TWO32
    case Other(s) => |s| < TWO32
    case _ => true
  }

  predicate AllFit(items: seq<Bson>)
    decreases items, 0
  {
    items == [] || (Fits(items[0]) && AllFit(items[1..]))
  }

  predicate FieldsFit(fields: seq<Keyed<Bson>>)
    decreases fields, 0
  {
    fields == [] || (|fields[0].key| < TWO32 && Fits(fields[0].value) && FieldsFit(fields[1..]))
  }

  // ----- Encoding the normal form gives the same bytes -----

  lemma {:induction false} PairsInsert(x: Keyed<Bson>, s: seq<Keyed<Bson>>)
    ensures Pairs(Insert(x, s)) == Insert(Keyed(x.key, Canon(x.value)), Pairs(s))
  {
    if s == [] || Le(x.key, s[0].key) {
      assert ([x] + s)[1..] == s;
    } else {
      PairsInsert(x, s[1..]);
      assert Insert(x, s)[1..] == Insert(x, s[1..]);
      assert Pairs(s)[1..] == Pairs(s[1..]);
    }
  }

  /** Sorting the fields or the encoded pairs is the same. */
  lemma {:induction false} PairsSort(s: seq<Keyed<Bson>>)
    ensures Pairs(Sort(s)) == Sort(Pairs(s))
  {
    if s != [] {
      PairsSort(s[1..]);
      PairsInsert(s[0], Sort(s[1..]));
      assert Pairs(s)[1..] == Pairs(s[1..]);
    }
  }

  lemma DocumentCanon(fields: seq<Keyed<Bson>>)
    ensures Canon(Document(fields)) == Canon(Document(Sort(fields)))
  {
    PairsSort(fields);
    SortSorted(fields);
    SortOfSorted(Sort(fields));
    PairsSort(Sort(fields));
  }

  lemma {:induction false} CanonNorm(v: Bson)
    ensures Canon(Norm(v)) == Canon(v)
    decreases v, 0
  {
    match v
    case Array(items) => CanonNormAll(items);
    case Document(fields) =>
      DocumentCanon(NormFields(fields));
      PairsNorm(fields);
    case _ =>
  }

  lemma {:induction false} CanonNormAll(items: seq<Bson>)
    ensures CanonAll(NormAll(items)) == CanonAll(items)
    decreases items, 0
  {
    if items != [] {
      CanonNorm(items[0]);
      CanonNormAll(items[1..]);
      assert NormAll(items)[1..] == NormAll(items[1..]);
    }
  }

  lemma {:induction false} PairsNorm(fields: seq<Keyed<Bson>>)
    ensures Pairs(NormFields(fields)) == Pairs(fields)
    decreases fields, 0
  {
    if fields != [] {
      CanonNorm(fields[0].value);
      PairsNorm(fields[1..]);
      assert NormFields(fields)[1..] == NormFields(fields[1..]);
    }
  }

  // ----- Normal values can be read back: no two share their bytes, or a prefix -----

  predicate Normal(v: Bson)
    decreases v, 0
  {
    match v
    case Double(bits) => CanonicalBits(bits) == bits
    case Array(items) => AllNormal(items)
    case Document(fields) => Sorted(fields) && FieldsNormal(fields)
    case JavaScriptCode(_) => false
    case Symbol(_) => false
    case CodeWithScope(_, _) => false
    case Other(_) => false
    case _ => true
  }

  predicate AllNormal(items: seq<Bson>)
    decreases items, 0
  {
    items == [] || (Normal(items[0]) && AllNormal(items[1..]))
  }

  predicate FieldsNormal(fields: seq<Keyed<Bson>>)
    decreases fields, 0
  {
    fields == [] || (Normal(fields[0].value) && FieldsNormal(fields[1..]))
  }

  lemma {:induction false} NormNormal(v: Bson)
    ensures Normal(Norm(v)) && (Fits(v) ==> Fits(Norm(v)))
    decreases v, 0
  {
    match v
    case Array(items) => NormAllNormal(items);
    case Document(fields) =>
      NormFieldsNormal(fields);
      SortSorted(NormFields(fields));
      SortKeeps(NormFields(fields));
    case _ =>
  }

  lemma {:induction false} NormAllNormal(items: seq<Bson>)
    ensures AllNormal(NormAll(items)) && (AllFit(items) ==> AllFit(NormAll(items)))
    decreases items, 0
  {
    if items != [] {
      NormNormal(items[0]);
      NormAllNormal(items[1..]);
      assert NormAll(items)[1..] == NormAll(items[1..]);
    }
  }

  lemma {:induction false} NormFieldsNormal(fields: seq<Keyed<Bson>>)
    ensures FieldsNormal(NormFields(fields)) && (FieldsFit(fields) ==> FieldsFit(NormFields(fields)))
    decreases fields, 0
  {
    if fields != [] {
      NormNormal(fields[0].value);
      NormFieldsNormal(fields[1..]);
      assert NormFields(fields)[1..] == NormFields(fields[1..]);
    }
  }

  lemma {:induction false} InsertKeeps(x: Keyed<Bson>, s: seq<Keyed<Bson>>)
    ensures FieldsNormal(Insert(x, s)) <==> Normal(x.value) && FieldsNormal(s)
    ensures FieldsFit(Insert(x, s)) <==> |x.key| < TWO32 && Fits(x.value) && FieldsFit(s)
  {
    if s == [] || Le(x.key, s[0].key) {
      assert ([x] + s)[1..] == s;
    } else {
      InsertKeeps(x, s[1..]);
      assert Insert(x, s)[1..] == Insert(x, s[1..]);
    }
  }

  lemma {:induction false} SortKeeps(s: seq<Keyed<Bson>>)
    ensures FieldsNormal(Sort(s)) <==> FieldsNormal(s)
    ensures FieldsFit(Sort(s)) <==> FieldsFit(s)
  {
    if s != [] {
      SortKeeps(s[1..]);
      InsertKeeps(s[0], Sort(s[1..]));
    }
  }

  lemma Peel(a: Bytes, x: Bytes, b: Bytes, y: Bytes)
    requires a + x == b + y && |a| == |b|
    ensures a == b && x == y
  {
    Cut(a, x);
    Cut(b, y);
  }

  /** Bytes after their length, followed by anything, determine the bytes and what follows. */
  lemma PeelCounted(s: Bytes, x: Bytes, t: Bytes, y: Bytes)
    requires Counted(s) + x == Counted(t) + y && |s| < TWO32 && |t| < TWO32
    ensures s == t && x == y
  {
    PlusAssociates(Len(|s|), s, x);
    PlusAssociates(Len(|t|), t, y);
    Peel(Len(|s|), s + x, Len(|t|), t + y);
    LenInjective(|s|, |t|);
    Peel(s, x, t, y);
  }

  /** The tag byte of a normal value determines its constructor. */
  function Tag(v: Bson): Byte {
    match v
    case Null => TAG_NULL
    case Boolean(_) => TAG_BOOL
    case Int32(_) => TAG_INT32
    case Int64(_) => TAG_INT64
    case Double(_) => TAG_DOUBLE
    case ObjectId(_) => TAG_OBJECT_ID
    case DateTime(_) => TAG_DATE_TIME
    case Timestamp(_, _) => TAG_TIMESTAMP
    case Binary(_, _) => TAG_BINARY
    case Regex(_, _) => TAG_REGEX
    case Array(_) => TAG_ARRAY
    case Document(_) => TAG_DOCUMENT
    case Decimal128(_) => TAG_DECIMAL128
    case _ => TAG_STRING
  }

  /** What follows the tag. */
  function Payload(v: Bson): Bytes {
    Canon(v)[1..]
  }

  lemma CanonTag(v: Bson)
    ensures Canon(v) == [Tag(v)] + Payload(v)
  {
  }

  /** Payloads of fixed-width values of one kind. */
  lemma FixedPayload(v: Bson, x: Bytes, w: Bson, y: Bytes)
    requires Normal(v) && Normal(w) && Tag(v) == Tag(w) && Payload(v) + x == Payload(w) + y
    requires v.Null? || v.Boolean? || v.Int32? || v.Int64? || v.Double? || v.ObjectId? || v.DateTime? || v.Decimal128?
    ensures v == w && x == y
  {
    Peel(Payload(v), x, Payload(w), y);
    match v
    case Int32(n) => I32Injective(n, w.i);
    case Int64(n) => I64Injective(n, w.l);
    case Double(bits) => U64Injective(bits, w.bits);
    case DateTime(ms) => I64Injective(ms, w.ms);
    case _ =>
  }

  lemma PairPayload(v: Bson, x: Bytes, w: Bson, y: Bytes)
    requires Fits(v) && Fits(w) && Normal(v) && Normal(w) && Tag(v) == Tag(w) && Payload(v) + x == Payload(w) + y
    requires v.Timestamp? || v.Binary? || v.Regex? || v.Str?
    ensures v == w && x == y
  {
    match v
    case Str(s) => PeelCounted(s, x, w.s, y);
    case Timestamp(t, i) =>
      Peel(Payload(v), x, Payload(w), y);
      Peel(U32Bytes(t), U32Bytes(i), U32Bytes(w.time), U32Bytes(w.increment));
      U32Injective(t, w.time);
      U32Injective(i, w.increment);
    case Binary(subtype, data) =>
      PlusAssociates([subtype], Counted(data), x);
      PlusAssociates([w.subtype], Counted(w.data), y);
      Peel([subtype], Counted(data) + x, [w.subtype], Counted(w.data) + y);
      assert [subtype][0] == [w.subtype][0];
      PeelCounted(data, x, w.data, y);
    case Regex(pattern, options) =>
      PlusAssociates(Counted(pattern), Counted(options), x);
      PlusAssociates(Counted(w.pattern), Counted(w.options), y);
      PeelCounted(pattern, Counted(options) + x, w.pattern, Counted(w.options) + y);
      PeelCounted(options, x, w.options, y);
    case _ =>
  }

  lemma {:induction false} PrefixFree(v: Bson, x: Bytes, w: Bson, y: Bytes)
    requires Fits(v) && Fits(w) && Normal(v) && Normal(w) && Canon(v) + x == Canon(w) + y
    ensures v == w && x == y
    decreases v, 0
  {
    CanonTag(v);
    CanonTag(w);
    PlusAssociates([Tag(v)], Payload(v), x);
    PlusAssociates([Tag(w)], Payload(w), y);
    Peel([Tag(v)], Payload(v) + x, [Tag(w)], Payload(w) + y);
    assert [Tag(v)][0] == [Tag(w)][0];
    match v
    case Array(items) =>
      SamePayload(Len(|items|), CanonAll(items), x, Len(|w.items|), CanonAll(w.items), y);
      LenInjective(|items|, |w.items|);
      PrefixFreeAll(items, x, w.items, y);
    case Document(fields) =>
      SortedDocument(fields);
      SortedDocument(w.fields);
      SamePayload(Len(|fields|), Emit(Pairs(fields)), x, Len(|w.fields|), Emit(Pairs(w.fields)), y);
      LenInjective(|fields|, |w.fields|);
      PrefixFreeFields(fields, x, w.fields, y);
    case Str(_) => PairPayload(v, x, w, y);
    case Timestamp(_, _) => PairPayload(v, x, w, y);
    case Binary(_, _) => PairPayload(v, x, w, y);
    case Regex(_, _) => PairPayload(v, x, w, y);
    case _ => FixedPayload(v, x, w, y);
  }

  lemma SamePayload(a: Bytes, b: Bytes, x: Bytes, c: Bytes, d: Bytes, y: Bytes)
    requires (a + b) + x == (c + d) + y && |a| == |c|
    ensures a == c && b + x == d + y
  {
    PlusAssociates(a, b, x);
    PlusAssociates(c, d, y);
    Peel(a, b + x, c, d + y);
  }

  lemma LenInjective(m: nat, n: nat)
    requires m < TWO32 && n < TWO32 && Len(m) == Len(n)
    ensures m == n
  {
    U32Injective(m, n);
  }

  lemma SortedDocument(fields: seq<Keyed<Bson>>)
    requires Sorted(fields)
    ensures Payload(Document(fields)) == Len(|fields|) + Emit(Pairs(fields))
  {
    assert Sort(Pairs(fields)) == Pairs(fields) by {
      SortOfSorted(fields);
      PairsSort(fields);
    }
    DocumentPayload(fields);
  }

  lemma DocumentPayload(fields: seq<Keyed<Bson>>)
    ensures Payload(Document(fields)) == Len(|fields|) + Emit(Sort(Pairs(fields)))
  {
    CanonDocument(fields);
    TaggedPayload(Document(fields), TAG_DOCUMENT, DocumentBody(fields));
  }

  lemma CanonDocument(fields: seq<Keyed<Bson>>)
    ensures Canon(Document(fields)) == [TAG_DOCUMENT] + DocumentBody(fields)
  {
  }

  lemma TaggedPayload(v: Bson, tag: Byte, body: Bytes)
    requires Canon(v) == [tag] + body
    ensures Payload(v) == body
  {
    var bytes := Canon(v);
    assert bytes[1..] == body;
  }

  lemma {:induction false} PrefixFreeAll(a: seq<Bson>, x: Bytes, b: seq<Bson>, y: Bytes)
    requires |a| == |b| && AllFit(a) && AllFit(b) && AllNormal(a) && AllNormal(b) && CanonAll(a) + x == CanonAll(b) + y
    ensures a == b && x == y
    decreases a, 0
  {
    if a != [] {
      PlusAssociates(Canon(a[0]), CanonAll(a[1..]), x);
      PlusAssociates(Canon(b[0]), CanonAll(b[1..]), y);
      PrefixFree(a[0], CanonAll(a[1..]) + x, b[0], CanonAll(b[1..]) + y);
      PrefixFreeAll(a[1..], x, b[1..], y);
      assert a == [a[0]] + a[1..] && b == [b[0]] + b[1..];
    } else {
      assert [] + x == x && [] + y == y;
    }
  }

  lemma EmitFirst(fields: seq<Keyed<Bson>>, x: Bytes)
    requires fields != []
    ensures Emit(Pairs(fields)) + x == Counted(fields[0].key)
      + (Canon(fields[0].value) + (Emit(Pairs(fields[1..])) + x))
  {
    assert Pairs(fields)[1..] == Pairs(fields[1..]);
    PlusAssociates(Counted(fields[0].key), Canon(fields[0].value) + Emit(Pairs(fields[1..])), x);
    PlusAssociates(Canon(fields[0].value), Emit(Pairs(fields[1..])), x);
  }

  lemma {:induction false} PrefixFreeFields(a: seq<Keyed<Bson>>, x: Bytes, b: seq<Keyed<Bson>>, y: Bytes)
    requires |a| == |b| && FieldsFit(a) && FieldsFit(b) && FieldsNormal(a) && FieldsNormal(b)
    requires Emit(Pairs(a)) + x == Emit(Pairs(b)) + y
    ensures a == b && x == y
    decreases a, 0
  {
    if a != [] {
      EmitFirst(a, x);
      EmitFirst(b, y);
      PeelCounted(a[0].key, Canon(a[0].value) + (Emit(Pairs(a[1..])) + x), b[0].key,
        Canon(b[0].value) + (Emit(Pairs(b[1..])) + y));
      PrefixFree(a[0].value, Emit(Pairs(a[1..])) + x, b[0].value, Emit(Pairs(b[1..])) + y);
      PrefixFreeFields(a[1..], x, b[1..], y);
      assert a == [a[0]] + a[1..] && b == [b[0]] + b[1..];
    } else {
      assert [] + x == x && [] + y == y;
    }
  }

  /**
   Two values have the same canonical bytes exactly when they have the same normal form. The comment
   that different values never share their bytes fails precisely on NaN bits, on the kinds of text that
   are written as strings, and on the order of a document's fields.
   */
  lemma CanonEqualIff(a: Bson, b: Bson)
    requires Fits(a) && Fits(b)
    ensures Canon(a) == Canon(b) <==> Norm(a) == Norm(b)
  {
    CanonNorm(a);
    CanonNorm(b);
    NormNormal(a);
    NormNormal(b);
    if Canon(a) == Canon(b) {
      assert Canon(Norm(a)) + [] == Canon(Norm(b)) + [];
      PrefixFree(Norm(a), [], Norm(b), []);
    }
  }

  /** A string and a symbol with the same text are different values with the same bytes. */
  lemma SymbolExample()
    ensures Canon(Str([120])) == Canon(Symbol([120])) && Str([120]) != Symbol([120])
  {
  }

  // ----- Field order does not matter -----

  predicate DistinctKeys<T>(s: seq<Keyed<T>>) {
    forall i, j :: 0 <= i < j < |s| ==> s[i].key != s[j].key
  }

  lemma {:induction false} InsertMultiset<T>(x: Keyed<T>, s: seq<Keyed<T>>)
    ensures multiset(Insert(x, s)) == multiset{x} + multiset(s)
  {
    if !(s == [] || Le(x.key, s[0].key)) {
      InsertMultiset(x, s[1..]);
      assert s == [s[0]] + s[1..];
    }
  }

  lemma {:induction false} SortMultiset<T>(s: seq<Keyed<T>>)
    ensures multiset(Sort(s)) == multiset(s)
  {
    if s != [] {
      SortMultiset(s[1..]);
      InsertMultiset(s[0], Sort(s[1..]));
      assert s == [s[0]] + s[1..];
    }
  }

  /** The head of a sorted list is least. */
  lemma {:induction false} SortedHead<T>(s: seq<Keyed<T>>, x: Keyed<T>)
    requires Sorted(s) && x in s
    ensures Le(s[0].key, x.key)
  {
    LeTotal(x.key, x.key);
    if x != s[0] {
      assert x in s[1..];
      SortedHead(s[1..], x);
      LeTrans(s[0].key, s[1].key, x.key);
    }
  }

  /** Equal keys mean equal elements. */
  ghost predicate KeyDetermines<T>(a: seq<Keyed<T>>) {
    forall i, j :: 0 <= i < |a| && 0 <= j < |a| && a[i].key == a[j].key ==> a[i] == a[j]
  }

  lemma SameHead<T>(a: seq<Keyed<T>>, b: seq<Keyed<T>>)
    requires Sorted(a) && Sorted(b) && multiset(a) == multiset(b) && KeyDetermines(a) && a != [] && b != []
    ensures a[0] == b[0]
  {
    assert a[0] in multiset(b) && b[0] in multiset(a);
    SortedHead(a, b[0]);
    SortedHead(b, a[0]);
    LeAntisymmetric(a[0].key, b[0].key);
  }

  lemma SameTails<T>(a: seq<Keyed<T>>, b: seq<Keyed<T>>)
    requires multiset(a) == multiset(b) && a != [] && b != [] && a[0] == b[0]
    ensures multiset(a[1..]) == multiset(b[1..])
  {
    assert a == [a[0]] + a[1..] && b == [b[0]] + b[1..];
    assert multiset(a[1..]) == multiset(a) - multiset{a[0]};
  }

  /** Two sorted lists with the same elements are equal when keys determine elements. */
  lemma {:induction false} SortedUnique<T>(a: seq<Keyed<T>>, b: seq<Keyed<T>>)
    requires Sorted(a) && Sorted(b) && multiset(a) == multiset(b) && KeyDetermines(a)
    ensures a == b
  {
    assert |a| == |multiset(a)| == |multiset(b)| == |b|;
    if a != [] {
      SameHead(a, b);
      SameTails(a, b);
      SortedUnique(a[1..], b[1..]);
      assert a == [a[0]] + a[1..] && b == [b[0]] + b[1..];
    }
  }

  /** Documents whose fields are a permutation of each other have the same bytes: keys in a document are distinct. */
  lemma FieldOrderIrrelevant(a: seq<Keyed<Bson>>, b: seq<Keyed<Bson>>)
    requires DistinctKeys(a) && multiset(a) == multiset(b)
    ensures Canon(Document(a)) == Canon(Document(b))
  {
    SortSorted(a);
    SortSorted(b);
    SortMultiset(a);
    SortMultiset(b);
    forall i, j | 0 <= i < |Sort(a)| && 0 <= j < |Sort(a)| && Sort(a)[i].key == Sort(a)[j].key
      ensures Sort(a)[i] == Sort(a)[j]
    {
      assert Sort(a)[i] in multiset(Sort(a)) && Sort(a)[j] in multiset(Sort(a));
      assert Sort(a)[i] in a && Sort(a)[j] in a;
    }
    SortedUnique(Sort(a), Sort(b));
    DocumentCanon(a);
    DocumentCanon(b);
    PairsSort(a);
    PairsSort(b);
    assert |a| == |Sort(a)| == |b|;
  }

  // ----- Oplog entries -----

  /** "ns", "o", "o2", "op", "t", "ts", "ui", "v". */
  const CANONICAL_FIELDS: seq<Bytes> :=
    [[110, 115], [111], [111, 50], [111, 112], [116], [116, 115], [117, 105], [118]]

  /** The value of the first field with the key. */
  function Lookup(entry: seq<Keyed<Bson>>, key: Bytes): (r: Option<Bson>)
    ensures r.Some? ==> exists i ::
      0 <= i < |entry| && entry[i] == Keyed(key, r.value) && forall j :: 0 <= j < i ==> entry[j].key != key
    ensures r.None? ==> forall i :: 0 <= i < |entry| ==> entry[i].key != key
  {
    if entry == [] then None
    else if entry[0].key == key then Some(entry[0].value)
    else Lookup(entry[1..], key)
  }

  /** The canonical fields an entry has, in the given order. */
  function Project(entry: seq<Keyed<Bson>>, keys: seq<Bytes>): (r: seq<Keyed<Bson>>)
    ensures |r| <= |keys|
  {
    if keys == [] then []
    else
      var v := Lookup(entry, keys[0]);
      (if v.Some? then [Keyed(keys[0], v.value)] else []) + Project(entry, keys[1..])
  }

  /** `canonicalize_oplog_entry`: the number of fields present, then each name and value. */
  method CanonicalizeOplogEntry(entry: seq<Keyed<Bson>>) returns (bytes: Bytes)
    ensures bytes == EntryBytes(entry)
  {
    var buf := new Buffer();
    var present := Project(entry, CANONICAL_FIELDS);
    var count := Len(|present|);
    buf.Extend(count);
    var i := 0;
    while i < |present|
      invariant 0 <= i <= |present|
      invariant buf.bytes + Emit(Pairs(present)[i..]) == count + Emit(Pairs(present))
    {
      EmitStep(buf.bytes, Pairs(present), i);
      PairAt(present, i);
      buf.Extend(Len(|present[i].key|) + present[i].key);
      WriteCanonicalBson(buf, present[i].value);
      i := i + 1;
    }
    assert buf.bytes + Emit(Pairs(present)[i..]) == buf.bytes;
    bytes := buf.bytes;
  }

  lemma {:induction false} PairAt(fields: seq<Keyed<Bson>>, i: nat)
    requires i < |fields|
    ensures Pairs(fields)[i] == Keyed(fields[i].key, Canon(fields[i].value))
  {
    if i > 0 {
      PairAt(fields[1..], i - 1);
    }
  }

  function EntryBytes(entry: seq<Keyed<Bson>>): Bytes {
    var present := Project(entry, CANONICAL_FIELDS);
    Len(|present|) + Emit(Pairs(present))
  }

  predicate KeysSorted(keys: seq<Bytes>) {
    forall i, j :: 0 <= i < j < |keys| ==> Le(keys[i], keys[j])
  }

  lemma CanonicalFieldsSorted()
    ensures KeysSorted(CANONICAL_FIELDS)
  {
    var f := CANONICAL_FIELDS;
    assert Le([], [50]) && Le([], [112]) && Le([50], [112]) && Le([], [115]);
    assert f[1][1..] == [] && f[2][1..] == [50] && f[3][1..] == [112] && f[4][1..] == [] && f[5][1..] == [115];
  }

  lemma SortedCons<T>(x: Keyed<T>, rest: seq<Keyed<T>>)
    requires Sorted(rest) && (rest == [] || Le(x.key, rest[0].key))
    ensures Sorted([x] + rest)
  {
    assert ([x] + rest)[1..] == rest;
  }

  lemma {:induction false} ProjectKeys(entry: seq<Keyed<Bson>>, keys: seq<Bytes>)
    ensures forall i :: 0 <= i < |Project(entry, keys)| ==> Project(entry, keys)[i].key in keys
  {
    if keys != [] {
      ProjectKeys(entry, keys[1..]);
    }
  }

  lemma {:induction false} ProjectSorted(entry: seq<Keyed<Bson>>, keys: seq<Bytes>)
    requires KeysSorted(keys)
    ensures Sorted(Project(entry, keys))
  {
    if keys != [] {
      var rest := Project(entry, keys[1..]);
      ProjectSorted(entry, keys[1..]);
      ProjectKeys(entry, keys[1..]);
      if Lookup(entry, keys[0]).Some? {
        if rest != [] {
          var j :| 0 <= j < |keys[1..]| && keys[1..][j] == rest[0].key;
          assert Le(keys[0], keys[j + 1]);
        }
        SortedCons(Keyed(keys[0], Lookup(entry, keys[0]).value), rest);
      } else {
        assert [] + rest == rest;
      }
    }
  }

  /** An entry's bytes are those of the document of its canonical fields, without the tag. */
  lemma EntryIsDocument(entry: seq<Keyed<Bson>>)
    ensures Canon(Document(Project(entry, CANONICAL_FIELDS))) == [TAG_DOCUMENT] + EntryBytes(entry)
  {
    CanonicalFieldsSorted();
    ProjectSorted(entry, CANONICAL_FIELDS);
    SortedDocument(Project(entry, CANONICAL_FIELDS));
    CanonTag(Document(Project(entry, CANONICAL_FIELDS)));
  }

  /** The part of an entry that its bytes determine. */
  function EntryMeaning(entry: seq<Keyed<Bson>>): Bson {
    Norm(Document(Project(entry, CANONICAL_FIELDS)))
  }

  predicate EntryFits(entry: seq<Keyed<Bson>>) {
    Fits(Document(Project(entry, CANONICAL_FIELDS)))
  }

  /** Two oplog entries have the same bytes exactly when their canonical fields have the same normal form. */
  lemma EntryBytesEqualIff(a: seq<Keyed<Bson>>, b: seq<Keyed<Bson>>)
    requires EntryFits(a) && EntryFits(b)
    ensures EntryBytes(a) == EntryBytes(b) <==> EntryMeaning(a) == EntryMeaning(b)
  {
    EntryIsDocument(a);
    EntryIsDocument(b);
    CanonEqualIff(Document(Project(a, CANONICAL_FIELDS)), Document(Project(b, CANONICAL_FIELDS)));
    if [TAG_DOCUMENT] + EntryBytes(a) == [TAG_DOCUMENT] + EntryBytes(b) {
      Peel([TAG_DOCUMENT], EntryBytes(a), [TAG_DOCUMENT], EntryBytes(b));
    }
  }

  lemma {:induction false} ProjectMembers(entry: seq<Keyed<Bson>>, keys: seq<Bytes>, f: Keyed<Bson>)
    ensures f in NormFields(Project(entry, keys))
      <==> f.key in keys && Lookup(entry, f.key).Some? && f.value == Norm(Lookup(entry, f.key).value)
  {
    if keys != [] {
      var rest := Project(entry, keys[1..]);
      ProjectMembers(entry, keys[1..], f);
      var v := Lookup(entry, keys[0]);
      if v.Some? {
        assert ([Keyed(keys[0], v.value)] + rest)[1..] == rest;
      } else {
        assert [] + rest == rest;
      }
    }
  }

  lemma MeaningMembers(entry: seq<Keyed<Bson>>, keys: seq<Bytes>, f: Keyed<Bson>)
    ensures Norm(Document(Project(entry, keys))).Document?
    ensures f in Norm(Document(Project(entry, keys))).fields
      <==> f.key in keys && Lookup(entry, f.key).Some? && f.value == Norm(Lookup(entry, f.key).value)
  {
    ProjectMembers(entry, keys, f);
    SortMembers(NormFields(Project(entry, keys)), f);
  }

  lemma SortMembers<T>(s: seq<Keyed<T>>, f: Keyed<T>)
    ensures f in Sort(s) <==> f in s
  {
    SortMultiset(s);
    assert f in Sort(s) <==> f in multiset(Sort(s));
    assert f in s <==> f in multiset(s);
  }
}
