/**
 The canonical encoding of BSON values, tag by tag and byte by byte
 (audit-service/src/audit/oplog_canon.rs). Tags and widths are written out here.
 */
module BsonFormat {
  import opened ByteStrings
  import opened CanonicalBson

  /** Four bytes, the lowest first. */
  lemma FourBytes(n: nat)
    ensures LittleEndian(n, 4) == [(n % 256) as Byte, (n / 256 % 256) as Byte,
                                   (n / 0x1_0000 % 256) as Byte, (n / 0x100_0000 % 256) as Byte]
  {
    Shifts(n);
    var a, b, c := n / 256, n / 0x1_0000, n / 0x100_0000;
    assert LittleEndian(c, 1) == [(c % 256) as Byte] by {
      assert LittleEndian(c / 256, 0) == [];
    }
    assert LittleEndian(b, 2) == [(b % 256) as Byte] + LittleEndian(c, 1);
    assert LittleEndian(a, 3) == [(a % 256) as Byte] + LittleEndian(b, 2);
  }

  lemma Shifts(n: nat)
    ensures n / 256 / 256 == n / 0x1_0000 && n / 0x1_0000 / 256 == n / 0x100_0000
  {
  }

  /** Byte `k` of any width is the digit of 256 to the power `k`. */
  lemma {:induction false} ByteAt(n: nat, width: nat, k: nat)
    requires k < width
    ensures LittleEndian(n, width)[k] as int == n / Pow256(k) % 256
    decreases k
  {
    if k > 0 {
      ByteAt(n / 256, width - 1, k - 1);
      DivideTwice(n, Pow256(k - 1));
    }
  }

  lemma DivideTwice(n: nat, p: nat)
    requires p > 0
    ensures n / 256 / p == n / (256 * p)
  {
    var q, r := n / 256 / p, n / 256 % p;
    assert n / 256 == q * p + r;
    assert n == q * (256 * p) + (256 * r + n % 256);
    QuotientOf(n, 256 * p, q, 256 * r + n % 256);
  }

  lemma QuotientOf(n: nat, d: nat, q: nat, r: nat)
    requires d > 0 && r < d && n == q * d + r
    ensures n / d == q
  {
    var x := n / d - q;
    assert x * d == r - n % d;
    assert x >= 1 ==> x * d >= d;
    assert x < 0 ==> x * d <= 0 - d;
  }

  function Four(n: int): Bytes {
    LittleEndian(n % 0x1_0000_0000, 4)
  }

  function Eight(n: int): Bytes {
    LittleEndian(n % 0x1_0000_0000_0000_0000, 8)
  }

  /** A text: its length in four bytes, then its bytes. */
  function Text(s: Bytes): Bytes {
    Four(|s|) + s
  }

  /**
   The documented table of tags and payloads, first numbers; a negative one is written as its remainder
   modulo 2^32 or 2^64.
   */
  lemma NumberFormat(i: I32, l: I64, bits: U64, ms: I64)
    ensures Canon(Int32(i)) == [0x03] + Four(i)
    ensures Canon(Int64(l)) == [0x04] + Eight(l)
    ensures Canon(Double(bits)) == [0x05] + Eight(CanonicalBits(bits))
    ensures Canon(DateTime(ms)) == [0x08] + Eight(ms)
  {
    assert Canon(Int32(i)) == [TAG_INT32] + I32Bytes(i) && Canon(Int64(l)) == [TAG_INT64] + I64Bytes(l);
    assert Canon(Double(bits)) == [TAG_DOUBLE] + U64Bytes(CanonicalBits(bits));
    assert Canon(DateTime(ms)) == [TAG_DATE_TIME] + I64Bytes(ms);
    SignedBytes(i, l);
    SignedBytes(i, ms);
    UnsignedBytes(CanonicalBits(bits));
  }

  lemma SignedBytes(i: I32, l: I64)
    ensures I32Bytes(i) == Four(i) && I64Bytes(l) == Eight(l)
  {
  }

  lemma UnsignedBytes(bits: U64)
    ensures U64Bytes(bits) == Eight(bits)
  {
    SmallRemainder(bits, TWO64);
  }

  lemma SmallRemainder(n: nat, d: nat)
    requires n < d
    ensures n % d == n
  {
  }

  /** Other values of fixed width. */
  lemma FixedFormat(b: bool, oid: Bytes12, time: U32, increment: U32, dec: Bytes16)
    ensures Canon(Null) == [0x01] && Canon(Boolean(b)) == [0x02, if b then 1 else 0]
    ensures Canon(ObjectId(oid)) == [0x07] + oid && Canon(Decimal128(dec)) == [0x0E] + dec
    ensures Canon(Timestamp(time, increment)) == [0x09] + (Four(time) + Four(increment))
  {
  }

  /** Texts; what is not expected in an oplog is written as one. */
  lemma TextFormat(s: Bytes, t: Bytes, subtype: Byte, scope: seq<Keyed<Bson>>)
    ensures Canon(Str(s)) == [0x06] + Text(s)
    ensures Canon(Binary(subtype, s)) == [0x0A] + ([subtype] + Text(s))
    ensures Canon(Regex(s, t)) == [0x0B] + (Text(s) + Text(t))
    ensures Canon(JavaScriptCode(s)) == Canon(Symbol(s)) == [0x06] + Text(s)
    ensures Canon(CodeWithScope(s, scope)) == Canon(Other(s)) == [0x06] + Text(s)
  {
  }

  /** Lists. */
  lemma ContainerFormat(items: seq<Bson>, fields: seq<Keyed<Bson>>)
    ensures Canon(Array(items)) == [0x0C] + (Four(|items|) + CanonAll(items))
    ensures Canon(Document(fields)) == [0x0D] + (Four(|fields|) + Emit(Sort(Pairs(fields))))
  {
  }

  /** A document's pairs: every field's key with the bytes of its value. */
  lemma {:induction false} PairsFormat(fields: seq<Keyed<Bson>>)
    ensures |Pairs(fields)| == |fields|
    ensures forall i :: 0 <= i < |fields| ==> Pairs(fields)[i] == Keyed(fields[i].key, Canon(fields[i].value))
  {
    forall i | 0 <= i < |fields|
      ensures Pairs(fields)[i] == Keyed(fields[i].key, Canon(fields[i].value))
    {
      PairAt(fields, i);
    }
  }

  /** Elements one after the other; fields as the text of their name and their value. */
  lemma ListFormat(v: Bson, items: seq<Bson>, key: Bytes, fields: seq<Keyed<Bytes>>, value: Bytes)
    ensures CanonAll([]) == [] && CanonAll([v] + items) == Canon(v) + CanonAll(items)
    ensures Emit([]) == [] && Emit([Keyed(key, value)] + fields) == Text(key) + (value + Emit(fields))
  {
    assert ([v] + items)[1..] == items;
    assert ([Keyed(key, value)] + fields)[1..] == fields;
  }

  /** A double is written as its bits, but all NaNs as one: exponent all ones and a non-zero fraction. */
  lemma NaNFormat(bits: U64)
    ensures var exponent, fraction := bits / 0x10_0000_0000_0000 % 0x800, bits % 0x10_0000_0000_0000;
      CanonicalBits(bits) == if exponent == 0x7ff && fraction != 0 then 0x7ff8_0000_0000_0000 else bits
  {
  }

  /** Sorting keeps the pairs and puts the keys in byte order. */
  lemma SortFormat(pairs: seq<Keyed<Bytes>>)
    ensures multiset(Sort(pairs)) == multiset(pairs)
    ensures forall i, j :: 0 <= i < j < |pairs| ==> Le(Sort(pairs)[i].key, Sort(pairs)[j].key)
  {
    SortMultiset(pairs);
    SortSorted(pairs);
    SortedPairwise(Sort(pairs));
  }

  lemma {:induction false} SortedPairwise(s: seq<Keyed<Bytes>>)
    requires Sorted(s)
    ensures forall i, j :: 0 <= i < j < |s| ==> Le(s[i].key, s[j].key)
  {
    forall i, j | 0 <= i < j < |s|
      ensures Le(s[i].key, s[j].key)
    {
      SortedTail(s, i);
      SortedHead(s[i..], s[j]);
    }
  }

  lemma {:induction false} SortedTail(s: seq<Keyed<Bytes>>, i: nat)
    requires Sorted(s) && i <= |s|
    ensures Sorted(s[i..])
  {
    if i > 0 {
      SortedTail(s[1..], i - 1);
      assert s[1..][i - 1..] == s[i..];
    }
  }

  /** Byte order: the first byte that differs decides, and a prefix comes first. */
  lemma {:induction false} LeMeans(a: Bytes, b: Bytes)
    ensures Le(a, b) <==> a <= b || exists k :: 0 <= k < |a| && k < |b| && a[..k] == b[..k] && a[k] < b[k]
  {
    if a != [] && b != [] && a[0] == b[0] {
      LeMeans(a[1..], b[1..]);
      if k :| 0 <= k < |a| && k < |b| && a[..k] == b[..k] && a[k] < b[k] {
        assert k > 0;
        assert a[1..][..k - 1] == a[..k][1..] && b[1..][..k - 1] == b[..k][1..];
        assert a[1..][k - 1] < b[1..][k - 1];
      }
      if k :| 0 <= k < |a[1..]| && k < |b[1..]| && a[1..][..k] == b[1..][..k] && a[1..][k] < b[1..][k] {
        assert a[..k + 1] == [a[0]] + a[1..][..k] && b[..k + 1] == [b[0]] + b[1..][..k];
        assert a[k + 1] < b[k + 1];
      }
      assert a == [a[0]] + a[1..] && b == [b[0]] + b[1..];
    } else if a != [] && b != [] && a[0] < b[0] {
      assert a[..0] == b[..0];
    }
  }
}
