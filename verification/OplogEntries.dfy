/**
 What the canonical bytes of an oplog entry are and what they tell, field by field
 (audit-service/src/audit/oplog_canon.rs). The names of the fields are written out here.
 */
module OplogEntries {
  import opened ByteStrings
  import opened CanonicalBson
  import opened Options
  import opened Sequences

  lemma FieldNames()
    ensures CANONICAL_FIELDS == [Ascii("ns"), Ascii("o"), Ascii("o2"), Ascii("op"),
                                 Ascii("t"), Ascii("ts"), Ascii("ui"), Ascii("v")]
  {
    assert Ascii("ns") == [110, 115] && Ascii("o") == [111] && Ascii("o2") == [111, 50] && Ascii("op") == [111, 112];
    assert Ascii("t") == [116] && Ascii("ts") == [116, 115] && Ascii("ui") == [117, 105] && Ascii("v") == [118];
  }

  // ----- When two entries have the same bytes -----

  /** Both entries lack the field, or their values mean the same. */
  predicate SameField(a: seq<Keyed<Bson>>, b: seq<Keyed<Bson>>, key: Bytes) {
    match (Lookup(a, key), Lookup(b, key))
    case (None, None) => true
    case (Some(x), Some(y)) => Norm(x) == Norm(y)
    case _ => false
  }

  predicate SameFields(a: seq<Keyed<Bson>>, b: seq<Keyed<Bson>>) {
    && SameField(a, b, Ascii("ns")) && SameField(a, b, Ascii("o")) && SameField(a, b, Ascii("o2"))
    && SameField(a, b, Ascii("op")) && SameField(a, b, Ascii("t")) && SameField(a, b, Ascii("ts"))
    && SameField(a, b, Ascii("ui")) && SameField(a, b, Ascii("v"))
  }

  predicate FieldFits(entry: seq<Keyed<Bson>>, key: Bytes) {
    Lookup(entry, key).Some? ==> Fits(Lookup(entry, key).value)
  }

  /** The canonical fields' lengths fit in 32 bits. */
  predicate FieldsFitIn(entry: seq<Keyed<Bson>>) {
    && FieldFits(entry, Ascii("ns")) && FieldFits(entry, Ascii("o")) && FieldFits(entry, Ascii("o2"))
    && FieldFits(entry, Ascii("op")) && FieldFits(entry, Ascii("t")) && FieldFits(entry, Ascii("ts"))
    && FieldFits(entry, Ascii("ui")) && FieldFits(entry, Ascii("v"))
  }

  lemma {:induction false} ProjectFits(entry: seq<Keyed<Bson>>, keys: seq<Bytes>)
    requires forall i :: 0 <= i < |keys| ==> |keys[i]| < TWO32 && FieldFits(entry, keys[i])
    ensures FieldsFit(Project(entry, keys))
  {
    if keys != [] {
      ProjectFits(entry, keys[1..]);
      var v, rest := Lookup(entry, keys[0]), Project(entry, keys[1..]);
      if v.Some? {
        assert ([Keyed(keys[0], v.value)] + rest)[1..] == rest;
      } else {
        assert [] + rest == rest;
      }
    }
  }

  lemma AllFieldsFit(entry: seq<Keyed<Bson>>)
    requires FieldsFitIn(entry)
    ensures EntryFits(entry)
  {
    FieldNames();
    var keys := CANONICAL_FIELDS;
    assert |keys| == 8;
    forall i | 0 <= i < |keys|
      ensures |keys[i]| < TWO32 && FieldFits(entry, keys[i])
    {
    }
    ProjectFits(entry, keys);
  }

  lemma {:induction false} SameProjection(a: seq<Keyed<Bson>>, b: seq<Keyed<Bson>>, keys: seq<Bytes>)
    requires forall i :: 0 <= i < |keys| ==> SameField(a, b, keys[i])
    ensures NormFields(Project(a, keys)) == NormFields(Project(b, keys))
  {
    if keys != [] {
      SameProjection(a, b, keys[1..]);
      NormFieldsFirst(a, keys);
      NormFieldsFirst(b, keys);
      assert SameField(a, b, keys[0]);
    }
  }

  lemma NormFieldsFirst(a: seq<Keyed<Bson>>, keys: seq<Bytes>)
    requires keys != []
    ensures var v := Lookup(a, keys[0]);
      NormFields(Project(a, keys))
      == (if v.Some? then [Keyed(keys[0], Norm(v.value))] else []) + NormFields(Project(a, keys[1..]))
  {
    var v, rest := Lookup(a, keys[0]), Project(a, keys[1..]);
    if v.Some? {
      assert ([Keyed(keys[0], v.value)] + rest)[1..] == rest;
    } else {
      assert [] + rest == rest && [] + NormFields(rest) == NormFields(rest);
    }
  }

  /** What the meaning says of one of the keys. */
  lemma MeaningField(a: seq<Keyed<Bson>>, b: seq<Keyed<Bson>>, key: Bytes)
    requires key in CANONICAL_FIELDS && EntryMeaning(a) == EntryMeaning(b)
    ensures SameField(a, b, key)
  {
    var x, y := Lookup(a, key), Lookup(b, key);
    if x.Some? {
      MeaningMembers(a, CANONICAL_FIELDS, Keyed(key, Norm(x.value)));
      MeaningMembers(b, CANONICAL_FIELDS, Keyed(key, Norm(x.value)));
    }
    if y.Some? {
      MeaningMembers(a, CANONICAL_FIELDS, Keyed(key, Norm(y.value)));
      MeaningMembers(b, CANONICAL_FIELDS, Keyed(key, Norm(y.value)));
    }
  }

  /**
   Two entries have the same canonical bytes exactly when each of ns, o, o2, op, t, ts, ui and v is absent
   from both or has, where it first stands, the same normal form in both.
   */
  lemma EntryFieldsIff(a: seq<Keyed<Bson>>, b: seq<Keyed<Bson>>)
    requires FieldsFitIn(a) && FieldsFitIn(b)
    ensures EntryBytes(a) == EntryBytes(b) <==> SameFields(a, b)
  {
    AllFieldsFit(a);
    AllFieldsFit(b);
    EntryBytesEqualIff(a, b);
    FieldNames();
    var keys := CANONICAL_FIELDS;
    if EntryMeaning(a) == EntryMeaning(b) {
      forall i | 0 <= i < |keys|
        ensures SameField(a, b, keys[i])
      {
        MeaningField(a, b, keys[i]);
      }
      assert SameField(a, b, keys[0]) && SameField(a, b, keys[1]) && SameField(a, b, keys[2]);
      assert SameField(a, b, keys[3]) && SameField(a, b, keys[4]) && SameField(a, b, keys[5]);
      assert SameField(a, b, keys[6]) && SameField(a, b, keys[7]);
    }
    if SameFields(a, b) {
      SameProjection(a, b, keys);
    }
  }

  /** An entry's position in the oplog. */
  function Stamp(entry: seq<Keyed<Bson>>): Option<Bson> {
    var ts := Lookup(entry, Ascii("ts"));
    if ts.Some? && ts.value.Timestamp? then ts else None
  }

  /** Entries with different timestamps mean different things, and have different bytes. */
  lemma MeaningHasStamp(a: seq<Keyed<Bson>>, b: seq<Keyed<Bson>>)
    requires Stamp(a).Some? && Stamp(b).Some? && Stamp(a) != Stamp(b)
    ensures EntryMeaning(a) != EntryMeaning(b) && !SameFields(a, b)
  {
    StampsDiffer(a, b);
    StampIsField();
    if EntryMeaning(a) == EntryMeaning(b) {
      MeaningField(a, b, Ascii("ts"));
    }
  }

  lemma StampIsField()
    ensures Ascii("ts") in CANONICAL_FIELDS
  {
    FieldNames();
    assert CANONICAL_FIELDS[5] == Ascii("ts");
  }

  lemma StampsDiffer(a: seq<Keyed<Bson>>, b: seq<Keyed<Bson>>)
    requires Stamp(a).Some? && Stamp(b).Some? && Stamp(a) != Stamp(b)
    ensures !SameField(a, b, Ascii("ts"))
  {
  }

  // ----- The bytes themselves -----

  /** A field as it is written: nothing if it is absent, else the length of its name, the name, and the value. */
  function FieldBytes(entry: seq<Keyed<Bson>>, key: Bytes): Bytes {
    match Lookup(entry, key)
    case None => []
    case Some(v) => Len(|key|) + (key + Canon(v))
  }

  function Present(entry: seq<Keyed<Bson>>, key: Bytes): nat {
    if Lookup(entry, key).Some? then 1 else 0
  }

  lemma FirstField(entry: seq<Keyed<Bson>>, key: Bytes, rest: seq<Bytes>)
    ensures Emit(Pairs(Project(entry, [key] + rest))) == FieldBytes(entry, key) + Emit(Pairs(Project(entry, rest)))
    ensures |Project(entry, [key] + rest)| == Present(entry, key) + |Project(entry, rest)|
  {
    var keys := [key] + rest;
    assert keys[0] == key && keys[1..] == rest;
    var v, tail := Lookup(entry, key), Project(entry, rest);
    if v.Some? {
      var all := [Keyed(key, v.value)] + tail;
      assert all[1..] == tail;
      EmitFirst(all, []);
      assert Emit(Pairs(all)) + [] == Emit(Pairs(all)) && Emit(Pairs(tail)) + [] == Emit(Pairs(tail));
      PlusAssociates(Len(|key|), key, Canon(v.value) + Emit(Pairs(tail)));
      PlusAssociates(key, Canon(v.value), Emit(Pairs(tail)));
      PlusAssociates(Len(|key|), key + Canon(v.value), Emit(Pairs(tail)));
    } else {
      assert [] + tail == tail;
      assert [] + Emit(Pairs(tail)) == Emit(Pairs(tail));
    }
  }

  /** The named fields, one after the other. */
  function FieldsBytes(entry: seq<Keyed<Bson>>, keys: seq<Bytes>): Bytes {
    if keys == [] then [] else FieldBytes(entry, keys[0]) + FieldsBytes(entry, keys[1..])
  }

  function CountPresent(entry: seq<Keyed<Bson>>, keys: seq<Bytes>): nat {
    if keys == [] then 0 else Present(entry, keys[0]) + CountPresent(entry, keys[1..])
  }

  lemma {:induction false} ProjectedBytes(entry: seq<Keyed<Bson>>, keys: seq<Bytes>)
    ensures Emit(Pairs(Project(entry, keys))) == FieldsBytes(entry, keys)
    ensures |Project(entry, keys)| == CountPresent(entry, keys)
  {
    if keys != [] {
      ProjectedBytes(entry, keys[1..]);
      FirstField(entry, keys[0], keys[1..]);
      assert [keys[0]] + keys[1..] == keys;
    }
  }

  /** The number of the fields present, then these fields, in this order. */
  lemma EntryBytesAre(entry: seq<Keyed<Bson>>)
    ensures var keys := [Ascii("ns"), Ascii("o"), Ascii("o2"), Ascii("op"),
                         Ascii("t"), Ascii("ts"), Ascii("ui"), Ascii("v")];
      EntryBytes(entry) == Len(CountPresent(entry, keys)) + FieldsBytes(entry, keys)
  {
    FieldNames();
    ProjectedBytes(entry, CANONICAL_FIELDS);
  }
}
