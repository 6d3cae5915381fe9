/**
 The audit log's file and its replay (audit-service/src/audit/mod.rs). A row keeps all that is stored of
 an event. Leaves and roots are field elements instead of their hex text.
 */
module Replays {
  import opened ByteStrings
  import opened Epochs
  import opened Merkle
  import opened Options

  // ----- Rows and their leaves -----

  datatype Row = Row(
    index: nat,
    operation: string,
    database: string,
    collection: string,
    deploymentId: string,
    sequence: nat,
    payload: string,
    leaf: Fr,
    rootAfter: Fr,
    timestamp: string,
    version: nat)

  /** What a leaf is the hash of: SHA-256 of a text, an HMAC of bytes, or Poseidon of the event's fields. */
  datatype Bound =
    | Text(payload: string)
    | Keyed(canonical: Bytes)
    | Fields(operation: string, database: string, collection: string, seconds: nat, doc: Bytes)

  /**
   How leaves are derived: whether a key is configured, base64 and RFC 3339 (its Unix seconds), and the
   three hashes under that key.
   */
  datatype Deriver = Deriver(
    hasKey: bool,
    decode: string -> Option<Bytes>,
    unixSeconds: string -> Option<int>,
    hash: Bound -> Fr)

  /** The part of a row that its leaf binds, by version; nothing if the leaf cannot be derived. */
  function BoundOf(d: Deriver, row: Row): Option<Bound> {
    if row.version <= 1 then Some(Text(row.payload))
    else if row.version > 3 || !d.hasKey || d.decode(row.payload).None? then None
    else if row.version == 2 then Some(Keyed(d.decode(row.payload).value))
    else if d.unixSeconds(row.timestamp).None? then None
    else
      var seconds := d.unixSeconds(row.timestamp).value;
      Some(Fields(row.operation, row.database, row.collection, if seconds < 0 then 0 else seconds,
                  d.decode(row.payload).value))
  }

  function RecomputeLeaf(d: Deriver, row: Row): Option<Fr> {
    var bound := BoundOf(d, row);
    if bound.Some? then Some(d.hash(bound.value)) else None
  }

  /**
   A leaf can be derived exactly for versions 0 and 1, and for versions 2 and 3 with a key and a payload that
   decodes, and for version 3 a timestamp that parses.
   */
  lemma DerivableIff(d: Deriver, row: Row)
    ensures RecomputeLeaf(d, row).Some? <==>
      || row.version == 0 || row.version == 1
      || ((row.version == 2 || row.version == 3) && d.hasKey && d.decode(row.payload).Some?
          && (row.version == 3 ==> d.unixSeconds(row.timestamp).Some?))
  {
  }

  /** And then it is the hash of these fields; times before 1970 count as 0. */
  lemma LeafByVersion(d: Deriver, row: Row)
    ensures row.version == 0 || row.version == 1 ==> RecomputeLeaf(d, row) == Some(d.hash(Text(row.payload)))
    ensures row.version == 2 && RecomputeLeaf(d, row).Some? ==>
      d.decode(row.payload).Some? && RecomputeLeaf(d, row) == Some(d.hash(Keyed(d.decode(row.payload).value)))
    ensures row.version == 3 && RecomputeLeaf(d, row).Some? ==>
      && d.decode(row.payload).Some? && d.unixSeconds(row.timestamp).Some?
      && exists seconds: nat ::
        RecomputeLeaf(d, row)
        == Some(d.hash(Fields(row.operation, row.database, row.collection, seconds, d.decode(row.payload).value)))
        && seconds == if d.unixSeconds(row.timestamp).value > 0 then d.unixSeconds(row.timestamp).value else 0
  {
  }

  function Leaves(rows: seq<Row>): (r: seq<Fr>)
    ensures |r| == |rows| && forall i :: 0 <= i < |r| ==> r[i] == rows[i].leaf
  {
    seq(|rows|, i requires 0 <= i < |rows| => rows[i].leaf)
  }

  /** Row `i` stands at its index, with the root that the tree has right after its leaf. */
  predicate ChainedAt(p: Params, rows: seq<Row>, i: nat)
    requires i < |rows|
  {
    rows[i].index == i && rows[i].rootAfter == RootAfter(p, Leaves(rows), i)
  }

  predicate ChainedRows(p: Params, rows: seq<Row>) {
    forall i :: 0 <= i < |rows| ==> ChainedAt(p, rows, i)
  }

  predicate DerivedRows(d: Deriver, rows: seq<Row>) {
    forall i :: 0 <= i < |rows| ==> RecomputeLeaf(d, rows[i]) == Some(rows[i].leaf)
  }

  predicate Accepted(p: Params, d: Deriver, rows: seq<Row>) {
    ChainedRows(p, rows) && DerivedRows(d, rows)
  }

  lemma LeavesSnoc(rows: seq<Row>, row: Row)
    ensures Leaves(rows + [row]) == Leaves(rows) + [row.leaf]
  {
  }

  /** A row depends on those before it only. */
  lemma ChainedPrefix(p: Params, rows: seq<Row>, k: nat, i: nat)
    requires i < k <= |rows|
    ensures ChainedAt(p, rows[..k], i) <==> ChainedAt(p, rows, i)
  {
    assert Leaves(rows[..k])[..i + 1] == Leaves(rows)[..i + 1];
  }

  // ----- Listed events -----

  type Domain = (string, string)

  function DomainOf(row: Row): Domain {
    (row.deploymentId, row.database)
  }

  /** How many of the rows belong to the domain. */
  function CountIn(rows: seq<Row>, d: Domain): nat {
    if rows == [] then 0
    else CountIn(rows[..|rows| - 1], d) + if DomainOf(rows[|rows| - 1]) == d then 1 else 0
  }

  datatype AuditEvent = AuditEvent(
    index: nat,
    leaf: Fr,
    operation: string,
    database: string,
    collection: string,
    deploymentId: string,
    sequence: nat,
    timestamp: string)

  function EventOf(row: Row, sequence: nat): AuditEvent {
    AuditEvent(row.index, row.leaf, row.operation, row.database, row.collection, row.deploymentId, sequence,
      row.timestamp)
  }

  /** The events in memory: a sequence number counts the domain's earlier rows, whatever is stored. */
  function Listed(rows: seq<Row>): (r: seq<AuditEvent>)
    ensures |r| == |rows|
    ensures forall i :: 0 <= i < |r| ==> r[i] == EventOf(rows[i], CountIn(rows[..i], DomainOf(rows[i])))
  {
    seq(|rows|, i requires 0 <= i < |rows| => EventOf(rows[i], CountIn(rows[..i], DomainOf(rows[i]))))
  }

  /** The positions of the rows of a deployment and database. */
  function Positions(rows: seq<Row>, deploymentId: string, database: string): set<int> {
    set j | 0 <= j < |rows| && rows[j].deploymentId == deploymentId && rows[j].database == database
  }

  lemma {:induction false} CountIs(rows: seq<Row>, deploymentId: string, database: string)
    ensures CountIn(rows, (deploymentId, database)) == |Positions(rows, deploymentId, database)|
    decreases |rows|
  {
    if rows != [] {
      var n := |rows| - 1;
      var front := Positions(rows[..n], deploymentId, database);
      CountIs(rows[..n], deploymentId, database);
      var here := rows[n].deploymentId == deploymentId && rows[n].database == database;
      assert Positions(rows, deploymentId, database) == front + if here then {n} else {};
    }
  }

  /** A listed event has the row's own fields; its number counts the earlier rows of its deployment and database. */
  lemma ListedMeans(rows: seq<Row>, i: nat)
    requires i < |rows|
    ensures var row := rows[i];
      Listed(rows)[i] == AuditEvent(
        row.index, row.leaf, row.operation, row.database, row.collection, row.deploymentId,
        |Positions(rows[..i], row.deploymentId, row.database)|, row.timestamp)
  {
    CountIs(rows[..i], rows[i].deploymentId, rows[i].database);
  }

  lemma ListedSnoc(rows: seq<Row>, row: Row)
    ensures Listed(rows + [row]) == Listed(rows) + [EventOf(row, CountIn(rows, DomainOf(row)))]
  {
    var all := rows + [row];
    assert all[..|rows|] == rows;
    assert forall i :: 0 <= i < |rows| ==> all[..i] == rows[..i];
  }

  /** The stored sequence numbers are those that recording gives. */
  predicate InSequence(rows: seq<Row>) {
    forall i :: 0 <= i < |rows| ==> rows[i].sequence == CountIn(rows[..i], DomainOf(rows[i]))
  }

  lemma InSequenceSnoc(rows: seq<Row>, row: Row)
    ensures InSequence(rows + [row]) <==> InSequence(rows) && row.sequence == CountIn(rows, DomainOf(row))
  {
    var all := rows + [row];
    assert all[..|rows|] == rows;
    assert forall i :: 0 <= i < |rows| ==> all[i] == rows[i] && all[..i] == rows[..i];
    assert all[|rows|] == row;
  }

  function Counter(counters: map<Domain, nat>, d: Domain): nat {
    if d in counters then counters[d] else 0
  }

  /** The counters per domain are those of the rows. */
  ghost predicate Counts(counters: map<Domain, nat>, rows: seq<Row>) {
    forall d :: Counter(counters, d) == CountIn(rows, d)
  }

  lemma CountsSnoc(counters: map<Domain, nat>, rows: seq<Row>, row: Row)
    requires Counts(counters, rows)
    ensures Counts(counters[DomainOf(row) := CountIn(rows, DomainOf(row)) + 1], rows + [row])
  {
    assert (rows + [row])[..|rows|] == rows;
    var next := counters[DomainOf(row) := CountIn(rows, DomainOf(row)) + 1];
    forall d
      ensures Counter(next, d) == CountIn(rows + [row], d)
    {
      assert Counter(counters, d) == CountIn(rows, d);
    }
  }

  // ----- Recording and replaying -----

  ghost predicate InMemory(p: Params, rows: seq<Row>, events: seq<AuditEvent>, counters: map<Domain, nat>) {
    ChainedRows(p, rows) && events == Listed(rows) && Counts(counters, rows)
  }

  /** An audit log with its file. */
  class Journal {
    const log: AuditLog
    const deriver: Deriver
    var sequences: map<Domain, nat>
    var events: seq<AuditEvent>
    var file: seq<Row>

    /** Memory agrees with the file: leaves, roots, events and counters. */
    ghost predicate Valid()
      reads this, log, log.tree
    {
      log.Valid() && log.leaves == Leaves(file) && log.events == |file| && InMemory(log.params, file, events, sequences)
    }

    constructor (params: Params, deriver: Deriver)
      ensures Valid() && fresh(log) && fresh(log.tree) && file == [] && this.deriver == deriver && log.params == params
    {
      log := new AuditLog(params);
      this.deriver := deriver;
      sequences, events, file := map[], [], [];
    }

    /**
     `record_inner`: one more leaf, event and row. The file stays one that replay accepts exactly when the
     leaf handed in is the one that the row derives.
     */
    method RecordInner(deploymentId: string, operation: string, database: string, collection: string,
                       payload: string, leaf: Fr, version: nat, timestamp: string) returns (index: nat)
      requires Valid()
      modifies this, log, log.tree
      ensures Valid() && index == |old(file)|
      ensures |file| == index + 1 && file[..index] == old(file)
      ensures var row := file[index];
        && row == Row(index, operation, database, collection, deploymentId,
                      CountIn(old(file), (deploymentId, database)), payload, leaf, row.rootAfter, timestamp, version)
        && (Accepted(log.params, deriver, file)
            <==> Accepted(log.params, deriver, old(file)) && RecomputeLeaf(deriver, row) == Some(leaf))
      ensures InSequence(file) <==> old(InSequence(file))
    {
      var sequence := Counter(sequences, (deploymentId, database));
      index := log.Record(leaf);
      var root := log.RootAfterAt(index);
      var row := Row(index, operation, database, collection, deploymentId, sequence, payload, leaf, root.value,
                     timestamp, version);
      RowAccepted(log.params, deriver, file, row);
      InSequenceSnoc(file, row);
      Keep(row);
    }

    /** The event and the row of a leaf that is already in the tree. */
    method Keep(row: Row)
      requires log.Valid() && log.leaves == Leaves(file) + [row.leaf] && log.events == |file| + 1
      requires InMemory(log.params, file, events, sequences)
      requires row.index == |file| && row.rootAfter == RootAfter(log.params, log.leaves, |file|)
      modifies this
      ensures Valid() && file == old(file) + [row]
    {
      RowChained(log.params, file, row);
      ListedSnoc(file, row);
      CountsSnoc(sequences, file, row);
      var sequence := Counter(sequences, DomainOf(row));
      assert sequence == CountIn(file, DomainOf(row));
      sequences, events, file :=
        sequences[DomainOf(row) := sequence + 1], events + [EventOf(row, sequence)], file + [row];
      assert InMemory(log.params, file, events, sequences);
    }

    /**
     `replay_file`: rebuilds the tree and compares leaf, index and root of every row. It accepts exactly the
     empty file or, into an empty log, a file all of whose rows derive their leaf and carry their index and
     root. Then memory agrees with the file; stored sequence numbers do not matter.
     */
    method ReplayFile(rows: seq<Row>) returns (ok: bool)
      requires Valid()
      modifies this, log, log.tree
      ensures ok <==> rows == [] || (old(file) == [] && Accepted(log.params, deriver, rows))
      ensures ok ==> Valid() && (rows != [] ==> file == rows)
    {
      if rows == [] { return true; }
      if events != [] || log.tree.leaves != [] { return false; }
      assert rows[..0] == [] == file;
      for k := 0 to |rows|
        invariant Valid() && file == rows[..k] && Accepted(log.params, deriver, rows[..k])
      {
        var row := rows[k];
        var leaf := RecomputeLeaf(deriver, row);
        NextAccepted(log.params, deriver, rows, k);
        if leaf != Some(row.leaf) { return false; }
        var index := log.Record(leaf.value);
        var root := log.RootAfterAt(index);
        if index != row.index || root != Some(row.rootAfter) { return false; }
        Keep(row);
      }
      assert rows[..|rows|] == rows;
      return true;
    }
  }

  /** One more row is accepted if its leaf, index and root are right; otherwise the whole file is not. */
  lemma NextAccepted(p: Params, d: Deriver, rows: seq<Row>, k: nat)
    requires k < |rows| && Accepted(p, d, rows[..k])
    ensures rows[..k + 1] == rows[..k] + [rows[k]]
    ensures var row := rows[k];
      var right := RecomputeLeaf(d, row) == Some(row.leaf) && row.index == k
                   && row.rootAfter == RootAfter(p, Leaves(rows[..k]) + [row.leaf], k);
      (right ==> Accepted(p, d, rows[..k + 1])) && (!right ==> !Accepted(p, d, rows))
  {
    var row := rows[k];
    assert rows[..k + 1] == rows[..k] + [row];
    LeavesSnoc(rows[..k], row);
    if RecomputeLeaf(d, row) == Some(row.leaf) && row.index == k
      && row.rootAfter == RootAfter(p, Leaves(rows[..k]) + [row.leaf], k) {
      RowAccepted(p, d, rows[..k], row);
    } else {
      ChainedPrefix(p, rows, k + 1, k);
      assert !(ChainedAt(p, rows, k) && RecomputeLeaf(d, rows[k]) == Some(rows[k].leaf));
    }
  }

  lemma RowChained(p: Params, rows: seq<Row>, row: Row)
    requires ChainedRows(p, rows) && row.index == |rows|
    requires row.rootAfter == RootAfter(p, Leaves(rows) + [row.leaf], |rows|)
    ensures ChainedRows(p, rows + [row]) && Leaves(rows + [row]) == Leaves(rows) + [row.leaf]
  {
    var all := rows + [row];
    LeavesSnoc(rows, row);
    assert all[..|rows|] == rows && all[|rows|] == row;
    forall i | 0 <= i < |all|
      ensures ChainedAt(p, all, i)
    {
      if i < |rows| {
        assert ChainedAt(p, rows, i);
        ChainedPrefix(p, all, |rows|, i);
      }
    }
  }

  lemma RowAccepted(p: Params, d: Deriver, rows: seq<Row>, row: Row)
    requires ChainedRows(p, rows) && row.index == |rows|
    requires row.rootAfter == RootAfter(p, Leaves(rows) + [row.leaf], |rows|)
    ensures Accepted(p, d, rows + [row]) <==> Accepted(p, d, rows) && RecomputeLeaf(d, row) == Some(row.leaf)
  {
    var all := rows + [row];
    RowChained(p, rows, row);
    assert all[|rows|] == row && forall i :: 0 <= i < |rows| ==> all[i] == rows[i];
  }

  // ----- What the last root binds -----

  /** The hashes tell apart what the leaves of the two files bind. */
  predicate BoundsApart(d: Deriver, a: seq<Row>, b: seq<Row>) {
    forall i, j :: 0 <= i < |a| && 0 <= j < |b| && RecomputeLeaf(d, a[i]) == RecomputeLeaf(d, b[j])
      ==> BoundOf(d, a[i]) == BoundOf(d, b[j])
  }

  /** Row by row, the leaves bind the same. */
  predicate SameBound(d: Deriver, a: seq<Row>, b: seq<Row>) {
    |a| == |b| && forall i :: 0 <= i < |a| ==> BoundOf(d, a[i]) == BoundOf(d, b[i])
  }

  function LastRoot(rows: seq<Row>): Fr
    requires rows != []
  {
    rows[|rows| - 1].rootAfter
  }

  /**
   In general the last roots agree exactly when the leaves do at every position of the tree, absent
   ones being zero.
   */
  lemma LastRootLeavesIff(p: Params, s: Hashed, a: seq<Row>, b: seq<Row>)
    requires a != [] && b != [] && ChainedRows(p, a) && ChainedRows(p, b) && CollisionFree(p.hash, s)
    requires HashedIn(p.hash, s, Appended(Leaves(a)), 0, p.height)
    requires HashedIn(p.hash, s, Appended(Leaves(b)), 0, p.height)
    ensures LastRoot(a) == LastRoot(b)
      <==> SameLeaves(Appended(Leaves(a)), 0, Appended(Leaves(b)), 0, Pow2(p.height))
  {
    assert ChainedAt(p, a, |a| - 1) && ChainedAt(p, b, |b| - 1);
    assert Leaves(a)[..|a|] == Leaves(a) && Leaves(b)[..|b|] == Leaves(b);
    RootBindsLeaves(p.hash, s, Appended(Leaves(a)), 0, Appended(Leaves(b)), 0, p.height);
  }

  /**
   Two files that replay accepts end with the same root exactly when they have equally many rows and, row
   by row, the leaves bind the same; assumed is that what was hashed does not collide, that no leaf is
   zero, and that the tree is not full.
   */
  lemma LastRootIff(p: Params, s: Hashed, d: Deriver, a: seq<Row>, b: seq<Row>)
    requires a != [] && b != [] && Accepted(p, d, a) && Accepted(p, d, b)
    requires CollisionFree(p.hash, s) && BoundsApart(d, a, b)
    requires HashedIn(p.hash, s, Appended(Leaves(a)), 0, p.height)
    requires HashedIn(p.hash, s, Appended(Leaves(b)), 0, p.height)
    requires ZERO !in Leaves(a) && ZERO !in Leaves(b) && |a| <= Pow2(p.height) && |b| <= Pow2(p.height)
    ensures LastRoot(a) == LastRoot(b) <==> SameBound(d, a, b)
  {
    assert ChainedAt(p, a, |a| - 1) && ChainedAt(p, b, |b| - 1);
    assert Leaves(a)[..|a|] == Leaves(a) && Leaves(b)[..|b|] == Leaves(b);
    LogRootsEqualIff(p.hash, s, p.height, Leaves(a), Leaves(b));
    if Leaves(a) == Leaves(b) {
      forall i | 0 <= i < |a|
        ensures BoundOf(d, a[i]) == BoundOf(d, b[i])
      {
        assert Leaves(a)[i] == Leaves(b)[i];
        assert RecomputeLeaf(d, a[i]) == RecomputeLeaf(d, b[i]);
      }
    }
    if SameBound(d, a, b) {
      SameBoundLeaves(d, a, b);
    }
  }

  lemma SameBoundLeaves(d: Deriver, a: seq<Row>, b: seq<Row>)
    requires SameBound(d, a, b) && DerivedRows(d, a) && DerivedRows(d, b)
    ensures Leaves(a) == Leaves(b)
  {
    forall i | 0 <= i < |a|
      ensures a[i].leaf == b[i].leaf
    {
      assert RecomputeLeaf(d, a[i]) == RecomputeLeaf(d, b[i]);
    }
  }

  /** By version, what two rows must share for that; all other stored fields are free. */
  lemma BoundByVersion(d: Deriver, x: Row, y: Row)
    requires BoundOf(d, x).Some? && BoundOf(d, y).Some?
    ensures BoundOf(d, x) == BoundOf(d, y) <==>
      if x.version <= 1 then y.version <= 1 && x.payload == y.payload
      else
        && x.version == y.version && d.decode(x.payload) == d.decode(y.payload)
        && (x.version == 3 ==>
              && x.operation == y.operation && x.database == y.database && x.collection == y.collection
              && SecondsOf(d, x) == SecondsOf(d, y))
  {
  }

  function SecondsOf(d: Deriver, row: Row): int
    requires d.unixSeconds(row.timestamp).Some?
  {
    var seconds := d.unixSeconds(row.timestamp).value;
    if seconds < 0 then 0 else seconds
  }

  /**
   Any file of rows that bind the same, with the same index, leaf and root columns, is accepted as well,
   whatever its other fields.
   */
  lemma UnboundFree(p: Params, d: Deriver, a: seq<Row>, b: seq<Row>)
    requires Accepted(p, d, a) && SameBound(d, a, b)
    requires forall i :: 0 <= i < |a| ==>
      a[i].index == b[i].index && a[i].leaf == b[i].leaf && a[i].rootAfter == b[i].rootAfter
    ensures Accepted(p, d, b)
  {
    assert Leaves(a) == Leaves(b);
    forall i | 0 <= i < |b|
      ensures ChainedAt(p, b, i) && RecomputeLeaf(d, b[i]) == Some(b[i].leaf)
    {
      assert ChainedAt(p, a, i) && RecomputeLeaf(d, a[i]) == Some(a[i].leaf);
    }
  }

  /** And the files accepted with one last root differ in unbound fields only. */
  lemma OnlyUnboundDiffer(p: Params, d: Deriver, a: seq<Row>, b: seq<Row>, i: nat)
    requires Accepted(p, d, a) && Accepted(p, d, b) && SameBound(d, a, b) && i < |a|
    ensures a[i].index == b[i].index && a[i].leaf == b[i].leaf && a[i].rootAfter == b[i].rootAfter
  {
    SameBoundLeaves(d, a, b);
    assert ChainedAt(p, a, i) && ChainedAt(p, b, i);
    assert Leaves(a)[i] == Leaves(b)[i];
  }

  /** The one row of a version 1 file. */
  function OneRow(p: Params, d: Deriver, operation: string, payload: string): Row {
    var leaf := d.hash(Text(payload));
    Row(0, operation, "db", "c", "", 0, payload, leaf, RootAfter(p, [leaf], 0), "2026-01-01T00:00:00Z", 1)
  }

  /** In a version 1 file the stored operation may be another: it is accepted, with the same root, and listed. */
  lemma OperationExample(p: Params, d: Deriver, payload: string)
    ensures var a, b := [OneRow(p, d, "delete", payload)], [OneRow(p, d, "insert", payload)];
      && Accepted(p, d, a) && Accepted(p, d, b) && LastRoot(a) == LastRoot(b)
      && Listed(a)[0].operation == "delete" && Listed(b)[0].operation == "insert"
  {
    var a, b := [OneRow(p, d, "delete", payload)], [OneRow(p, d, "insert", payload)];
    var leaf := d.hash(Text(payload));
    assert Leaves(a) == [leaf] && Leaves(b) == [leaf];
    assert ChainedAt(p, a, 0) && ChainedAt(p, b, 0);
  }
}
