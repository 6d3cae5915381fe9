/**
 Batches of audit events (audit-service/src/audit/epoch.rs) over the append-only log
 (audit-service/src/audit/mod.rs). Roots are field elements instead of their hex text.
 */
module Epochs {
  import opened Merkle
  import opened Options

  /** The hash and the height of the tree; the program uses height 20. */
  datatype Params = Params(hash: Hash, height: nat)

  // ----- The log -----

  /** The tree's root right after leaf `i` was inserted. */
  function RootAfter(p: Params, leaves: seq<Fr>, i: nat): Fr
    requires i < |leaves|
  {
    Dense(p.hash, Appended(leaves[..i + 1]), 0, p.height)
  }

  lemma {:induction false} LookupAppended(pairs: seq<(nat, Fr)>, values: seq<Fr>)
    requires |pairs| == |values| && forall i :: 0 <= i < |pairs| ==> pairs[i] == (i, values[i])
    ensures LookupMap(pairs) == Appended(values)
  {
    if pairs != [] {
      var n := |pairs| - 1;
      LookupAppended(pairs[..n], values[..n]);
      assert LookupMap(pairs) == Appended(values[..n])[n := values[n]];
    }
  }

  /** The part of the audit log that epochs depend on. `events` is what is listed, which pruning shortens. */
  class AuditLog {
    const params: Params
    const tree: AuditMerkleTree
    var events: nat
    var rootAfterByIndex: seq<Fr>
    ghost var leaves: seq<Fr>

    ghost predicate Valid()
      reads this, tree
    {
      && tree.Valid() && tree.hash == params.hash && tree.height == params.height
      && |tree.leaves| == |leaves| && (forall i :: 0 <= i < |leaves| ==> tree.leaves[i] == (i, leaves[i]))
      && |rootAfterByIndex| == |leaves|
      && (forall i :: 0 <= i < |leaves| ==> rootAfterByIndex[i] == RootAfter(params, leaves, i))
      && events <= |leaves|
    }

    constructor (params: Params)
      ensures Valid() && fresh(tree) && leaves == [] && events == 0 && this.params == params
    {
      this.params := params;
      tree := new AuditMerkleTree(params.hash, params.height);
      events, rootAfterByIndex, leaves := 0, [], [];
    }

    /** Appends a leaf and stores the root that the tree has right then. */
    method Record(leaf: Fr) returns (index: nat)
      requires Valid()
      modifies this, tree
      ensures Valid() && index == |old(leaves)| && leaves == old(leaves) + [leaf] && events == old(events) + 1
    {
      index := tree.Insert(leaf);
      leaves := leaves + [leaf];
      var root := tree.Root();
      LookupAppended(tree.leaves, leaves);
      assert leaves[..index + 1] == leaves;
      rootAfterByIndex := rootAfterByIndex + [root];
      forall i | 0 <= i < index
        ensures RootAfter(params, leaves, i) == RootAfter(params, old(leaves), i)
      {
        assert leaves[..i + 1] == old(leaves)[..i + 1];
      }
      events := events + 1;
    }

    /** Pruning a domain drops listed events; the tree and its roots stay. */
    method Prune(n: nat)
      requires Valid() && n <= events
      modifies this`events
      ensures Valid() && events == old(events) - n
    {
      events := events - n;
    }

    method RootAfterAt(index: nat) returns (r: Option<Fr>)
      requires Valid()
      ensures r == if index < |leaves| then Some(RootAfter(params, leaves, index)) else None
    {
      r := if index < |rootAfterByIndex| then Some(rootAfterByIndex[index]) else None;
    }
  }

  // ----- Epochs -----

  /** An oplog timestamp, packed as time and increment in one number, which keeps the order. */
  type Ts = nat

  datatype OplogRange = OplogRange(startTs: Ts, endTs: Ts, entryCount: nat, rootHex: string, majorityTs: Ts)

  datatype Epoch = Epoch(
    number: nat,
    start: nat,
    end: Option<nat>,
    root: Option<Fr>,
    count: nat,
    committed: bool,
    txHash: Option<string>,
    oplog: Option<OplogRange>)

  function NewEpoch(number: nat, start: nat): Epoch {
    Epoch(number, start, None, None, 0, false, None, None)
  }

  datatype World = World(leaves: seq<Fr>, events: nat, epochs: seq<Epoch>, threshold: nat, nextOplogStart: Option<Ts>)

  datatype Event =
    | Record(leaf: Fr)
    | Prune(n: nat)
    | RecordEvent(index: nat)
    | Close
    | Sync
    | MarkCommitted(number: nat, txHash: string)
    | AttachOplog(number: nat, range: OplogRange)
    | SetThreshold(threshold: nat)

  /** Closes the open epoch at `end`, whose root is taken from the log's history, and opens the next. */
  function CloseAt(p: Params, w: World, count: nat, end: nat): seq<Epoch>
    requires w.epochs != [] && end < |w.leaves|
  {
    var n := |w.epochs| - 1;
    var e := w.epochs[n];
    w.epochs[..n]
      + [e.(count := count, end := Some(end), root := Some(RootAfter(p, w.leaves, end))),
        NewEpoch(e.number + 1, end + 1)]
  }

  function WithCount(epochs: seq<Epoch>, count: nat): seq<Epoch>
    requires epochs != []
  {
    epochs[|epochs| - 1 := epochs[|epochs| - 1].(count := count)]
  }

  /** Sets the open epoch's count and closes it at `end` when the threshold is reached and the log has that leaf. */
  function Advance(p: Params, w: World, count: nat, end: int): World
    requires w.epochs != []
  {
    if w.threshold > 0 && count >= w.threshold && 0 <= end < |w.leaves|
    then w.(epochs := CloseAt(p, w, count, end))
    else w.(epochs := WithCount(w.epochs, count))
  }

  /** The index of the first epoch with the number, or the length of the list. */
  function Locate(epochs: seq<Epoch>, number: nat): (r: nat)
    ensures r <= |epochs|
    ensures r < |epochs| ==> epochs[r].number == number
    ensures forall i :: 0 <= i < r ==> epochs[i].number != number
  {
    if epochs == [] then 0 else if epochs[0].number == number then 0 else 1 + Locate(epochs[1..], number)
  }

  function Commit(e: Epoch, txHash: string): Epoch {
    var keepExisting := txHash == "" && e.txHash.Some? && e.txHash.value != "";
    e.(committed := true, txHash := if keepExisting then e.txHash else Some(txHash))
  }

  /** What one operation does to the state, including what a failing one leaves behind. */
  function Step(p: Params, w: World, event: Event): (r: World)
    requires w.epochs != []
    ensures r.epochs != []
  {
    var e := w.epochs[|w.epochs| - 1];
    match event
    case Record(leaf) => w.(leaves := w.leaves + [leaf], events := w.events + 1)
    case Prune(n) => w.(events := if n <= w.events then w.events - n else 0)
    case RecordEvent(index) =>
      if e.end.Some? then w else Advance(p, w, e.count + 1, index)
    case Close =>
      if e.end.Some? || e.count == 0 || e.start + e.count - 1 >= |w.leaves| then w
      else w.(epochs := CloseAt(p, w, e.count, e.start + e.count - 1))
    case Sync =>
      var count := if w.events > e.start then w.events - e.start else 0;
      if e.end.Some? then w else Advance(p, w, count, e.start + count - 1)
    case MarkCommitted(number, txHash) =>
      var i := Locate(w.epochs, number);
      if i == |w.epochs| then w else w.(epochs := w.epochs[i := Commit(w.epochs[i], txHash)])
    case AttachOplog(number, range) =>
      var i := Locate(w.epochs, number);
      if i == |w.epochs| || w.epochs[i].end.None? then w
      else w.(epochs := w.epochs[i := w.epochs[i].(oplog := Some(range))], nextOplogStart := Some(range.endTs))
    case SetThreshold(threshold) => w.(threshold := threshold)
  }

  datatype Outcome = Ok(epoch: Option<Epoch>) | Error

  predicate Due(threshold: nat, count: nat) {
    threshold > 0 && count >= threshold
  }

  /** The open epoch closed with this count, end and root, and the next one opened, with nothing in it. */
  function Closed(epochs: seq<Epoch>, count: nat, end: nat, root: Fr): seq<Epoch>
    requires epochs != []
  {
    var n := |epochs| - 1;
    var e := epochs[n];
    epochs[..n] + [Epoch(e.number, e.start, Some(end), Some(root), count, e.committed, e.txHash, e.oplog),
                   Epoch(e.number + 1, end + 1, None, None, 0, false, None, None)]
  }

  /** `i` is the index of the first epoch with the number. */
  predicate First(epochs: seq<Epoch>, number: nat, i: int) {
    0 <= i < |epochs| && epochs[i].number == number && forall j :: 0 <= j < i ==> epochs[j].number != number
  }

  /** An epoch is reported exactly when one was closed, and it is that one. */
  predicate Reports(closed: Option<Epoch>, before: seq<Epoch>, after: seq<Epoch>)
    requires before != []
  {
    if closed.Some? then |after| == |before| + 1 && after[|before| - 1] == closed.value else |after| == |before|
  }

  class EpochManager {
    var eventThreshold: nat
    var epochs: seq<Epoch>
    var nextOplogStartTs: Option<Ts>

    ghost function Value(log: AuditLog): World
      reads this, log
    {
      World(log.leaves, log.events, epochs, eventThreshold, nextOplogStartTs)
    }

    constructor (threshold: nat)
      ensures epochs == [Epoch(0, 0, None, None, 0, false, None, None)]
      ensures eventThreshold == threshold && nextOplogStartTs == None
    {
      eventThreshold, epochs, nextOplogStartTs := threshold, [NewEpoch(0, 0)], None;
    }

    method RecordEvent(index: nat, log: AuditLog) returns (r: Outcome)
      requires log.Valid() && epochs != []
      modifies this`epochs
      ensures Value(log) == Step(log.params, old(Value(log)), Event.RecordEvent(index))
      ensures var e := old(epochs)[|old(epochs)| - 1];
        r.Error? <==> e.end.Some? || (Due(eventThreshold, e.count + 1) && index >= |log.leaves|)
      ensures r.Ok? ==> Reports(r.epoch, old(epochs), epochs)
      ensures var e := old(epochs)[|old(epochs)| - 1];
        epochs ==
          if e.end.Some? then old(epochs)
          else if eventThreshold > 0 && e.count + 1 >= eventThreshold && index < |log.leaves|
          then Closed(old(epochs), e.count + 1, index, RootAfter(log.params, log.leaves, index))
          else old(epochs)[..|old(epochs)| - 1] + [e.(count := e.count + 1)]
    {
      var n := |epochs| - 1;
      var current := epochs[n];
      if current.end.Some? { return Error; }
      current := current.(count := current.count + 1);
      epochs := epochs[n := current];
      var shouldClose := eventThreshold > 0 && current.count >= eventThreshold;
      if shouldClose {
        var root := log.RootAfterAt(index);
        if root.None? { return Error; }
        var closed := current.(end := Some(index), root := root);
        epochs := epochs[..n] + [closed, NewEpoch(closed.number + 1, index + 1)];
        return Ok(Some(closed));
      }
      return Ok(None);
    }

    method CloseCurrentEpoch(log: AuditLog) returns (r: Outcome)
      requires log.Valid() && epochs != []
      modifies this`epochs
      ensures Value(log) == Step(log.params, old(Value(log)), Close)
      ensures var e := old(epochs)[|old(epochs)| - 1];
        r.Error? <==> e.end.Some? || e.count == 0 || e.start + e.count > |log.leaves|
      ensures r.Ok? ==> r.epoch.Some? && Reports(r.epoch, old(epochs), epochs)
      ensures var e := old(epochs)[|old(epochs)| - 1];
        epochs ==
          if e.end.Some? || e.count == 0 || e.start + e.count > |log.leaves| then old(epochs)
          else Closed(old(epochs), e.count, e.start + e.count - 1,
                      RootAfter(log.params, log.leaves, e.start + e.count - 1))
    {
      var n := |epochs| - 1;
      var current := epochs[n];
      if current.end.Some? { return Error; }
      if current.count == 0 { return Error; }
      var endIndex := current.start + current.count - 1;
      var root := log.RootAfterAt(endIndex);
      if root.None? { return Error; }
      var closed := current.(end := Some(endIndex), root := root);
      epochs := epochs[..n] + [closed, NewEpoch(closed.number + 1, endIndex + 1)];
      return Ok(Some(closed));
    }

    method SyncOpenEpochWithAuditLog(log: AuditLog) returns (r: Outcome)
      requires log.Valid() && epochs != []
      modifies this`epochs
      ensures Value(log) == Step(log.params, old(Value(log)), Sync)
      ensures r.Ok? && Reports(r.epoch, old(epochs), epochs)
      ensures var e := old(epochs)[|old(epochs)| - 1];
        var count := if log.events > e.start then log.events - e.start else 0;
        epochs ==
          if e.end.Some? then old(epochs)
          else if eventThreshold > 0 && count >= eventThreshold
          then Closed(old(epochs), count, e.start + count - 1, RootAfter(log.params, log.leaves, e.start + count - 1))
          else old(epochs)[..|old(epochs)| - 1] + [e.(count := count)]
    {
      var n := |epochs| - 1;
      var current := epochs[n];
      if current.end.Some? { return Ok(None); }
      var count := if log.events > current.start then log.events - current.start else 0;
      current := current.(count := count);
      epochs := epochs[n := current];
      if eventThreshold > 0 && current.count >= eventThreshold {
        var endIndex := current.start + current.count - 1;
        var root := log.RootAfterAt(endIndex);
        if root.None? { return Error; }
        var closed := current.(end := Some(endIndex), root := root);
        epochs := epochs[..n] + [closed, NewEpoch(closed.number + 1, endIndex + 1)];
        return Ok(Some(closed));
      }
      return Ok(None);
    }

    method MarkCommitted(number: nat, txHash: string, log: AuditLog) returns (found: bool)
      requires epochs != []
      modifies this`epochs
      ensures Value(log) == Step(log.params, old(Value(log)), Event.MarkCommitted(number, txHash))
      ensures found <==> exists i :: 0 <= i < |old(epochs)| && old(epochs)[i].number == number
      ensures !found ==> epochs == old(epochs)
      ensures found ==> exists i ::
        First(old(epochs), number, i) &&
        var e := old(epochs)[i];
        var keep := txHash == "" && e.txHash.Some? && e.txHash.value != "";
        epochs == old(epochs)[i := e.(committed := true, txHash := if keep then e.txHash else Some(txHash))]
    {
      var i := FindEpoch(number);
      if i < |epochs| {
        var keepExisting := txHash == "" && epochs[i].txHash.Some? && epochs[i].txHash.value != "";
        var epoch := epochs[i].(committed := true);
        if !keepExisting { epoch := epoch.(txHash := Some(txHash)); }
        assert First(epochs, number, i);
        epochs := epochs[i := epoch];
        return true;
      }
      return false;
    }

    method AttachOplogHash(number: nat, range: OplogRange, log: AuditLog) returns (r: Outcome)
      requires epochs != []
      modifies this`epochs, this`nextOplogStartTs
      ensures Value(log) == Step(log.params, old(Value(log)), AttachOplog(number, range))
      ensures var i := Locate(old(epochs), number);
        && (r.Ok? <==> i < |old(epochs)| && old(epochs)[i].end.Some?)
        && (r.Ok? ==> r.epoch == Some(epochs[i]))
      ensures r.Ok? ==> nextOplogStartTs == Some(range.endTs) && exists i ::
        First(old(epochs), number, i) && epochs == old(epochs)[i := old(epochs)[i].(oplog := Some(range))]
      ensures r.Error? ==> epochs == old(epochs) && nextOplogStartTs == old(nextOplogStartTs)
    {
      var i := FindEpoch(number);
      if i < |epochs| {
        if epochs[i].end.None? { return Error; }
        assert First(epochs, number, i);
        epochs := epochs[i := epochs[i].(oplog := Some(range))];
        nextOplogStartTs := Some(range.endTs);
        return Ok(Some(epochs[i]));
      }
      return Error;
    }

    method FindEpoch(number: nat) returns (i: nat)
      ensures i == Locate(epochs, number)
    {
      i := 0;
      while i < |epochs|
        invariant 0 <= i <= |epochs|
        invariant i + Locate(epochs[i..], number) == Locate(epochs, number)
      {
        if epochs[i].number == number { return; }
        assert epochs[i..][1..] == epochs[i + 1..];
        i := i + 1;
      }
    }
  }

  // ----- What every run keeps -----

  predicate ClosedWell(p: Params, w: World, e: Epoch) {
    e.end.Some? && e.end.value < |w.leaves| && e.root == Some(RootAfter(p, w.leaves, e.end.value))
  }

  /**
   Epochs are numbered from 0, exactly the last is open, each starts right after the previous one ends,
   and each closed one carries the root the log had right after its last leaf.
   */
  predicate Inv(p: Params, w: World) {
    && w.epochs != []
    && (forall i :: 0 <= i < |w.epochs| ==> w.epochs[i].number == i)
    && w.epochs[0].start == 0
    && w.epochs[|w.epochs| - 1].end.None?
    && (forall i :: 0 <= i < |w.epochs| - 1 ==> ClosedWell(p, w, w.epochs[i]))
    && (forall i, j :: 0 <= i < |w.epochs| - 1 && j == i + 1 ==> w.epochs[j].start == w.epochs[i].end.value + 1)
  }

  /** The same batch: commit and oplog data may differ. */
  predicate SameBatch(a: Epoch, b: Epoch) {
    a.number == b.number && a.start == b.start && a.end == b.end && a.root == b.root && a.count == b.count
  }

  predicate KeepsCommit(a: Epoch, b: Epoch) {
    && (a.committed ==> b.committed)
    && (a.txHash.Some? && a.txHash.value != "" ==> b.txHash.Some? && b.txHash.value != "")
  }

  /** Closed epochs are frozen, and a transaction hash once known is not lost to an empty one. */
  predicate Frozen(v: World, w: World)
    requires v.epochs != []
  {
    && |v.epochs| <= |w.epochs| && v.leaves <= w.leaves
    && (forall i :: 0 <= i < |v.epochs| - 1 ==>
          SameBatch(v.epochs[i], w.epochs[i]) && KeepsCommit(v.epochs[i], w.epochs[i]))
  }

  lemma RootAfterAppend(p: Params, leaves: seq<Fr>, leaf: Fr, i: nat)
    requires i < |leaves|
    ensures RootAfter(p, leaves + [leaf], i) == RootAfter(p, leaves, i)
  {
    assert (leaves + [leaf])[..i + 1] == leaves[..i + 1];
  }

  lemma CloseAtKeeps(p: Params, w: World, count: nat, end: nat)
    requires Inv(p, w) && end < |w.leaves|
    ensures var t := w.(epochs := CloseAt(p, w, count, end));
      Inv(p, t) && Frozen(w, t)
  {
    var t := w.(epochs := CloseAt(p, w, count, end));
    var n := |w.epochs| - 1;
    assert forall i :: 0 <= i < n ==> t.epochs[i] == w.epochs[i];
    assert t.epochs[n].start == w.epochs[n].start && t.epochs[n].number == n && ClosedWell(p, t, t.epochs[n]);
    assert t.epochs[n + 1] == NewEpoch(n + 1, end + 1);
  }

  /** Replacing one epoch by the same batch, without losing a commit, keeps everything. */
  lemma ReplaceKeeps(p: Params, w: World, t: World, i: nat, e: Epoch)
    requires Inv(p, w) && i < |w.epochs| && t.epochs == w.epochs[i := e] && t.leaves == w.leaves
    requires e.number == w.epochs[i].number && e.start == w.epochs[i].start && e.end == w.epochs[i].end
      && e.root == w.epochs[i].root
    ensures Inv(p, t)
    ensures (i < |w.epochs| - 1 ==> e.count == w.epochs[i].count) && KeepsCommit(w.epochs[i], e) ==> Frozen(w, t)
  {
    assert forall k :: 0 <= k < |t.epochs| ==> t.epochs[k] == if k == i then e else w.epochs[k];
  }

  lemma RecordKeeps(p: Params, w: World, leaf: Fr)
    requires Inv(p, w)
    ensures Inv(p, Step(p, w, Record(leaf))) && Frozen(w, Step(p, w, Record(leaf)))
  {
    var t := Step(p, w, Record(leaf));
    forall i | 0 <= i < |w.epochs| - 1
      ensures ClosedWell(p, t, t.epochs[i])
    {
      RootAfterAppend(p, w.leaves, leaf, w.epochs[i].end.value);
    }
  }

  /** The open epoch's count may change freely. */
  lemma CountKeeps(p: Params, w: World, count: nat)
    requires Inv(p, w)
    ensures var t := w.(epochs := WithCount(w.epochs, count));
      Inv(p, t) && Frozen(w, t)
  {
    var n := |w.epochs| - 1;
    ReplaceKeeps(p, w, w.(epochs := WithCount(w.epochs, count)), n, w.epochs[n].(count := count));
  }

  lemma MarkKeeps(p: Params, w: World, event: Event)
    requires Inv(p, w) && (event.MarkCommitted? || event.AttachOplog?)
    ensures Inv(p, Step(p, w, event)) && Frozen(w, Step(p, w, event))
  {
    var t := Step(p, w, event);
    var i := Locate(w.epochs, event.number);
    if i < |w.epochs| {
      if event.MarkCommitted? {
        ReplaceKeeps(p, w, t, i, Commit(w.epochs[i], event.txHash));
      } else if w.epochs[i].end.Some? {
        ReplaceKeeps(p, w, t, i, w.epochs[i].(oplog := Some(event.range)));
      }
    }
  }

  /** Nothing the invariant speaks about has changed. */
  lemma SameKeeps(p: Params, w: World, t: World)
    requires Inv(p, w) && t.epochs == w.epochs && t.leaves == w.leaves
    ensures Inv(p, t) && Frozen(w, t)
  {
  }

  lemma AdvanceKeeps(p: Params, w: World, count: nat, end: int)
    requires Inv(p, w)
    ensures Inv(p, Advance(p, w, count, end)) && Frozen(w, Advance(p, w, count, end))
  {
    CountKeeps(p, w, count);
    if 0 <= end < |w.leaves| {
      CloseAtKeeps(p, w, count, end);
    }
  }

  lemma RecordEventKeeps(p: Params, w: World, index: nat)
    requires Inv(p, w)
    ensures Inv(p, Step(p, w, RecordEvent(index))) && Frozen(w, Step(p, w, RecordEvent(index)))
  {
    var t := Advance(p, w, w.epochs[|w.epochs| - 1].count + 1, index);
    assert Step(p, w, RecordEvent(index)) == t;
    AdvanceKeeps(p, w, w.epochs[|w.epochs| - 1].count + 1, index);
  }

  lemma SyncKeeps(p: Params, w: World)
    requires Inv(p, w)
    ensures Inv(p, Step(p, w, Sync)) && Frozen(w, Step(p, w, Sync))
  {
    var e := w.epochs[|w.epochs| - 1];
    var count := if w.events > e.start then w.events - e.start else 0;
    assert Step(p, w, Sync) == Advance(p, w, count, e.start + count - 1);
    AdvanceKeeps(p, w, count, e.start + count - 1);
  }

  lemma CloseKeeps(p: Params, w: World)
    requires Inv(p, w)
    ensures Inv(p, Step(p, w, Close)) && Frozen(w, Step(p, w, Close))
  {
    var e, t := w.epochs[|w.epochs| - 1], Step(p, w, Close);
    if e.count == 0 || e.start + e.count - 1 >= |w.leaves| {
      SameKeeps(p, w, t);
    } else {
      assert t == w.(epochs := CloseAt(p, w, e.count, e.start + e.count - 1));
      CloseAtKeeps(p, w, e.count, e.start + e.count - 1);
    }
  }

  lemma StepKeepsInv(p: Params, w: World, event: Event)
    requires Inv(p, w)
    ensures Inv(p, Step(p, w, event)) && Frozen(w, Step(p, w, event))
  {
    match event
    case Record(leaf) => RecordKeeps(p, w, leaf);
    case RecordEvent(index) => RecordEventKeeps(p, w, index);
    case Close => CloseKeeps(p, w);
    case Sync => SyncKeeps(p, w);
    case MarkCommitted(_, _) => MarkKeeps(p, w, event);
    case AttachOplog(_, _) => MarkKeeps(p, w, event);
    case _ => SameKeeps(p, w, Step(p, w, event));
  }

  function After(p: Params, w: World, events: seq<Event>): (r: World)
    requires w.epochs != []
    ensures r.epochs != []
    decreases |events|
  {
    if events == [] then w else After(p, Step(p, w, events[0]), events[1..])
  }

  function Initial(threshold: nat): World {
    World([], 0, [NewEpoch(0, 0)], threshold, None)
  }

  /**
   In every run, however listener, scan, close and commit interleave: epochs stay contiguous, closed
   ones never change, and a closed epoch's root is the root of exactly the leaves up to its end, no
   matter how many leaves were inserted before it was closed or afterwards.
   */
  lemma {:induction false} EveryRun(p: Params, w: World, events: seq<Event>)
    requires Inv(p, w)
    ensures Inv(p, After(p, w, events)) && Frozen(w, After(p, w, events))
    decreases |events|
  {
    if events != [] {
      var v := Step(p, w, events[0]);
      StepKeepsInv(p, w, events[0]);
      EveryRun(p, v, events[1..]);
      FrozenTrans(w, v, After(p, v, events[1..]));
    }
  }

  lemma FrozenTrans(a: World, b: World, c: World)
    requires a.epochs != [] && b.epochs != [] && Frozen(a, b) && Frozen(b, c)
    ensures Frozen(a, c)
  {
  }

  // ----- When epochs partition the log -----

  /** The epoch's count is the number of leaves from its start to its end, and there is at least one. */
  predicate Accurate(e: Epoch) {
    e.end.Some? && e.start <= e.end.value && e.count == e.end.value - e.start + 1
  }

  predicate AllAccurate(w: World) {
    forall i :: 0 <= i < |w.epochs| - 1 ==> Accurate(w.epochs[i])
  }

  /** The index of the next leaf that the open epoch has not counted. */
  function Cursor(w: World): nat
    requires w.epochs != []
  {
    w.epochs[|w.epochs| - 1].start + w.epochs[|w.epochs| - 1].count
  }

  predicate Closes(w: World, index: nat)
    requires w.epochs != []
  {
    var e := w.epochs[|w.epochs| - 1];
    e.end.None? && w.threshold > 0 && e.count + 1 >= w.threshold && index < |w.leaves|
  }

  /** A closing scan step keeps counts and boundaries in agreement exactly when it is fed the next index. */
  lemma CloseAccurateIff(p: Params, w: World, index: nat)
    requires Inv(p, w) && AllAccurate(w) && Closes(w, index)
    ensures AllAccurate(Step(p, w, RecordEvent(index)))
      <==> index == Cursor(w)
  {
    var n := |w.epochs| - 1;
    var t := Step(p, w, RecordEvent(index));
    assert t.epochs[n].end == Some(index) && t.epochs[n].count == w.epochs[n].count + 1
      && t.epochs[n].start == w.epochs[n].start;
    assert forall i :: 0 <= i < n ==> t.epochs[i] == w.epochs[i];
    if index == w.epochs[n].start + w.epochs[n].count {
      assert Accurate(t.epochs[n]);
    }
    if AllAccurate(t) {
      assert Accurate(t.epochs[n]);
    }
  }

  /** A closing feed gives the index after the leaves counted so far. */
  predicate GoodFeed(w: World, event: Event)
    requires w.epochs != []
  {
    event.RecordEvent? && Closes(w, event.index) ==> event.index == Cursor(w)
  }

  predicate InOrder(p: Params, w: World, events: seq<Event>)
    requires w.epochs != []
    decreases |events|
  {
    events == [] || (GoodFeed(w, events[0]) && InOrder(p, Step(p, w, events[0]), events[1..]))
  }

  lemma StepAccurateIff(p: Params, w: World, event: Event)
    requires Inv(p, w) && AllAccurate(w)
    ensures AllAccurate(Step(p, w, event)) <==> GoodFeed(w, event)
  {
    if event.RecordEvent? && Closes(w, event.index) {
      CloseAccurateIff(p, w, event.index);
    } else {
      StepKeepsInv(p, w, event);
      OthersAccurate(p, w, event);
    }
  }

  /** Closed epochs do not change, so what is inaccurate once stays so. */
  lemma StaysInaccurate(v: World, w: World)
    requires v.epochs != [] && Frozen(v, w) && !AllAccurate(v)
    ensures !AllAccurate(w)
  {
    var i :| 0 <= i < |v.epochs| - 1 && !Accurate(v.epochs[i]);
    assert SameBatch(v.epochs[i], w.epochs[i]);
  }

  /** Every other way of closing takes the end from the count. */
  lemma OthersAccurate(p: Params, w: World, event: Event)
    requires Inv(p, w) && AllAccurate(w) && !(event.RecordEvent? && Closes(w, event.index))
    requires Frozen(w, Step(p, w, event))
    ensures AllAccurate(Step(p, w, event))
  {
    var n := |w.epochs| - 1;
    var t := Step(p, w, event);
    forall i | 0 <= i < |t.epochs| - 1
      ensures Accurate(t.epochs[i])
    {
      if i < n {
        assert SameBatch(w.epochs[i], t.epochs[i]) && Accurate(w.epochs[i]);
      } else {
        LastClosedAccurate(p, w, event);
      }
    }
  }

  lemma LastClosedAccurate(p: Params, w: World, event: Event)
    requires Inv(p, w) && !(event.RecordEvent? && Closes(w, event.index))
    requires |Step(p, w, event).epochs| > |w.epochs|
    ensures |Step(p, w, event).epochs| == |w.epochs| + 1 && Accurate(Step(p, w, event).epochs[|w.epochs| - 1])
  {
  }

  /** Counts and boundaries of all closed epochs agree after a run exactly when all its closing feeds were good. */
  lemma {:induction false} RunAccurateIff(p: Params, w: World, events: seq<Event>)
    requires Inv(p, w) && AllAccurate(w)
    ensures AllAccurate(After(p, w, events)) <==> InOrder(p, w, events)
    decreases |events|
  {
    if events != [] {
      var v := Step(p, w, events[0]);
      StepAccurateIff(p, w, events[0]);
      StepKeepsInv(p, w, events[0]);
      if AllAccurate(v) {
        RunAccurateIff(p, v, events[1..]);
      } else {
        EveryRun(p, v, events[1..]);
        StaysInaccurate(v, After(p, v, events[1..]));
      }
    }
  }

  /** From the manager's first state on. */
  lemma FromTheStart(p: Params, threshold: nat, events: seq<Event>)
    ensures var v := After(p, Initial(threshold), events);
      Inv(p, v) && (AllAccurate(v) <==> InOrder(p, Initial(threshold), events))
  {
    EveryRun(p, Initial(threshold), events);
    RunAccurateIff(p, Initial(threshold), events);
  }

  /** Accurate closed epochs partition the log: every leaf before the open epoch is in exactly one of them. */
  lemma EpochsPartition(p: Params, w: World, k: nat)
    requires Inv(p, w) && AllAccurate(w) && k < w.epochs[|w.epochs| - 1].start
    ensures exists i :: 0 <= i < |w.epochs| - 1 && Within(w.epochs[i], k)
    ensures forall i, j :: 0 <= i < j < |w.epochs| - 1 ==> !(Within(w.epochs[i], k) && Within(w.epochs[j], k))
  {
    var i := FindBatch(p, w, k, |w.epochs| - 1);
    forall i, j | 0 <= i < j < |w.epochs| - 1
      ensures !(Within(w.epochs[i], k) && Within(w.epochs[j], k))
    {
      Ordered(p, w, i, j);
    }
  }

  predicate Within(e: Epoch, k: nat) {
    e.end.Some? && e.start <= k <= e.end.value
  }

  lemma {:induction false} FindBatch(p: Params, w: World, k: nat, n: nat) returns (i: nat)
    requires Inv(p, w) && AllAccurate(w) && n < |w.epochs| && k < w.epochs[n].start
    ensures i < n && Within(w.epochs[i], k)
    decreases n
  {
    assert n > 0;
    if k >= w.epochs[n - 1].start {
      i := n - 1;
    } else {
      i := FindBatch(p, w, k, n - 1);
    }
  }

  lemma {:induction false} Ordered(p: Params, w: World, i: nat, j: nat)
    requires Inv(p, w) && AllAccurate(w) && i < j < |w.epochs|
    ensures w.epochs[i].end.value < w.epochs[j].start
    decreases j
  {
    assert w.epochs[j].start == w.epochs[j - 1].end.value + 1;
    if i < j - 1 {
      Ordered(p, w, i, j - 1);
      assert Accurate(w.epochs[j - 1]);
    }
  }

  // ----- What a feeder can see -----

  /** What the events alone tell: the next index to feed, the number of leaves, and of listed events. */
  datatype Track = Track(cursor: nat, leaves: nat, listed: nat)

  function TrackStep(t: Track, event: Event): Track {
    match event
    case Record(_) => Track(t.cursor, t.leaves + 1, t.listed + 1)
    case Prune(n) => Track(t.cursor, t.leaves, if n <= t.listed then t.listed - n else 0)
    case RecordEvent(_) => Track(t.cursor + 1, t.leaves, t.listed)
    case Sync => Track(t.listed, t.leaves, t.listed)
    case _ => t
  }

  /** Every index fed is the one after the last, or after the last sync. */
  predicate FedInTurn(t: Track, events: seq<Event>)
    decreases |events|
  {
    events == [] || (
      && (events[0].RecordEvent? ==> events[0].index == t.cursor)
      && FedInTurn(TrackStep(t, events[0]), events[1..]))
  }

  /** Only leaves that are in the log are fed, and a sync finds none of them pruned. */
  predicate Sane(t: Track, events: seq<Event>)
    decreases |events|
  {
    events == [] || (
      && (events[0].RecordEvent? ==> events[0].index < t.leaves)
      && (events[0].Sync? ==> t.listed == t.leaves)
      && Sane(TrackStep(t, events[0]), events[1..]))
  }

  predicate Tracks(t: Track, w: World)
    requires w.epochs != []
  {
    t == Track(Cursor(w), |w.leaves|, w.events)
  }

  lemma OpenStart(p: Params, w: World)
    requires Inv(p, w)
    ensures w.epochs[|w.epochs| - 1].start <= |w.leaves|
  {
    var n := |w.epochs| - 1;
    if n > 0 {
      assert ClosedWell(p, w, w.epochs[n - 1]);
      assert forall i, j :: i == n - 1 && j == n ==> w.epochs[j].start == w.epochs[i].end.value + 1;
    }
  }

  /** While feeds are good, the cursor is that of the open epoch, whatever threshold applies. */
  lemma TrackFollows(p: Params, w: World, t: Track, event: Event)
    requires Inv(p, w) && Tracks(t, w) && GoodFeed(w, event) && (event.Sync? ==> w.events == |w.leaves|)
    ensures Tracks(TrackStep(t, event), Step(p, w, event))
  {
    OpenStart(p, w);
  }

  lemma {:induction false} InTurnIsInOrder(p: Params, w: World, t: Track, events: seq<Event>)
    requires Inv(p, w) && Tracks(t, w) && Sane(t, events) && FedInTurn(t, events)
    ensures InOrder(p, w, events)
    decreases |events|
  {
    if events != [] {
      TrackFollows(p, w, t, events[0]);
      StepKeepsInv(p, w, events[0]);
      InTurnIsInOrder(p, Step(p, w, events[0]), TrackStep(t, events[0]), events[1..]);
    }
  }

  /** With threshold 1 every feed closes, so an index out of turn shows at once. */
  lemma {:induction false} OutOfTurnShows(p: Params, w: World, t: Track, events: seq<Event>)
    requires Inv(p, w) && Tracks(t, w) && Sane(t, events) && w.threshold == 1
    requires forall i :: 0 <= i < |events| ==> !events[i].SetThreshold?
    requires InOrder(p, w, events)
    ensures FedInTurn(t, events)
    decreases |events|
  {
    if events != [] {
      assert !events[0].SetThreshold?;
      TrackFollows(p, w, t, events[0]);
      StepKeepsInv(p, w, events[0]);
      OutOfTurnShows(p, Step(p, w, events[0]), TrackStep(t, events[0]), events[1..]);
    }
  }

  /**
   From the manager's first state: closed epochs come out accurate under every threshold exactly when
   the indices are fed in turn.
   */
  lemma AccurateIff(p: Params, events: seq<Event>)
    requires Sane(Track(0, 0, 0), events) && forall i :: 0 <= i < |events| ==> !events[i].SetThreshold?
    ensures (forall threshold :: AllAccurate(After(p, Initial(threshold), events)))
      <==> FedInTurn(Track(0, 0, 0), events)
  {
    forall threshold
      ensures AllAccurate(After(p, Initial(threshold), events)) <==> InOrder(p, Initial(threshold), events)
      ensures FedInTurn(Track(0, 0, 0), events) ==> InOrder(p, Initial(threshold), events)
    {
      RunAccurateIff(p, Initial(threshold), events);
      if FedInTurn(Track(0, 0, 0), events) {
        InTurnIsInOrder(p, Initial(threshold), Track(0, 0, 0), events);
      }
    }
    if forall threshold :: AllAccurate(After(p, Initial(threshold), events)) {
      assert AllAccurate(After(p, Initial(1), events));
      OutOfTurnShows(p, Initial(1), Track(0, 0, 0), events);
    }
  }

  /** The leaves that have been counted: fed, or present at a sync. */
  function CountedAfter(counted: set<nat>, t: Track, event: Event): set<nat> {
    match event
    case RecordEvent(i) => counted + {i}
    case Sync => Below(t.listed)
    case _ => counted
  }

  function Below(n: nat): (r: set<nat>)
    ensures forall i: nat :: i in r <==> i < n
  {
    if n == 0 then {} else Below(n - 1) + {n - 1}
  }

  /**
   Several callers may each record a leaf and feed it later, or not at all. Every leaf is counted once and
   overtakes none: what is fed has not been counted, and all leaves before it have.
   */
  predicate NoneOvertaken(counted: set<nat>, t: Track, events: seq<Event>)
    decreases |events|
  {
    events == [] || (
      && (events[0].RecordEvent? ==> events[0].index !in counted && Below(events[0].index) <= counted)
      && NoneOvertaken(CountedAfter(counted, t, events[0]), TrackStep(t, events[0]), events[1..]))
  }

  lemma NextOnly(c: nat, i: nat)
    ensures i !in Below(c) && Below(i) <= Below(c) <==> i == c
    ensures Below(c) + {c} == Below(c + 1)
  {
    if i > c {
      assert c in Below(i) && c !in Below(c);
    }
  }

  /** Records and feeds of any number of callers are in turn exactly when no leaf overtakes another. */
  lemma {:induction false} InTurnIff(t: Track, events: seq<Event>)
    ensures FedInTurn(t, events) <==> NoneOvertaken(Below(t.cursor), t, events)
    decreases |events|
  {
    if events != [] {
      var e := events[0];
      if e.RecordEvent? {
        NextOnly(t.cursor, e.index);
      }
      if !e.RecordEvent? || e.index == t.cursor {
        assert CountedAfter(Below(t.cursor), t, e) == Below(TrackStep(t, e).cursor);
        InTurnIff(TrackStep(t, e), events[1..]);
      }
    }
  }

  /** Two leaves are recorded and only the second is fed: its epoch holds two leaves and counts one. */
  lemma OvertakenExample(p: Params, a: Fr, b: Fr)
    ensures var run := [Record(a), Record(b), RecordEvent(1)];
      && !NoneOvertaken({}, Track(0, 0, 0), run)
      && var v := After(p, Initial(1), run);
         |v.epochs| == 2 && v.epochs[0].end == Some(1) && v.epochs[0].count == 1 && !AllAccurate(v)
  {
    var run := [Record(a), Record(b), RecordEvent(1)];
    var second, last := [Record(b), RecordEvent(1)], [RecordEvent(1)];
    assert run[1..] == second && second[1..] == last;
    assert 0 in Below(1);
    assert !NoneOvertaken({}, Track(0, 2, 2), last);
    assert !NoneOvertaken({}, Track(0, 1, 1), second);
    var u, w := World([a], 1, [NewEpoch(0, 0)], 1, None), World([a, b], 2, [NewEpoch(0, 0)], 1, None);
    assert Step(p, Initial(1), Record(a)) == u by {
      assert [] + [a] == [a];
    }
    assert Step(p, u, Record(b)) == w by {
      assert [a] + [b] == [a, b];
    }
    AfterTwo(p, u, Record(b), RecordEvent(1));
    assert After(p, Initial(1), run) == After(p, u, second);
    assert !Accurate(Step(p, w, RecordEvent(1)).epochs[0]);
  }

  /** A leaf that is fed at once. */
  function Fed(leaf: Fr, index: nat): seq<Event> {
    [Record(leaf), RecordEvent(index)]
  }

  lemma AfterTwo(p: Params, w: World, a: Event, b: Event)
    requires w.epochs != []
    ensures After(p, w, [a, b]) == Step(p, Step(p, w, a), b)
  {
    var two, one, v := [a, b], [b], Step(p, w, a);
    assert two[0] == a && two[1..] == one && one[0] == b && one[1..] == [];
    assert After(p, v, one) == After(p, Step(p, v, b), []) == Step(p, v, b);
    assert After(p, w, two) == After(p, v, one);
  }

  /** The first epoch, still open, with threshold 2. */
  function FirstOpen(leaves: seq<Fr>, listed: nat, count: nat): World {
    World(leaves, listed, [NewEpoch(0, 0).(count := count)], 2, None)
  }

  lemma FirstFed(p: Params, leaves: seq<Fr>, leaf: Fr, index: nat)
    ensures After(p, FirstOpen(leaves, 0, 0), Fed(leaf, index)) == FirstOpen(leaves + [leaf], 1, 1)
  {
    AfterTwo(p, FirstOpen(leaves, 0, 0), Record(leaf), RecordEvent(index));
  }

  lemma PrunedAndSynced(p: Params, leaves: seq<Fr>)
    ensures After(p, FirstOpen(leaves, 1, 1), [Prune(1), Sync]) == FirstOpen(leaves, 0, 0)
  {
    AfterTwo(p, FirstOpen(leaves, 1, 1), Prune(1), Sync);
  }

  lemma ClosesLate(p: Params, leaves: seq<Fr>, leaf: Fr)
    requires |leaves| == 2
    ensures var v := After(p, FirstOpen(leaves, 1, 1), Fed(leaf, 2));
      |v.epochs| == 2 && v.epochs[0].end == Some(2) && v.epochs[0].count == 2 && !AllAccurate(v)
  {
    AfterTwo(p, FirstOpen(leaves, 1, 1), Record(leaf), RecordEvent(2));
    assert !Accurate(After(p, FirstOpen(leaves, 1, 1), Fed(leaf, 2)).epochs[0]);
  }

  /**
   A sync over a pruned list counts too few leaves: the feeds are in turn from 0 to 2, but the epoch that
   ends with leaf 2 has counted 2.
   */
  lemma PruneExample(p: Params, a: Fr)
    ensures var v := After(p, Initial(2), Fed(a, 0) + [Prune(1), Sync] + Fed(a, 1) + Fed(a, 2));
      |v.epochs| == 2 && v.epochs[0].end == Some(2) && v.epochs[0].count == 2 && !AllAccurate(v)
  {
    var w := FirstOpen([], 0, 0);
    var run, prune := Fed(a, 0), [Prune(1), Sync];
    FirstFed(p, [], a, 0);
    PrunedAndSynced(p, [] + [a]);
    AfterAppend(p, w, run, prune);
    FirstFed(p, [] + [a], a, 1);
    AfterAppend(p, w, run + prune, Fed(a, 1));
    ClosesLate(p, [] + [a] + [a], a);
    AfterAppend(p, w, run + prune + Fed(a, 1), Fed(a, 2));
  }

  lemma {:induction false} AfterAppend(p: Params, w: World, a: seq<Event>, b: seq<Event>)
    requires w.epochs != []
    ensures After(p, w, a + b) == After(p, After(p, w, a), b)
    decreases |a|
  {
    if a == [] {
      assert a + b == b;
    } else {
      assert (a + b)[0] == a[0] && (a + b)[1..] == a[1..] + b;
      AfterAppend(p, Step(p, w, a[0]), a[1..], b);
    }
  }

  /**
   Feeds out of turn: when leaves arrive between a scan's snapshot and the sync at startup, the
   sync counts them and the scan feeds them again. Here the second epoch ends before it starts.
   */
  lemma RescanExample(p: Params)
    ensures var w := World([1, 2, 3, 4], 4, [NewEpoch(0, 0)], 2, None);
      Inv(p, w) && AllAccurate(w)
      && var v := After(p, w, [Sync, RecordEvent(2), RecordEvent(3)]);
         |v.epochs| == 3 && v.epochs[1].start == 4 && v.epochs[1].end == Some(3) && !AllAccurate(v)
  {
    var w := World([1, 2, 3, 4], 4, [NewEpoch(0, 0)], 2, None);
    var events := [Sync, RecordEvent(2), RecordEvent(3)];
    var a := Step(p, w, Sync);
    assert a.epochs[|a.epochs| - 1] == NewEpoch(1, 4);
    var b := Step(p, a, RecordEvent(2));
    assert b.epochs[|b.epochs| - 1] == NewEpoch(1, 4).(count := 1);
    var c := Step(p, b, RecordEvent(3));
    assert c.epochs[1].end == Some(3);
    assert events[1..] == [RecordEvent(2), RecordEvent(3)] && events[1..][1..] == [RecordEvent(3)]
      && events[1..][1..][1..] == [];
    assert !Accurate(c.epochs[1]);
  }

  /** The leaves a closed epoch's root stands for. */
  function Sealed(w: World, e: Epoch): seq<Fr>
    requires e.end.Some? && e.end.value < |w.leaves|
  {
    w.leaves[..e.end.value + 1]
  }

  /**
   Closed epochs of two logs carry the same root exactly when, up to their ends, the logs have the same
   leaves at every position of the tree; an absent leaf counts as zero.
   */
  lemma EpochRootsEqualIff(p: Params, s: Hashed, v: World, i: nat, w: World, j: nat)
    requires Inv(p, v) && Inv(p, w) && i < |v.epochs| - 1 && j < |w.epochs| - 1
    requires ClosedWell(p, v, v.epochs[i]) && ClosedWell(p, w, w.epochs[j])
    requires CollisionFree(p.hash, s)
    requires HashedIn(p.hash, s, Appended(Sealed(v, v.epochs[i])), 0, p.height)
    requires HashedIn(p.hash, s, Appended(Sealed(w, w.epochs[j])), 0, p.height)
    ensures v.epochs[i].root == w.epochs[j].root
      <==> SameLeaves(Appended(Sealed(v, v.epochs[i])), 0, Appended(Sealed(w, w.epochs[j])), 0, Pow2(p.height))
  {
    RootBindsLeaves(p.hash, s, Appended(Sealed(v, v.epochs[i])), 0, Appended(Sealed(w, w.epochs[j])), 0, p.height);
  }

  /** Logs without zero leaves within the capacity: exactly when they hold the same leaves up to those ends. */
  lemma EpochRootBindsLog(p: Params, s: Hashed, v: World, i: nat, w: World, j: nat)
    requires Inv(p, v) && Inv(p, w) && i < |v.epochs| - 1 && j < |w.epochs| - 1
    requires ClosedWell(p, v, v.epochs[i]) && ClosedWell(p, w, w.epochs[j])
    requires CollisionFree(p.hash, s)
    requires HashedIn(p.hash, s, Appended(Sealed(v, v.epochs[i])), 0, p.height)
    requires HashedIn(p.hash, s, Appended(Sealed(w, w.epochs[j])), 0, p.height)
    requires ZERO !in v.leaves && ZERO !in w.leaves && |v.leaves| <= Pow2(p.height) && |w.leaves| <= Pow2(p.height)
    ensures v.epochs[i].root == w.epochs[j].root <==> Sealed(v, v.epochs[i]) == Sealed(w, w.epochs[j])
  {
    LogRootsEqualIff(p.hash, s, p.height, Sealed(v, v.epochs[i]), Sealed(w, w.epochs[j]));
  }
}
