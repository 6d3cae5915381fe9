/**
 The scan loop that feeds an epoch manager from the audit log (audit-service/src/auditd/mod.rs), one step
 at a time, while the listener, closing and committing go on.
 */
module AutoCommit {
  import opened Epochs
  import opened Merkle

  datatype Phase = Fresh | Snapped | Idle | Feeding

  /**
   `last` is `last_event_count`; `next` to `goal` are the indices still to feed. `early` counts the leaves
   that arrived between the snapshot and the sync, and `closed` says whether a feed has closed an epoch.
   */
  datatype Loop = Loop(world: World, phase: Phase, last: nat, next: nat, goal: nat, early: nat, closed: bool)

  datatype LoopStep = Snapshot | SyncAtStart | Poll | Feed | Meanwhile(event: Event)

  /** The loop is the only feeder of its manager, and the list is not pruned while it runs. */
  predicate Enabled(l: Loop, s: LoopStep) {
    match s
    case Snapshot => l.phase == Fresh
    case SyncAtStart => l.phase == Snapped
    case Poll => l.phase == Idle
    case Feed => l.phase == Feeding
    case Meanwhile(e) => !e.RecordEvent? && !e.Sync? && !e.Prune?
  }

  /** What goes on beside the loop is free: recording, closing, committing, attaching, and new thresholds. */
  lemma EnabledMeans(l: Loop, leaf: Fr, number: nat, txHash: string, range: OplogRange, threshold: nat)
    ensures (Enabled(l, Snapshot) <==> l.phase == Fresh) && (Enabled(l, SyncAtStart) <==> l.phase == Snapped)
    ensures (Enabled(l, Poll) <==> l.phase == Idle) && (Enabled(l, Feed) <==> l.phase == Feeding)
    ensures Enabled(l, Meanwhile(Record(leaf))) && Enabled(l, Meanwhile(Close))
    ensures Enabled(l, Meanwhile(MarkCommitted(number, txHash))) && Enabled(l, Meanwhile(AttachOplog(number, range)))
    ensures Enabled(l, Meanwhile(SetThreshold(threshold)))
  {
  }

  function Next(p: Params, l: Loop, s: LoopStep): (r: Loop)
    requires l.world.epochs != []
    ensures r.world.epochs != []
  {
    match s
    case Snapshot => l.(phase := Snapped, last := l.world.events)
    case SyncAtStart => l.(phase := Idle, world := Step(p, l.world, Sync))
    case Poll =>
      if l.world.events == l.last then l else l.(phase := Feeding, next := l.last, goal := l.world.events)
    case Feed =>
      if l.next < l.goal
      then l.(world := Step(p, l.world, RecordEvent(l.next)), next := l.next + 1,
              closed := l.closed || Closes(l.world, l.next))
      else l.(phase := Idle, last := l.goal)
    case Meanwhile(e) =>
      l.(world := Step(p, l.world, e), early := if l.phase == Snapped && e.Record? then l.early + 1 else l.early)
  }

  function AfterSteps(p: Params, l: Loop, steps: seq<LoopStep>): (r: Loop)
    requires l.world.epochs != []
    ensures r.world.epochs != []
    decreases |steps|
  {
    if steps == [] then l else AfterSteps(p, Next(p, l, steps[0]), steps[1..])
  }

  predicate Allowed(p: Params, l: Loop, steps: seq<LoopStep>)
    requires l.world.epochs != []
    decreases |steps|
  {
    steps == [] || (Enabled(l, steps[0]) && Allowed(p, Next(p, l, steps[0]), steps[1..]))
  }

  function Start(w: World): Loop {
    Loop(w, Fresh, 0, 0, 0, 0, false)
  }

  /** Accurate exactly while no feed has closed an epoch off by the early leaves; then the cursor is off by them. */
  predicate OffByEarly(l: Loop, next: nat)
    requires l.world.epochs != []
  {
    && (AllAccurate(l.world) <==> l.early == 0 || !l.closed)
    && (AllAccurate(l.world) ==> Cursor(l.world) == next + l.early)
  }

  predicate LoopInv(p: Params, l: Loop) {
    && Inv(p, l.world) && l.world.events == |l.world.leaves|
    && match l.phase
       case Fresh => AllAccurate(l.world) && l.early == 0 && !l.closed
       case Snapped => AllAccurate(l.world) && !l.closed && l.last + l.early == |l.world.leaves|
       case Idle => l.last <= |l.world.leaves| && OffByEarly(l, l.last)
       case Feeding => l.last <= l.next <= l.goal <= |l.world.leaves| && OffByEarly(l, l.next)
  }

  lemma MeanwhileKeeps(p: Params, l: Loop, e: Event)
    requires LoopInv(p, l) && Enabled(l, Meanwhile(e))
    ensures LoopInv(p, Next(p, l, Meanwhile(e)))
  {
    var w, v := l.world, Step(p, l.world, e);
    StepKeepsInv(p, w, e);
    if AllAccurate(w) {
      StepAccurateIff(p, w, e);
    } else {
      StaysInaccurate(w, v);
    }
    TrackFollows(p, w, Track(Cursor(w), |w.leaves|, w.events), e);
  }

  lemma FeedKeeps(p: Params, l: Loop)
    requires LoopInv(p, l) && l.phase == Feeding && l.next < l.goal
    ensures LoopInv(p, Next(p, l, Feed))
  {
    var w, e := l.world, RecordEvent(l.next);
    var v := Step(p, w, e);
    StepKeepsInv(p, w, e);
    if AllAccurate(w) {
      StepAccurateIff(p, w, e);
      if GoodFeed(w, e) {
        TrackFollows(p, w, Track(Cursor(w), |w.leaves|, w.events), e);
      }
    } else {
      StaysInaccurate(w, v);
    }
  }

  lemma SyncKeepsLoop(p: Params, l: Loop)
    requires LoopInv(p, l) && l.phase == Snapped
    ensures LoopInv(p, Next(p, l, SyncAtStart))
  {
    var w := l.world;
    StepKeepsInv(p, w, Sync);
    StepAccurateIff(p, w, Sync);
    TrackFollows(p, w, Track(Cursor(w), |w.leaves|, w.events), Sync);
  }

  lemma NextKeeps(p: Params, l: Loop, s: LoopStep)
    requires LoopInv(p, l) && Enabled(l, s)
    ensures LoopInv(p, Next(p, l, s))
  {
    match s
    case Snapshot =>
    case SyncAtStart => SyncKeepsLoop(p, l);
    case Poll =>
    case Feed => if l.next < l.goal { FeedKeeps(p, l); }
    case Meanwhile(e) => MeanwhileKeeps(p, l, e);
  }

  lemma {:induction false} LoopKeepsInv(p: Params, l: Loop, steps: seq<LoopStep>)
    requires LoopInv(p, l) && Allowed(p, l, steps)
    ensures LoopInv(p, AfterSteps(p, l, steps))
    decreases |steps|
  {
    if steps != [] {
      NextKeeps(p, l, steps[0]);
      LoopKeepsInv(p, Next(p, l, steps[0]), steps[1..]);
    }
  }

  /**
   From any accurate state with a whole list, in every interleaving: closed epochs are accurate exactly
   when no leaf arrived between the snapshot and the sync, or no feed has closed an epoch yet. When the
   loop has caught up and no leaf was early, the leaves not in closed epochs are those the open one counts.
   */
  lemma ScanAccurateIff(p: Params, w: World, steps: seq<LoopStep>)
    requires Inv(p, w) && AllAccurate(w) && w.events == |w.leaves| && Allowed(p, Start(w), steps)
    ensures var l := AfterSteps(p, Start(w), steps);
      && (AllAccurate(l.world) <==> l.early == 0 || !l.closed)
      && (l.phase == Idle && l.last == l.world.events && l.early == 0 ==> Cursor(l.world) == |l.world.leaves|)
  {
    LoopKeepsInv(p, Start(w), steps);
  }

  /** Only leaves of that moment are early: none, if the sync comes right after the snapshot. */
  lemma {:induction false} NoneEarly(p: Params, l: Loop, steps: seq<LoopStep>)
    requires l.world.epochs != [] && Allowed(p, l, steps) && (l.phase == Idle || l.phase == Feeding)
    ensures AfterSteps(p, l, steps).early == l.early
    decreases |steps|
  {
    if steps != [] {
      NoneEarly(p, Next(p, l, steps[0]), steps[1..]);
    }
  }

  lemma PromptScanAccurate(p: Params, w: World, steps: seq<LoopStep>)
    requires Inv(p, w) && AllAccurate(w) && w.events == |w.leaves|
      && Allowed(p, Start(w), [Snapshot, SyncAtStart] + steps)
    ensures AllAccurate(AfterSteps(p, Start(w), [Snapshot, SyncAtStart] + steps).world)
  {
    var all := [Snapshot, SyncAtStart] + steps;
    assert all[1..][0] == SyncAtStart && all[1..][1..] == steps;
    var l := Next(p, Next(p, Start(w), Snapshot), SyncAtStart);
    NoneEarly(p, l, steps);
    ScanAccurateIff(p, w, all);
  }

  /** The feeds of one round. */
  function FeedSteps(n: nat): seq<LoopStep> {
    if n == 0 then [] else [Feed] + FeedSteps(n - 1)
  }

  /** `n` feeds from an index on. */
  function FeedEvents(from: nat, n: nat): seq<Event>
    decreases n
  {
    if n == 0 then [] else [RecordEvent(from)] + FeedEvents(from + 1, n - 1)
  }

  lemma {:induction false} FeedsRange(p: Params, l: Loop, n: nat)
    requires l.world.epochs != [] && l.phase == Feeding && l.next + n == l.goal
    ensures var steps := FeedSteps(n + 1);
      var r := AfterSteps(p, l, steps);
      && Allowed(p, l, steps) && r.phase == Idle && r.last == l.goal
      && r.world == After(p, l.world, FeedEvents(l.next, n))
    decreases n
  {
    var v := Next(p, l, Feed);
    var rest := FeedSteps(n);
    var steps := [Feed] + rest;
    assert steps[0] == Feed && steps[1..] == rest;
    if n > 0 {
      FeedsRange(p, v, n - 1);
      var events := [RecordEvent(l.next)] + FeedEvents(l.next + 1, n - 1);
      assert events[0] == RecordEvent(l.next) && events[1..] == FeedEvents(l.next + 1, n - 1);
    } else {
      assert rest == [];
    }
  }

  /**
   A round that finds another number of listed events feeds each index from the last number to this one,
   once and in order, and then waits at the new number; otherwise it changes nothing.
   */
  lemma RoundFeeds(p: Params, l: Loop)
    requires LoopInv(p, l) && l.phase == Idle
    ensures l.world.events == l.last ==> Enabled(l, Poll) && Next(p, l, Poll) == l
    ensures l.world.events != l.last ==>
      var n := l.world.events - l.last;
      n > 0 &&
      var steps := [Poll] + FeedSteps(n + 1);
      var r := AfterSteps(p, l, steps);
      && Allowed(p, l, steps) && r.phase == Idle && r.last == l.world.events
      && r.world == After(p, l.world, FeedEvents(l.last, n))
  {
    if l.world.events != l.last {
      var v := Next(p, l, Poll);
      var rest := FeedSteps(l.world.events - l.last + 1);
      var steps := [Poll] + rest;
      assert steps[0] == Poll && steps[1..] == rest;
      FeedsRange(p, v, l.world.events - l.last);
    }
  }

  /** The first two steps: the snapshot takes the number of listed events, the sync is the manager's. */
  lemma StartFeeds(p: Params, w: World)
    requires w.epochs != []
    ensures var l := Next(p, Next(p, Start(w), Snapshot), SyncAtStart);
      && Allowed(p, Start(w), [Snapshot, SyncAtStart])
      && l.phase == Idle && l.last == w.events && l.world == Step(p, w, Sync)
  {
    var steps := [Snapshot, SyncAtStart];
    assert steps[1..] == [SyncAtStart] && steps[1..][1..] == [];
  }
}
