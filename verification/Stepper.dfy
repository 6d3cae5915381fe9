/**
 The connection stepper: what it shows (src/components/ConnectingView.tsx) and how progress events
 drive it (`openProfile` in src/App.tsx).
 */
module Stepper {
  import opened Options

  const PHASES: seq<string> := ["resolve", "authenticate", "metadata", "discover", "collections"]

  datatype Status = Active | Done

  type PhaseStatus = map<string, Status>

  // ----- The view -----

  /** `PHASES.reduce(...)`: the index of the last phase with a status, or `acc`. */
  function Reduce(ps: PhaseStatus, i: nat, acc: int): int
    requires i <= |PHASES|
    decreases |PHASES| - i
  {
    if i == |PHASES| then acc else Reduce(ps, i + 1, if PHASES[i] in ps then i else acc)
  }

  function ActiveIndex(ps: PhaseStatus): int {
    Reduce(ps, 0, -1)
  }

  predicate IsDone(ps: PhaseStatus, i: nat)
    requires i < |PHASES|
  {
    (PHASES[i] in ps && ps[PHASES[i]] == Done) || ActiveIndex(ps) > i
  }

  predicate IsActive(ps: PhaseStatus, i: nat)
    requires i < |PHASES|
  {
    PHASES[i] in ps && ps[PHASES[i]] == Active && ActiveIndex(ps) == i
  }

  /** `a` is the last phase with a status. */
  predicate LastKnown(ps: PhaseStatus, a: int) {
    && -1 <= a < |PHASES|
    && (a >= 0 ==> PHASES[a] in ps)
    && (forall i :: a < i < |PHASES| ==> PHASES[i] !in ps)
  }

  lemma {:induction false} ReduceFinds(ps: PhaseStatus, i: nat, acc: int)
    requires i <= |PHASES| && -1 <= acc < i && (acc >= 0 ==> PHASES[acc] in ps)
    requires forall j :: acc < j < i ==> PHASES[j] !in ps
    ensures LastKnown(ps, Reduce(ps, i, acc))
    decreases |PHASES| - i
  {
    if i < |PHASES| {
      ReduceFinds(ps, i + 1, if PHASES[i] in ps then i else acc);
    }
  }

  lemma ActiveIndexIs(ps: PhaseStatus, a: int)
    requires LastKnown(ps, a)
    ensures ActiveIndex(ps) == a
  {
    ReduceFinds(ps, 0, -1);
  }

  /** The number of steps shown as done. */
  function DoneCount(ps: PhaseStatus): int {
    var a := ActiveIndex(ps);
    if 0 <= a < |PHASES| && PHASES[a] in ps && ps[PHASES[a]] == Done then a + 1 else if a < 0 then 0 else a
  }

  /** Whatever statuses are known, the done steps are a prefix, and an active step comes right after it. */
  lemma DoneIsPrefix(ps: PhaseStatus)
    ensures 0 <= DoneCount(ps) <= |PHASES|
    ensures forall i :: 0 <= i < |PHASES| ==> (IsDone(ps, i) <==> i < DoneCount(ps))
    ensures forall i :: 0 <= i < |PHASES| ==>
      (IsActive(ps, i) <==> i == DoneCount(ps) && PHASES[i] in ps && ps[PHASES[i]] == Active)
  {
    ReduceFinds(ps, 0, -1);
  }

  /** The steps, in order, and how many of them the known statuses make done. */
  lemma StepsMeaning(ps: PhaseStatus, a: nat)
    ensures PHASES == ["resolve", "authenticate", "metadata", "discover", "collections"]
    ensures (forall i :: 0 <= i < 5 ==> PHASES[i] !in ps) ==> DoneCount(ps) == 0
    ensures a < 5 && PHASES[a] in ps && (forall i :: a < i < 5 ==> PHASES[i] !in ps) ==>
      DoneCount(ps) == if ps[PHASES[a]] == Done then a + 1 else a
  {
    ReduceFinds(ps, 0, -1);
  }

  // ----- Progress events -----

  datatype Tick = Tick(index: nat, status: Status)

  /** The backend reports the first four phases. */
  predicate Backend(t: Tick) {
    t.index < 4
  }

  function Rank(t: Tick): nat {
    2 * t.index + (if t.status.Done? then 1 else 0)
  }

  /**
   In order: each phase active, then done, phases in sequence. Dropping any events from that sequence
   leaves ranks that still increase, and every increasing sequence arises that way.
   */
  predicate InOrder(ticks: seq<Tick>) {
    && (forall i :: 0 <= i < |ticks| ==> Backend(ticks[i]))
    && (forall i, j :: 0 <= i < j < |ticks| ==> Rank(ticks[i]) < Rank(ticks[j]))
  }

  function Apply(ps: PhaseStatus, t: Tick): PhaseStatus
    requires Backend(t)
  {
    ps[PHASES[t.index] := t.status]
  }

  function ApplyAll(ps: PhaseStatus, ticks: seq<Tick>): PhaseStatus
    requires forall i :: 0 <= i < |ticks| ==> Backend(ticks[i])
    decreases |ticks|
  {
    if ticks == [] then ps else Apply(ApplyAll(ps, ticks[..|ticks| - 1]), ticks[|ticks| - 1])
  }

  const OPENED: PhaseStatus :=
    map["resolve" := Done, "authenticate" := Done, "metadata" := Done, "discover" := Done, "collections" := Active]

  /** `connecting.phaseStatus`; `None` when nothing is being connected. */
  class App {
    var connecting: Option<PhaseStatus>

    constructor ()
      ensures connecting == None
    {
      connecting := None;
    }

    method StartConnecting()
      modifies this
      ensures connecting == Some(map[])
    {
      connecting := Some(map[]);
    }

    method OnConnectionProgress(t: Tick)
      requires Backend(t)
      modifies this
      ensures connecting == match old(connecting)
        case Some(ps) => Some(ps[["resolve", "authenticate", "metadata", "discover"][t.index] := t.status])
        case None => None
    {
      if connecting.Some? {
        connecting := Some(connecting.value[PHASES[t.index] := t.status]);
      }
    }

    method ConnectionOpened()
      modifies this
      ensures connecting == Some(map["resolve" := Done, "authenticate" := Done, "metadata" := Done,
                                     "discover" := Done, "collections" := Active])
    {
      connecting := Some(OPENED);
    }

    method Finished()
      modifies this
      ensures connecting == None
    {
      connecting := None;
    }
  }

  lemma PhasesDistinct()
    ensures forall i, j :: 0 <= i < j < |PHASES| ==> PHASES[i] != PHASES[j]
  {
    assert |PHASES[0]| == 7 && |PHASES[1]| == 12 && |PHASES[2]| == 8 && |PHASES[3]| == 8 && |PHASES[4]| == 11;
    assert PHASES[2][0] != PHASES[3][0];
  }

  /** The last event received decides what is known. */
  lemma {:induction false} LastTickKnown(ticks: seq<Tick>)
    requires InOrder(ticks)
    ensures var ps := ApplyAll(map[], ticks);
      if ticks == [] then LastKnown(ps, -1)
      else LastKnown(ps, ticks[|ticks| - 1].index) && ps[PHASES[ticks[|ticks| - 1].index]] == ticks[|ticks| - 1].status
    decreases |ticks|
  {
    if ticks != [] {
      var n := |ticks| - 1;
      LastTickKnown(ticks[..n]);
      PhasesDistinct();
      if n > 0 {
        assert Rank(ticks[n - 1]) < Rank(ticks[n]);
        assert ticks[..n][n - 1] == ticks[n - 1];
      }
    }
  }

  /** The number of steps shown as done after the given events. */
  function Shown(ticks: seq<Tick>): int
    requires forall i :: 0 <= i < |ticks| ==> Backend(ticks[i])
  {
    DoneCount(ApplyAll(map[], ticks))
  }

  /** The steps completed according to the last event. */
  function Progress(ticks: seq<Tick>): nat {
    if ticks == [] then 0 else (Rank(ticks[|ticks| - 1]) + 1) / 2
  }

  /** Under any loss of events the stepper shows exactly the progress of the last event received. */
  lemma LossyProgress(ticks: seq<Tick>)
    requires InOrder(ticks)
    ensures Shown(ticks) == Progress(ticks)
  {
    LastTickKnown(ticks);
    ActiveIndexIs(ApplyAll(map[], ticks), if ticks == [] then -1 else ticks[|ticks| - 1].index);
  }

  lemma ProgressGrows(ticks: seq<Tick>, k: nat)
    requires InOrder(ticks) && k <= |ticks|
    ensures Progress(ticks[..k]) <= Progress(ticks) <= 4
  {
    assert 0 < k ==> ticks[..k][k - 1] == ticks[k - 1];
    assert ticks != [] ==> Rank(ticks[|ticks| - 1]) <= 7;
  }

  /** The done steps never shrink along the run. */
  lemma NeverShrinks(ticks: seq<Tick>, k: nat)
    requires InOrder(ticks) && k <= |ticks|
    ensures Shown(ticks[..k]) <= Shown(ticks) <= 4
  {
    assert Shown(ticks) == Progress(ticks) by { LossyProgress(ticks); }
    assert Shown(ticks[..k]) == Progress(ticks[..k]) by { LossyProgress(ticks[..k]); }
    ProgressGrows(ticks, k);
  }

  /** Once the connection is open the stepper waits at the last step, and events that arrive late change nothing. */
  lemma {:induction false} LateTicksIgnored(ticks: seq<Tick>)
    requires forall i :: 0 <= i < |ticks| ==> Backend(ticks[i])
    ensures var ps := ApplyAll(OPENED, ticks);
      && PHASES[4] in ps && ps[PHASES[4]] == Active
      && DoneCount(ps) == 4 && IsActive(ps, 4)
    decreases |ticks|
  {
    PhasesDistinct();
    if ticks != [] {
      LateTicksIgnored(ticks[..|ticks| - 1]);
    }
    ActiveIndexIs(ApplyAll(OPENED, ticks), 4);
  }
}
