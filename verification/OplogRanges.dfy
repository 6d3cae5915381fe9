/**
 The oplog ranges attached to epochs (audit-service/src/audit/epoch.rs): each is read from where the last
 one ended.
 */
module OplogRanges {
  import opened Epochs
  import opened Merkle
  import opened Options
  import opened Sequences

  function NextStart(w: World): Ts {
    if w.nextOplogStart.Some? then w.nextOplogStart.value else 0
  }

  predicate Attaches(w: World, event: Event) {
    event.AttachOplog? && Locate(w.epochs, event.number) < |w.epochs|
      && w.epochs[Locate(w.epochs, event.number)].end.Some?
  }

  /** The ranges that were attached, in order; attaching to an open or unknown epoch fails. */
  function Attached(p: Params, w: World, events: seq<Event>): seq<OplogRange>
    requires w.epochs != []
    decreases |events|
  {
    if events == [] then []
    else (if Attaches(w, events[0]) then [events[0].range] else []) + Attached(p, Step(p, w, events[0]), events[1..])
  }

  /** Every attached range was read from `next_oplog_start_ts`, with no other attached since. */
  predicate ReadInTurn(p: Params, w: World, events: seq<Event>)
    requires w.epochs != []
    decreases |events|
  {
    events == [] || (
      && (Attaches(w, events[0]) ==> events[0].range.startTs == NextStart(w))
      && ReadInTurn(p, Step(p, w, events[0]), events[1..]))
  }

  /** Each range starts where the one before ends, the first one at `from`. */
  predicate Chained(from: Ts, ranges: seq<OplogRange>)
    decreases |ranges|
  {
    ranges == [] || (ranges[0].startTs == from && Chained(ranges[0].endTs, ranges[1..]))
  }

  function LastEnd(from: Ts, ranges: seq<OplogRange>): Ts {
    if ranges == [] then from else ranges[|ranges| - 1].endTs
  }

  /** What is attached forms a chain exactly when it was read in turn, and the next range starts at its end. */
  lemma {:induction false} AttachedChainIff(p: Params, w: World, events: seq<Event>)
    requires w.epochs != []
    ensures Chained(NextStart(w), Attached(p, w, events)) <==> ReadInTurn(p, w, events)
    ensures NextStart(After(p, w, events)) == LastEnd(NextStart(w), Attached(p, w, events))
    decreases |events|
  {
    if events != [] {
      var v := Step(p, w, events[0]);
      AttachedChainIff(p, v, events[1..]);
      if Attaches(w, events[0]) {
        AttachEpoch(p, w, events[0]);
        ChainedFirst(NextStart(w), events[0].range, Attached(p, v, events[1..]));
        assert Attached(p, w, events) == [events[0].range] + Attached(p, v, events[1..]);
      } else {
        OtherKeepsStart(p, w, events[0]);
        assert Attached(p, w, events) == Attached(p, v, events[1..]);
      }
    }
  }

  lemma ChainedFirst(from: Ts, r: OplogRange, rest: seq<OplogRange>)
    ensures Chained(from, [r] + rest) <==> r.startTs == from && Chained(r.endTs, rest)
    ensures LastEnd(from, [r] + rest) == LastEnd(r.endTs, rest)
  {
    var all := [r] + rest;
    assert all[0] == r && all[1..] == rest;
  }

  lemma OtherKeepsStart(p: Params, w: World, event: Event)
    requires w.epochs != [] && !Attaches(w, event)
    ensures NextStart(Step(p, w, event)) == NextStart(w)
  {
  }

  predicate In(r: OplogRange, t: Ts) {
    r.startTs <= t < r.endTs
  }

  /** How many of the ranges a timestamp is in. */
  function Times(ranges: seq<OplogRange>, t: Ts): nat
    decreases |ranges|
  {
    if ranges == [] then 0 else (if In(ranges[0], t) then 1 else 0) + Times(ranges[1..], t)
  }

  /** How many of the ranges run backwards over it. */
  function Back(ranges: seq<OplogRange>, t: Ts): nat
    decreases |ranges|
  {
    if ranges == [] then 0
    else (if ranges[0].endTs <= t < ranges[0].startTs then 1 else 0) + Back(ranges[1..], t)
  }

  /** Along a chain, the crossings forward and backward differ by whether the ends lie on both sides. */
  lemma {:induction false} Crossings(from: Ts, ranges: seq<OplogRange>, t: Ts)
    requires Chained(from, ranges)
    ensures var last := LastEnd(from, ranges);
      Times(ranges, t) - Back(ranges, t) == if from <= t < last then 1 else if last <= t < from then -1 else 0
    decreases |ranges|
  {
    if ranges != [] {
      Crossings(ranges[0].endTs, ranges[1..], t);
      assert |ranges| > 1 ==> ranges[1..][|ranges| - 2] == ranges[|ranges| - 1];
    }
  }

  lemma {:induction false} BackPositive(ranges: seq<OplogRange>, k: nat)
    requires k < |ranges| && ranges[k].endTs < ranges[k].startTs
    ensures Back(ranges, ranges[k].endTs) > 0
    decreases k
  {
    if k > 0 {
      BackPositive(ranges[1..], k - 1);
    }
  }

  lemma {:induction false} NoneBack(ranges: seq<OplogRange>, t: Ts)
    requires forall k :: 0 <= k < |ranges| ==> ranges[k].startTs <= ranges[k].endTs
    ensures Back(ranges, t) == 0
    decreases |ranges|
  {
    if ranges != [] {
      NoneBack(ranges[1..], t);
    }
  }

  /** No timestamp before the last end is left out of a chain from 0. */
  lemma NothingLeftOut(ranges: seq<OplogRange>, t: Ts)
    requires Chained(0, ranges) && t < LastEnd(0, ranges)
    ensures Times(ranges, t) >= 1
  {
    Crossings(0, ranges, t);
  }

  /** Every timestamp before `end` is in one of the ranges, and no other timestamp is in any. */
  ghost predicate Once(ranges: seq<OplogRange>, end: Ts) {
    forall t: Ts :: Times(ranges, t) == if t < end then 1 else 0
  }

  predicate NoneBackwards(ranges: seq<OplogRange>) {
    forall k :: 0 <= k < |ranges| ==> ranges[k].startTs <= ranges[k].endTs
  }

  /**
   A chain from 0 has every timestamp before its end once and no other exactly when no range runs
   backwards, that is, when the majority point never lay before the start of the range read up to it.
   */
  lemma OnceIff(ranges: seq<OplogRange>)
    requires Chained(0, ranges)
    ensures Once(ranges, LastEnd(0, ranges)) <==> NoneBackwards(ranges)
  {
    if k :| 0 <= k < |ranges| && ranges[k].startTs > ranges[k].endTs {
      var t := ranges[k].endTs;
      BackPositive(ranges, k);
      Crossings(0, ranges, t);
      assert Times(ranges, t) != if t < LastEnd(0, ranges) then 1 else 0;
    } else {
      forall t: Ts
        ensures Times(ranges, t) == if t < LastEnd(0, ranges) then 1 else 0
      {
        Crossings(0, ranges, t);
        NoneBack(ranges, t);
      }
    }
  }

  // ----- What the epochs carry -----

  function Carried(epochs: seq<Epoch>): seq<OplogRange> {
    if epochs == [] then []
    else Carried(epochs[..|epochs| - 1]) + ToSeq(epochs[|epochs| - 1].oplog)
  }

  /** No range is attached to an epoch that already carries one. */
  predicate AttachedOnce(p: Params, w: World, events: seq<Event>)
    requires w.epochs != []
    decreases |events|
  {
    events == [] || (
      && (Attaches(w, events[0]) ==> w.epochs[Locate(w.epochs, events[0].number)].oplog.None?)
      && AttachedOnce(p, Step(p, w, events[0]), events[1..]))
  }

  type Bag = multiset<OplogRange>

  function BagOf(o: Option<OplogRange>): Bag {
    multiset(ToSeq(o))
  }

  lemma CarriedLast(epochs: seq<Epoch>)
    requires epochs != []
    ensures var n := |epochs| - 1;
      multiset(Carried(epochs)) == multiset(Carried(epochs[..n])) + BagOf(epochs[n].oplog)
  {
  }

  lemma SwapSum(a: Bag, b: Bag, x: Bag, y: Bag, last: Bag)
    requires a + x == b + y
    ensures (a + last) + x == (b + last) + y
  {
    assert (a + last) + x == (a + x) + last;
    assert (b + last) + y == (b + y) + last;
  }

  lemma {:induction false} CarriedReplace(epochs: seq<Epoch>, i: nat, e: Epoch)
    requires i < |epochs|
    ensures multiset(Carried(epochs[i := e])) + BagOf(epochs[i].oplog) == multiset(Carried(epochs)) + BagOf(e.oplog)
    decreases |epochs|
  {
    var n := |epochs| - 1;
    if i == n {
      LastReplaced(epochs, e);
    } else {
      CarriedReplace(epochs[..n], i, e);
      FrontReplaced(epochs, i, e);
    }
  }

  lemma LastReplaced(epochs: seq<Epoch>, e: Epoch)
    requires epochs != []
    ensures var n := |epochs| - 1;
      multiset(Carried(epochs[n := e])) + BagOf(epochs[n].oplog) == multiset(Carried(epochs)) + BagOf(e.oplog)
  {
    var n := |epochs| - 1;
    assert epochs[n := e][..n] == epochs[..n];
    CarriedLast(epochs);
    CarriedLast(epochs[n := e]);
    SwapLast(multiset(Carried(epochs[..n])), BagOf(epochs[n].oplog), BagOf(e.oplog));
  }

  lemma SwapLast(a: Bag, x: Bag, y: Bag)
    ensures (a + y) + x == (a + x) + y
  {
  }

  lemma FrontReplaced(epochs: seq<Epoch>, i: nat, e: Epoch)
    requires i < |epochs| - 1
    requires var front := epochs[..|epochs| - 1];
      multiset(Carried(front[i := e])) + BagOf(epochs[i].oplog) == multiset(Carried(front)) + BagOf(e.oplog)
    ensures multiset(Carried(epochs[i := e])) + BagOf(epochs[i].oplog) == multiset(Carried(epochs)) + BagOf(e.oplog)
  {
    var n := |epochs| - 1;
    var front := epochs[..n];
    assert epochs[i := e][..n] == front[i := e];
    CarriedLast(epochs);
    CarriedLast(epochs[i := e]);
    SwapSum(multiset(Carried(front[i := e])), multiset(Carried(front)), BagOf(epochs[i].oplog), BagOf(e.oplog),
            BagOf(epochs[n].oplog));
  }

  lemma CarriedSame(a: seq<Epoch>, b: seq<Epoch>)
    requires |a| == |b| && forall i :: 0 <= i < |a| ==> a[i].oplog == b[i].oplog
    ensures Carried(a) == Carried(b)
  {
  }

  predicate SameOplogs(a: seq<Epoch>, b: seq<Epoch>) {
    && |a| <= |b| <= |a| + 1
    && (forall i :: 0 <= i < |a| ==> a[i].oplog == b[i].oplog)
    && (|b| > |a| ==> b[|a|].oplog.None?)
  }

  lemma AdvanceOplogs(p: Params, w: World, count: nat, end: int)
    requires w.epochs != []
    ensures SameOplogs(w.epochs, Advance(p, w, count, end).epochs)
    ensures 0 <= end < |w.leaves| ==> SameOplogs(w.epochs, CloseAt(p, w, count, end))
  {
  }

  lemma OtherOplogs(p: Params, w: World, event: Event)
    requires w.epochs != [] && !Attaches(w, event)
    ensures SameOplogs(w.epochs, Step(p, w, event).epochs)
  {
    var e := w.epochs[|w.epochs| - 1];
    match event
    case RecordEvent(index) => AdvanceOplogs(p, w, e.count + 1, index);
    case Close => AdvanceOplogs(p, w, e.count, e.start + e.count - 1);
    case Sync =>
      var count := if w.events > e.start then w.events - e.start else 0;
      AdvanceOplogs(p, w, count, e.start + count - 1);
    case _ =>
  }

  lemma SameCarried(a: seq<Epoch>, b: seq<Epoch>)
    requires SameOplogs(a, b)
    ensures Carried(a) == Carried(b)
  {
    if |b| == |a| {
      CarriedSame(a, b);
    } else {
      CarriedSame(a, b[..|a|]);
      assert ToSeq(b[|a|].oplog) == [];
    }
  }

  /** Every operation but attaching leaves alone what the epochs carry; a new epoch carries nothing. */
  lemma OthersKeepCarried(p: Params, w: World, event: Event)
    requires w.epochs != [] && !Attaches(w, event)
    ensures Carried(Step(p, w, event).epochs) == Carried(w.epochs)
  {
    OtherOplogs(p, w, event);
    SameCarried(w.epochs, Step(p, w, event).epochs);
  }

  lemma AttachEpoch(p: Params, w: World, event: Event)
    requires w.epochs != [] && Attaches(w, event)
    ensures var i := Locate(w.epochs, event.number);
      Step(p, w, event).epochs == w.epochs[i := w.epochs[i].(oplog := Some(event.range))]
    ensures NextStart(Step(p, w, event)) == event.range.endTs
  {
  }

  lemma AttachStep(p: Params, w: World, event: Event)
    requires w.epochs != [] && Attaches(w, event)
    ensures var before := BagOf(w.epochs[Locate(w.epochs, event.number)].oplog);
      multiset(Carried(Step(p, w, event).epochs)) + before == multiset(Carried(w.epochs)) + multiset{event.range}
  {
    var i := Locate(w.epochs, event.number);
    AttachEpoch(p, w, event);
    CarriedReplace(w.epochs, i, w.epochs[i].(oplog := Some(event.range)));
  }

  /** One more range is carried, unless it replaces another. */
  lemma AttachCount(w: Bag, v: Bag, before: Option<OplogRange>, r: OplogRange)
    requires v + BagOf(before) == w + multiset{r}
    ensures before.None? ==> v == w + multiset{r}
    ensures |v| == |w| + if before.None? then 1 else 0
  {
    assert |v + BagOf(before)| == |v| + |BagOf(before)|;
    assert |w + multiset{r}| == |w| + 1;
  }

  /** Never are more ranges carried than were attached. */
  lemma {:induction false} CarriedAtMost(p: Params, w: World, events: seq<Event>)
    requires w.epochs != []
    ensures |multiset(Carried(After(p, w, events).epochs))| <= |multiset(Carried(w.epochs))| + |Attached(p, w, events)|
    decreases |events|
  {
    if events != [] {
      var v := Step(p, w, events[0]);
      CarriedAtMost(p, v, events[1..]);
      if Attaches(w, events[0]) {
        AttachStep(p, w, events[0]);
        AttachCount(multiset(Carried(w.epochs)), multiset(Carried(v.epochs)),
                    w.epochs[Locate(w.epochs, events[0].number)].oplog, events[0].range);
      } else {
        OthersKeepCarried(p, w, events[0]);
      }
    }
  }

  /** One step of the count: `x` is carried at the end, `v` and `w` after and before an attachment. */
  lemma SumIff(x: Bag, v: Bag, w: Bag, z: seq<OplogRange>, before: Option<OplogRange>, r: OplogRange)
    requires v + BagOf(before) == w + multiset{r} && |x| <= |v| + |z|
    ensures x == w + multiset([r] + z) <==> before.None? && x == v + multiset(z)
  {
    AttachCount(w, v, before, r);
    assert multiset([r] + z) == multiset{r} + multiset(z);
    assert w + multiset([r] + z) == (w + multiset{r}) + multiset(z);
    assert |w + multiset([r] + z)| == |w| + 1 + |z|;
  }

  /** The epochs carry all attached ranges, in some order. */
  ghost predicate AllCarried(p: Params, w: World, events: seq<Event>)
    requires w.epochs != []
  {
    multiset(Carried(After(p, w, events).epochs)) == multiset(Carried(w.epochs)) + multiset(Attached(p, w, events))
  }

  /** They do exactly when none was attached over another. */
  lemma {:induction false} CarriedIff(p: Params, w: World, events: seq<Event>)
    requires w.epochs != []
    ensures AttachedOnce(p, w, events) <==> AllCarried(p, w, events)
    decreases |events|
  {
    if events != [] {
      var e, rest := events[0], events[1..];
      var v := Step(p, w, e);
      CarriedIff(p, v, rest);
      assert After(p, w, events) == After(p, v, rest);
      if Attaches(w, e) {
        AttachFirst(p, w, e, rest);
        assert Attached(p, w, events) == [e.range] + Attached(p, v, rest);
      } else {
        OthersKeepCarried(p, w, e);
        assert Attached(p, w, events) == Attached(p, v, rest);
      }
    }
  }

  lemma AttachFirst(p: Params, w: World, event: Event, rest: seq<Event>)
    requires w.epochs != [] && Attaches(w, event)
    ensures var v := Step(p, w, event);
      var x, z := multiset(Carried(After(p, v, rest).epochs)), Attached(p, v, rest);
      x == multiset(Carried(w.epochs)) + multiset([event.range] + z)
      <==> w.epochs[Locate(w.epochs, event.number)].oplog.None? && x == multiset(Carried(v.epochs)) + multiset(z)
  {
    var v := Step(p, w, event);
    AttachStep(p, w, event);
    CarriedAtMost(p, v, rest);
    SumIff(multiset(Carried(After(p, v, rest).epochs)), multiset(Carried(v.epochs)), multiset(Carried(w.epochs)),
           Attached(p, v, rest), w.epochs[Locate(w.epochs, event.number)].oplog, event.range);
  }

  lemma {:induction false} TimesRemove(ranges: seq<OplogRange>, k: nat, t: Ts)
    requires k < |ranges|
    ensures Times(ranges, t) == Times(ranges[..k] + ranges[k + 1..], t) + if In(ranges[k], t) then 1 else 0
    decreases k
  {
    var rest := ranges[..k] + ranges[k + 1..];
    if k == 0 {
      assert rest == ranges[1..];
    } else {
      TimesRemove(ranges[1..], k - 1, t);
      assert ranges[1..][..k - 1] + ranges[1..][k..] == rest[1..];
    }
  }

  /** A permutation without its first element. */
  lemma WithoutFirst(a: seq<OplogRange>, b: seq<OplogRange>) returns (k: nat)
    requires a != [] && multiset(a) == multiset(b)
    ensures k < |b| && b[k] == a[0] && multiset(a[1..]) == multiset(b[..k] + b[k + 1..])
  {
    assert a[0] in multiset(b);
    k :| 0 <= k < |b| && b[k] == a[0];
    RemoveOne(a, 0);
    RemoveOne(b, k);
    assert a[..0] + a[1..] == a[1..];
    SameRest(multiset{a[0]}, multiset(a[1..]), multiset(b[..k] + b[k + 1..]));
  }

  lemma SameRest(x: Bag, y: Bag, z: Bag)
    requires x + y == x + z
    ensures y == z
  {
    assert (x + y) - x == y && (x + z) - x == z;
  }

  lemma {:induction false} TimesPermuted(a: seq<OplogRange>, b: seq<OplogRange>, t: Ts)
    requires multiset(a) == multiset(b)
    ensures Times(a, t) == Times(b, t)
    decreases |a|
  {
    if a == [] {
      assert |multiset(b)| == 0;
    } else {
      var k := WithoutFirst(a, b);
      TimesPermuted(a[1..], b[..k] + b[k + 1..], t);
      TimesRemove(b, k, t);
    }
  }

  lemma SameMembers(a: seq<OplogRange>, c: seq<OplogRange>)
    requires multiset(a) == multiset(c)
    ensures NoneBackwards(a) <==> NoneBackwards(c)
  {
    assert forall r :: r in c <==> r in multiset(a);
    assert forall r :: r in a <==> r in multiset(a);
    assert NoneBackwards(a) <==> forall r :: r in a ==> r.startTs <= r.endTs;
    assert NoneBackwards(c) <==> forall r :: r in c ==> r.startTs <= r.endTs;
  }

  lemma OncePermuted(a: seq<OplogRange>, c: seq<OplogRange>, end: Ts)
    requires multiset(a) == multiset(c)
    ensures Once(a, end) <==> Once(c, end)
  {
    forall t: Ts
      ensures Times(c, t) == Times(a, t)
    {
      TimesPermuted(c, a, t);
    }
  }

  /** `OnceIff` for the ranges in any order. */
  lemma PermutedOnceIff(a: seq<OplogRange>, c: seq<OplogRange>)
    requires Chained(0, a) && multiset(a) == multiset(c)
    ensures Once(c, LastEnd(0, a)) <==> NoneBackwards(c)
  {
    OnceIff(a);
    SameMembers(a, c);
    OncePermuted(a, c, LastEnd(0, a));
  }

  /**
   For the epochs themselves: from the manager's first state, with ranges read in turn and none attached
   over another, the epochs carry every timestamp before the next start once, and no other, exactly when no
   range they carry runs backwards.
   */
  lemma CarriedOnceIff(p: Params, threshold: nat, events: seq<Event>)
    requires ReadInTurn(p, Initial(threshold), events) && AttachedOnce(p, Initial(threshold), events)
    ensures var v := After(p, Initial(threshold), events);
      Once(Carried(v.epochs), NextStart(v)) <==> NoneBackwards(Carried(v.epochs))
  {
    var w := Initial(threshold);
    AttachedChainIff(p, w, events);
    CarriedIff(p, w, events);
    assert w.epochs[..0] == [] && Carried(w.epochs) == [];
    PermutedOnceIff(Attached(p, w, events), Carried(After(p, w, events).epochs));
  }

  /** Two ranges read in turn for one epoch: it carries the second only, and nothing carries the first. */
  lemma ReattachExample(p: Params, a: Fr, root: string)
    ensures var first, second := OplogRange(0, 10, 1, root, 10), OplogRange(10, 20, 1, root, 20);
      var w := After(p, Initial(1), Fed(a, 0));
      var events := [AttachOplog(0, first), AttachOplog(0, second)];
      && ReadInTurn(p, w, events) && !AttachedOnce(p, w, events)
      && Carried(After(p, w, events).epochs) == [second]
  {
    var first, second := OplogRange(0, 10, 1, root, 10), OplogRange(10, 20, 1, root, 20);
    AfterTwo(p, Initial(1), Record(a), RecordEvent(0));
    var w := After(p, Initial(1), Fed(a, 0));
    assert |w.epochs| == 2 && w.epochs[0].number == 0 && w.epochs[0].end == Some(0);
    var u := Step(p, w, AttachOplog(0, first));
    var v := Step(p, u, AttachOplog(0, second));
    var events := [AttachOplog(0, first), AttachOplog(0, second)];
    AfterTwo(p, w, events[0], events[1]);
    assert events[1..] == [AttachOplog(0, second)] && events[1..][1..] == [];
    assert v.epochs[..1][..0] == [] && Carried(v.epochs[..1]) == [second];
    assert Carried(v.epochs) == [second] + [];
  }
}
