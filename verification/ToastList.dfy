/**
 The list of toasts and its purge timers (`useToasts` in src/components/Toast.tsx).

 Every list update makes a new array, even one that changes nothing, and so re-runs the effect: it
 clears all purge timers and starts new ones, 180 ms long, for the toasts marked as leaving. `dirty`
 says that an update has been made and the effect has not run yet. Due timers run before the clock
 moves on; several may run before the effect does. `pushed`, `marked` and `removed` are history.
 */
module ToastLists {

  datatype Kind = Info | Success | Warning | Error

  datatype Toast = Toast(id: int, text: string, kind: Kind, durationMs: int, leaving: bool)

  const PURGE_MS := 180

  datatype State = State(
    now: int,
    toasts: seq<Toast>,
    timers: set<int>,
    due: int,
    dirty: bool,
    pushed: seq<Toast>,
    marked: set<int>,
    removed: set<int>)

  datatype Event = Push(toast: Toast) | Dismiss(id: int) | Purge(id: int) | Effect | Tick(dt: nat)

  function IdsOf(ts: seq<Toast>): set<int> {
    set t | t in ts :: t.id
  }

  function LeavingIds(ts: seq<Toast>): set<int> {
    set t | t in ts && t.leaving :: t.id
  }

  /** `current.map(...)` in `dismiss`. */
  function MarkLeaving(ts: seq<Toast>, id: int): seq<Toast> {
    seq(|ts|, k requires 0 <= k < |ts| => if ts[k].id == id && !ts[k].leaving then ts[k].(leaving := true) else ts[k])
  }

  /** `cur.filter(...)` in the purge timer. */
  function Without(ts: seq<Toast>, id: int): seq<Toast> {
    if ts == [] then [] else (if ts[0].id != id then [ts[0]] else []) + Without(ts[1..], id)
  }

  /** Only the toasts of that id go. */
  lemma WithoutOne(t: Toast, id: int)
    ensures Without([], id) == [] && Without([t], id) == if t.id == id then [] else [t]
  {
    assert [t][1..] == [];
  }

  predicate Enabled(s: State, e: Event) {
    match e
    case Push(t) => t.id !in IdsOf(s.pushed) && !t.leaving
    case Dismiss(_) => true
    case Purge(id) => id in s.timers && s.now >= s.due
    case Effect => s.dirty
    case Tick(dt) => dt > 0 && !s.dirty && (s.timers == {} || s.now + dt <= s.due)
  }

  /**
   Toasts with new ids are pushed, and any id is dismissed, at any time; due timers purge; a pending effect
   runs before the clock goes on, which stops at due timers.
   */
  lemma EnabledMeans(s: State, t: Toast, id: int, dt: nat)
    ensures Enabled(s, Push(t)) <==> !t.leaving && forall u :: u in s.pushed ==> u.id != t.id
    ensures Enabled(s, Dismiss(id)) && (Enabled(s, Effect) <==> s.dirty)
    ensures Enabled(s, Purge(id)) <==> id in s.timers && s.due <= s.now
    ensures Enabled(s, Tick(dt)) <==> dt >= 1 && !s.dirty && (|s.timers| == 0 || s.due - s.now >= dt)
  {
  }

  function Step(s: State, e: Event): State {
    match e
    case Push(t) => s.(toasts := s.toasts + [t], pushed := s.pushed + [t], dirty := true)
    case Dismiss(id) =>
      s.(toasts := MarkLeaving(s.toasts, id),
         marked := if id in IdsOf(s.pushed) then s.marked + {id} else s.marked,
         dirty := true)
    case Purge(id) =>
      s.(toasts := Without(s.toasts, id), timers := s.timers - {id}, removed := s.removed + {id}, dirty := true)
    case Effect => s.(timers := LeavingIds(s.toasts), due := s.now + PURGE_MS, dirty := false)
    case Tick(dt) => s.(now := s.now + dt)
  }

  function After(s: State, es: seq<Event>): State
    decreases |es|
  {
    if es == [] then s else After(Step(s, es[0]), es[1..])
  }

  predicate Allowed(s: State, es: seq<Event>)
    decreases |es|
  {
    es == [] || (Enabled(s, es[0]) && Allowed(Step(s, es[0]), es[1..]))
  }

  function Initial(now: int): State {
    State(now, [], {}, now, false, [], {}, {})
  }

  // ----- The hook -----

  class ToastController {
    var now: int
    var toasts: seq<Toast>
    var timers: set<int>
    var due: int
    var dirty: bool
    ghost var pushed: seq<Toast>
    ghost var marked: set<int>
    ghost var removed: set<int>

    ghost function Value(): State
      reads this
    {
      State(now, toasts, timers, due, dirty, pushed, marked, removed)
    }

    constructor (now: int)
      ensures Value() == Initial(now)
    {
      this.now, toasts, timers, due, dirty := now, [], {}, now, false;
      pushed, marked, removed := [], {}, {};
    }

    method Push(id: int, text: string, kind: Kind, durationMs: int)
      modifies this
      ensures Value() == Step(old(Value()), Event.Push(Toast(id, text, kind, durationMs, false)))
      ensures toasts == old(toasts) + [Toast(id, text, kind, durationMs, false)] && dirty
    {
      toasts := toasts + [Toast(id, text, kind, durationMs, false)];
      dirty := true;
      pushed := pushed + [Toast(id, text, kind, durationMs, false)];
    }

    method Dismiss(id: int)
      modifies this
      ensures Value() == Step(old(Value()), Event.Dismiss(id))
      ensures |toasts| == |old(toasts)| && dirty
      ensures forall k :: 0 <= k < |toasts| ==>
        toasts[k] == if old(toasts)[k].id == id then old(toasts)[k].(leaving := true) else old(toasts)[k]
    {
      var next: seq<Toast> := [];
      for k := 0 to |toasts|
        invariant |next| == k && next == MarkLeaving(toasts, id)[..k]
      {
        next := next + [if toasts[k].id == id && !toasts[k].leaving then toasts[k].(leaving := true) else toasts[k]];
      }
      toasts := next;
      dirty := true;
      marked := if id in IdsOf(pushed) then marked + {id} else marked;
    }

    /** The callback of the purge timer of `id`. */
    method Purge(id: int)
      modifies this
      ensures Value() == Step(old(Value()), Event.Purge(id))
      ensures toasts == Without(old(toasts), id) && timers == old(timers) - {id} && dirty
    {
      var next: seq<Toast> := [];
      var k := 0;
      while k < |toasts|
        invariant 0 <= k <= |toasts|
        invariant next + Without(toasts[k..], id) == Without(toasts, id)
      {
        assert toasts[k..][1..] == toasts[k + 1..];
        if toasts[k].id != id { next := next + [toasts[k]]; }
        k := k + 1;
      }
      assert next + Without(toasts[k..], id) == next;
      toasts := next;
      timers := timers - {id};
      dirty := true;
      removed := removed + {id};
    }

    /** Cleanup of the previous effect, then the effect. */
    method RunEffect()
      modifies this
      ensures Value() == Step(old(Value()), Effect)
      ensures timers == (set t | t in toasts && t.leaving :: t.id) && due == now + 180 && !dirty
      ensures toasts == old(toasts) && now == old(now)
    {
      timers := LeavingIds(toasts);
      due := now + PURGE_MS;
      dirty := false;
    }

    method TimePasses(dt: nat)
      modifies this
      ensures Value() == Step(old(Value()), Tick(dt))
    {
      now := now + dt;
    }
  }

  // ----- What every run keeps -----

  /** The toasts pushed and not removed, in push order, each marked or not. */
  function View(pushed: seq<Toast>, marked: set<int>, removed: set<int>): seq<Toast> {
    if pushed == [] then []
    else (if pushed[0].id in removed then [] else [pushed[0].(leaving := pushed[0].id in marked)])
         + View(pushed[1..], marked, removed)
  }

  predicate DistinctIds(ts: seq<Toast>) {
    forall i, j :: 0 <= i < j < |ts| ==> ts[i].id != ts[j].id
  }

  /**
   The list is exactly what was pushed, in push order, without what was removed and with the marks
   made; only marked toasts are removed; a running timer belongs to a toast on the list that is leaving.
   */
  predicate Inv(s: State) {
    && DistinctIds(s.pushed)
    && s.toasts == View(s.pushed, s.marked, s.removed)
    && s.removed <= s.marked <= IdsOf(s.pushed)
    && s.timers <= LeavingIds(s.toasts)
    && (!s.dirty ==> s.timers == LeavingIds(s.toasts))
    && (s.timers != {} ==> s.now <= s.due)
    && s.due <= s.now + PURGE_MS
  }

  lemma {:induction false} ViewAppend(a: seq<Toast>, b: seq<Toast>, m: set<int>, r: set<int>)
    ensures View(a + b, m, r) == View(a, m, r) + View(b, m, r)
  {
    if a == [] {
      assert a + b == b;
    } else {
      assert (a + b)[0] == a[0] && (a + b)[1..] == a[1..] + b;
      ViewAppend(a[1..], b, m, r);
    }
  }

  lemma {:induction false} ViewMark(p: seq<Toast>, m: set<int>, r: set<int>, id: int)
    ensures MarkLeaving(View(p, m, r), id) == View(p, m + {id}, r)
  {
    if p != [] {
      ViewMark(p[1..], m, r, id);
      var head := if p[0].id in r then [] else [p[0].(leaving := p[0].id in m)];
      assert MarkLeaving(head + View(p[1..], m, r), id) == MarkLeaving(head, id) + MarkLeaving(View(p[1..], m, r), id);
    }
  }

  lemma {:induction false} ViewSame(p: seq<Toast>, m: set<int>, m': set<int>, r: set<int>, r': set<int>)
    requires forall t :: t in p ==> (t.id in m <==> t.id in m') && (t.id in r <==> t.id in r')
    ensures View(p, m, r) == View(p, m', r')
  {
    if p != [] {
      assert p[0] in p;
      ViewSame(p[1..], m, m', r, r');
    }
  }

  lemma {:induction false} WithoutAppend(a: seq<Toast>, b: seq<Toast>, id: int)
    ensures Without(a + b, id) == Without(a, id) + Without(b, id)
  {
    if a == [] {
      assert a + b == b;
    } else {
      assert (a + b)[0] == a[0] && (a + b)[1..] == a[1..] + b;
      WithoutAppend(a[1..], b, id);
    }
  }

  lemma {:induction false} ViewWithout(p: seq<Toast>, m: set<int>, r: set<int>, id: int)
    ensures Without(View(p, m, r), id) == View(p, m, r + {id})
  {
    if p != [] {
      ViewWithout(p[1..], m, r, id);
      var head := if p[0].id in r then [] else [p[0].(leaving := p[0].id in m)];
      WithoutAppend(head, View(p[1..], m, r), id);
      if head != [] {
        assert head[1..] == [];
      }
    }
  }

  /** Who is on the list, and who of them is leaving. */
  lemma {:induction false} ViewIds(p: seq<Toast>, m: set<int>, r: set<int>)
    ensures IdsOf(View(p, m, r)) == IdsOf(p) - r
    ensures LeavingIds(View(p, m, r)) == (IdsOf(p) - r) * m
  {
    if p != [] {
      ViewIds(p[1..], m, r);
      var head := if p[0].id in r then [] else [p[0].(leaving := p[0].id in m)];
      IdsAppend(head, View(p[1..], m, r));
      IdsAppend([p[0]], p[1..]);
      assert p == [p[0]] + p[1..];
      IdsOfOne(p[0]);
      IdsOfOne(p[0].(leaving := p[0].id in m));
    }
  }

  lemma IdsOfOne(t: Toast)
    ensures IdsOf([t]) == {t.id} && LeavingIds([t]) == if t.leaving then {t.id} else {}
  {
    assert forall u :: u in [t] <==> u == t;
  }

  lemma IdsAppend(a: seq<Toast>, b: seq<Toast>)
    ensures IdsOf(a + b) == IdsOf(a) + IdsOf(b)
    ensures LeavingIds(a + b) == LeavingIds(a) + LeavingIds(b)
  {
    assert forall t :: t in a + b <==> t in a || t in b;
  }

  lemma StepKeepsInv(s: State, e: Event)
    requires Inv(s) && Enabled(s, e)
    ensures Inv(Step(s, e))
  {
    match e
    case Push(t) => PushKeepsInv(s, t);
    case Dismiss(id) =>
      var n := Step(s, e);
      ViewMark(s.pushed, s.marked, s.removed, id);
      ViewSame(s.pushed, s.marked + {id}, n.marked, s.removed, s.removed);
      ViewIds(s.pushed, s.marked, s.removed);
      ViewIds(n.pushed, n.marked, n.removed);
    case Purge(id) =>
      ViewWithout(s.pushed, s.marked, s.removed, id);
      ViewIds(s.pushed, s.marked, s.removed);
      ViewIds(s.pushed, s.marked, s.removed + {id});
    case Effect =>
    case Tick(_) =>
  }

  lemma PushKeepsInv(s: State, t: Toast)
    requires Inv(s) && Enabled(s, Push(t))
    ensures Inv(Step(s, Push(t)))
  {
    assert forall i :: 0 <= i < |s.pushed| ==> s.pushed[i] in s.pushed;
    ViewAppend(s.pushed, [t], s.marked, s.removed);
    IdsAppend(s.pushed, [t]);
    IdsAppend(s.toasts, [t]);
    IdsOfOne(t);
    assert t.(leaving := false) == t && [t] + [] == [t];
    assert View([t], s.marked, s.removed) == [t];
  }

  /**
   In every run, a toast is removed only after it was marked as leaving, marks and removals are never
   undone, and the list is what remains of the pushes in push order.
   */
  lemma {:induction false} RunKeepsInv(s: State, es: seq<Event>)
    requires Inv(s) && Allowed(s, es)
    ensures Inv(After(s, es))
    ensures s.marked <= After(s, es).marked && s.removed <= After(s, es).removed && s.pushed <= After(s, es).pushed
    decreases |es|
  {
    if es != [] {
      StepKeepsInv(s, es[0]);
      RunKeepsInv(Step(s, es[0]), es[1..]);
    }
  }

  lemma EveryRun(now: int, es: seq<Event>)
    requires Allowed(Initial(now), es)
    ensures Inv(After(Initial(now), es))
  {
    RunKeepsInv(Initial(now), es);
  }

  /** Only the purge of a toast that is already leaving takes it off the list. */
  lemma RemovedOnlyWhenLeaving(s: State, e: Event, t: Toast)
    requires Inv(s) && Enabled(s, e) && t in s.toasts
    ensures t.id in IdsOf(Step(s, e).toasts) || (e == Purge(t.id) && t.leaving && t.id in s.marked)
  {
    StepKeepsInv(s, e);
    var n := Step(s, e);
    ViewIds(s.pushed, s.marked, s.removed);
    ViewIds(n.pushed, n.marked, n.removed);
    ViewLeaving(s.pushed, s.marked, s.removed, t);
    assert t.id in IdsOf(s.toasts);
    match e
    case Push(u) => IdsAppend(s.pushed, [u]);
    case _ =>
  }

  lemma {:induction false} ViewLeaving(p: seq<Toast>, m: set<int>, r: set<int>, t: Toast)
    requires t in View(p, m, r)
    ensures t.leaving <==> t.id in m
  {
    if p != [] && t in View(p[1..], m, r) {
      ViewLeaving(p[1..], m, r, t);
    }
  }

  // ----- Progress -----

  predicate Quiet(es: seq<Event>) {
    forall e :: e in es ==> e.Purge? || e.Effect? || e.Tick?
  }

  /** The number of toasts still to be purged. */
  function Pending(s: State): nat {
    |LeavingIds(s.toasts)|
  }

  /** A time by which every toast now leaving is gone, if nothing is pushed or dismissed. */
  function Bound(s: State): int {
    if s.dirty || Pending(s) == 0 then s.now + PURGE_MS * Pending(s) else s.due + PURGE_MS * (Pending(s) - 1)
  }

  lemma PurgeCounts(s: State, id: int)
    requires Inv(s) && Enabled(s, Purge(id))
    ensures Pending(Step(s, Purge(id))) == Pending(s) - 1
  {
    ViewWithout(s.pushed, s.marked, s.removed, id);
    ViewIds(s.pushed, s.marked, s.removed);
    ViewIds(s.pushed, s.marked, s.removed + {id});
    OneLess(IdsOf(s.pushed), s.removed, s.marked, id);
  }

  lemma OneLess(all: set<int>, r: set<int>, m: set<int>, id: int)
    requires id in (all - r) * m
    ensures |(all - (r + {id})) * m| == |(all - r) * m| - 1
  {
    assert (all - (r + {id})) * m == (all - r) * m - {id};
  }

  lemma QuietStep(s: State, e: Event)
    requires Inv(s) && Enabled(s, e) && (e.Purge? || e.Effect? || e.Tick?)
    ensures Pending(Step(s, e)) <= Pending(s)
    ensures Pending(Step(s, e)) > 0 ==> Bound(Step(s, e)) <= Bound(s)
  {
    if e.Purge? {
      PurgeCounts(s, e.id);
    }
  }

  /**
   Once pushes and dismissals stop, `k` leaving toasts are all gone within 180·k ms, although every
   removal clears and restarts the remaining purge timers: the clock cannot pass that time before.
   */
  lemma {:induction false} PurgedInTime(s: State, es: seq<Event>)
    requires Inv(s) && Allowed(s, es) && Quiet(es)
    ensures Pending(After(s, es)) > 0 ==> After(s, es).now <= Bound(s) <= s.now + 180 * Pending(s)
    ensures Pending(After(s, es)) <= Pending(s)
    decreases |es|
  {
    if es == [] {
      ViewIds(s.pushed, s.marked, s.removed);
      assert !s.dirty && Pending(s) > 0 ==> s.timers != {};
    } else {
      assert es[0] in es;
      QuietStep(s, es[0]);
      StepKeepsInv(s, es[0]);
      PurgedInTime(Step(s, es[0]), es[1..]);
      PurgedInTime(s, []);
    }
  }

  /** The clock is never stopped for good: while toasts wait to be purged, some step is possible. */
  lemma NeverBlocked(s: State)
    requires Inv(s) && Pending(s) > 0
    ensures s.dirty ==> Enabled(s, Effect)
    ensures !s.dirty && s.now < s.due ==> Enabled(s, Tick(s.due - s.now))
    ensures !s.dirty && s.now >= s.due ==> exists id :: Enabled(s, Purge(id))
  {
    if !s.dirty && s.now >= s.due {
      assert s.timers != {};
      var id :| id in s.timers;
      assert Enabled(s, Purge(id));
    }
  }

  /** Dismissing again and again, even a toast already leaving, postpones the purge for as long as it goes on. */
  function Nagging(id: int, n: nat): seq<Event> {
    if n == 0 then [] else [Dismiss(id), Effect, Tick(PURGE_MS - 1)] + Nagging(id, n - 1)
  }

  lemma {:induction false} NaggingPostpones(s: State, id: int, n: nat)
    requires Inv(s) && !s.dirty && id in LeavingIds(s.toasts)
    ensures Allowed(s, Nagging(id, n))
    ensures id in LeavingIds(After(s, Nagging(id, n)).toasts)
    ensures After(s, Nagging(id, n)).now == s.now + n * 179
    decreases n
  {
    if n > 0 {
      var c := Nagged(s, id);
      NaggingPostpones(c, id, n - 1);
      Unfold3(s, Dismiss(id), Effect, Tick(PURGE_MS - 1), Nagging(id, n - 1));
    }
  }

  /** One round: the toast stays, and the clock advances. */
  lemma Nagged(s: State, id: int) returns (c: State)
    requires Inv(s) && !s.dirty && id in LeavingIds(s.toasts)
    ensures c == Step(Step(Step(s, Dismiss(id)), Effect), Tick(PURGE_MS - 1))
    ensures Enabled(s, Dismiss(id)) && Enabled(Step(s, Dismiss(id)), Effect)
    ensures Enabled(Step(Step(s, Dismiss(id)), Effect), Tick(PURGE_MS - 1))
    ensures Inv(c) && !c.dirty && id in LeavingIds(c.toasts) && c.now == s.now + PURGE_MS - 1
  {
    var a := Step(s, Dismiss(id));
    var b := Step(a, Effect);
    c := Step(b, Tick(PURGE_MS - 1));
    StepKeepsInv(s, Dismiss(id));
    StepKeepsInv(a, Effect);
    StepKeepsInv(b, Tick(PURGE_MS - 1));
    ViewIds(s.pushed, s.marked, s.removed);
    ViewIds(a.pushed, a.marked, a.removed);
  }

  lemma Unfold3(s: State, x: Event, y: Event, z: Event, rest: seq<Event>)
    ensures After(s, [x, y, z] + rest) == After(Step(Step(Step(s, x), y), z), rest)
    ensures Allowed(s, [x, y, z] + rest) <==>
      Enabled(s, x) && Enabled(Step(s, x), y) && Enabled(Step(Step(s, x), y), z)
        && Allowed(Step(Step(Step(s, x), y), z), rest)
  {
    Unfold1(s, x, [y, z] + rest);
    Unfold1(Step(s, x), y, [z] + rest);
    Unfold1(Step(Step(s, x), y), z, rest);
    assert [x, y, z] + rest == [x] + ([y, z] + rest) && [y, z] + rest == [y] + ([z] + rest);
  }

  lemma Unfold1(s: State, x: Event, rest: seq<Event>)
    ensures After(s, [x] + rest) == After(Step(s, x), rest)
    ensures Allowed(s, [x] + rest) <==> Enabled(s, x) && Allowed(Step(s, x), rest)
  {
    assert ([x] + rest)[1..] == rest;
  }
}
