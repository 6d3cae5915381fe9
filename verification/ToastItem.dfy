/**
 The countdown of one toast, paused while the pointer is over it (src/components/Toast.tsx).

 Time is whole milliseconds. A pending timer fires at or after its deadline, however late; the
 pointer's enter and leave events alternate. `unhovered` is history: the time spent without the
 pointer over the toast.
 */
module ToastItems {

  datatype Countdown = Countdown(
    now: int,
    durationMs: int,
    timerSet: bool,   // timeoutRef.current !== null
    pending: bool,    // that timer has neither fired nor been cleared
    deadline: int,
    remaining: int,
    hovered: bool,
    leaving: bool,
    unhovered: int)

  datatype Event = Tick(dt: nat) | Fire | Enter | Leave | Close

  predicate Sticky(s: Countdown) {
    s.durationMs <= 0
  }

  function Scheduled(s: Countdown, ms: int): Countdown {
    if ms <= 0 || Sticky(s) || s.leaving then s
    else s.(deadline := s.now + ms, timerSet := true, pending := true)
  }

  /** A toast right after it is mounted. */
  function Mounted(durationMs: int, now: int): Countdown {
    Scheduled(Countdown(now, durationMs, false, false, 0, durationMs, false, false, 0), durationMs)
  }

  predicate Enabled(s: Countdown, e: Event) {
    match e
    case Tick(_) => true
    case Fire => s.pending && s.now >= s.deadline
    case Enter => !s.hovered
    case Leave => s.hovered
    case Close => true
  }

  /** Time passes and the button is pressed at any time; the pointer enters and leaves in turn; a due timer fires. */
  lemma EnabledMeans(s: Countdown, dt: nat)
    ensures Enabled(s, Tick(dt)) && Enabled(s, Close)
    ensures (Enabled(s, Enter) <==> s.hovered == false) && (Enabled(s, Leave) <==> s.hovered == true)
    ensures Enabled(s, Fire) <==> s.pending && s.deadline <= s.now
  {
  }

  function Max0(x: int): int {
    if x < 0 then 0 else x
  }

  function Step(s: Countdown, e: Event): Countdown {
    match e
    case Tick(dt) => s.(now := s.now + dt, unhovered := if s.hovered then s.unhovered else s.unhovered + dt)
    case Fire => s.(pending := false, leaving := true)
    case Enter =>
      if s.timerSet
      then s.(hovered := true, timerSet := false, pending := false, remaining := Max0(s.deadline - s.now))
      else s.(hovered := true)
    case Leave => Scheduled(s.(hovered := false), s.remaining)
    case Close => s.(pending := false, leaving := true)
  }

  function After(s: Countdown, es: seq<Event>): Countdown
    decreases |es|
  {
    if es == [] then s else After(Step(s, es[0]), es[1..])
  }

  predicate Allowed(s: Countdown, es: seq<Event>)
    decreases |es|
  {
    es == [] || (Enabled(s, es[0]) && Allowed(Step(s, es[0]), es[1..]))
  }

  // ----- The component -----

  class ToastItem {
    const durationMs: int
    const sticky: bool
    var now: int
    var timeoutRef: bool
    var pending: bool
    var deadlineRef: int
    var remainingRef: int
    var hovered: bool
    var leaving: bool
    ghost var unhovered: int

    ghost function State(): Countdown
      reads this
    {
      Countdown(now, durationMs, timeoutRef, pending, deadlineRef, remainingRef, hovered, leaving, unhovered)
    }

    ghost predicate Valid()
      reads this
    {
      sticky == (durationMs <= 0)
    }

    constructor (durationMs: int, now: int)
      ensures Valid() && State() == Mounted(durationMs, now)
      ensures State() ==
        if durationMs <= 0 then Countdown(now, durationMs, false, false, 0, durationMs, false, false, 0)
        else Countdown(now, durationMs, true, true, now + durationMs, durationMs, false, false, 0)
    {
      this.durationMs, this.sticky, this.now := durationMs, durationMs <= 0, now;
      timeoutRef, pending, deadlineRef, remainingRef := false, false, 0, durationMs;
      hovered, leaving, unhovered := false, false, 0;
      new;
      Schedule(durationMs);
    }

    method Schedule(ms: int)
      requires Valid()
      modifies this
      ensures Valid() && State() == Scheduled(old(State()), ms)
      ensures State() ==
        if ms <= 0 || durationMs <= 0 || leaving then old(State())
        else old(State()).(deadline := now + ms, timerSet := true, pending := true)
    {
      if ms <= 0 || sticky || leaving { return; }
      deadlineRef := now + ms;
      timeoutRef, pending := true, true;
    }

    method HandleMouseEnter()
      requires Valid()
      modifies this
      ensures Valid() && State() == Step(old(State()), Enter)
      ensures State() ==
        if old(timeoutRef)
        then old(State()).(hovered := true, timerSet := false, pending := false,
                           remaining := if deadlineRef > now then deadlineRef - now else 0)
        else old(State()).(hovered := true)
    {
      hovered := true;
      if timeoutRef {
        timeoutRef, pending := false, false;
        remainingRef := if deadlineRef - now > 0 then deadlineRef - now else 0;
      }
    }

    method HandleMouseLeave()
      requires Valid()
      modifies this
      ensures Valid() && State() == Step(old(State()), Leave)
      ensures State() ==
        if remainingRef <= 0 || durationMs <= 0 || leaving then old(State()).(hovered := false)
        else old(State()).(hovered := false, deadline := now + remainingRef, timerSet := true, pending := true)
    {
      hovered := false;
      Schedule(remainingRef);
    }

    /** The timer's callback: dismissing marks the toast, and the effect's cleanup leaves no timer. */
    method TimerFires()
      requires Valid() && Enabled(State(), Fire)
      modifies this
      ensures Valid() && State() == Step(old(State()), Fire)
      ensures State() == old(State()).(pending := false, leaving := true)
    {
      pending := false;
      leaving := true;
    }

    method CloseClicked()
      requires Valid()
      modifies this
      ensures Valid() && State() == Step(old(State()), Close)
      ensures State() == old(State()).(pending := false, leaving := true)
    {
      leaving := true;
      pending := false;
    }

    method TimePasses(dt: nat)
      requires Valid()
      modifies this
      ensures Valid() && State() == Step(old(State()), Tick(dt))
      ensures State() == old(State()).(now := old(now) + dt, unhovered := old(unhovered) + if hovered then 0 else dt)
    {
      now := now + dt;
      if !hovered { unhovered := unhovered + dt; }
    }
  }

  // ----- What every run keeps -----

  /** A toast that nothing but its close button will dismiss: not hovered, and without a timer. */
  predicate Stuck(s: Countdown) {
    !s.hovered && !s.pending && !s.timerSet && !s.leaving
  }

  /**
   Un-hovered time so far plus time left is the duration: time left is the deadline minus now while
   the timer runs, and the saved remainder (never negative) while the pointer holds it.
   */
  predicate Conserved(s: Countdown) {
    if Sticky(s) then !s.pending && !s.timerSet && s.remaining <= 0
    else if s.leaving then !s.pending
    else if s.hovered then !s.pending && !s.timerSet && s.remaining == Max0(s.durationMs - s.unhovered)
    else if s.pending then s.timerSet && s.unhovered + (s.deadline - s.now) == s.durationMs
    else !s.timerSet && s.remaining == 0 && s.unhovered >= s.durationMs
  }

  lemma {:induction false} CountdownConserved(s: Countdown, es: seq<Event>)
    requires Conserved(s) && Allowed(s, es)
    ensures Conserved(After(s, es)) && After(s, es).durationMs == s.durationMs
    decreases |es|
  {
    if es != [] {
      CountdownConserved(Step(s, es[0]), es[1..]);
    }
  }

  /** Conservation along every run of a newly mounted toast, which cannot leave early on its own. */
  lemma EveryRun(durationMs: int, now: int, es: seq<Event>)
    requires Allowed(Mounted(durationMs, now), es)
    ensures var t := After(Mounted(durationMs, now), es);
      && Conserved(t) && t.durationMs == durationMs
      && (Close !in es && t.leaving ==> durationMs > 0 && t.unhovered >= durationMs)
  {
    CountdownConserved(Mounted(durationMs, now), es);
    if Close !in es {
      NeverEarly(Mounted(durationMs, now), es);
    }
  }

  /**
   Without the close button, a toast that leaves has been un-hovered for its whole duration; a sticky
   one never leaves.
   */
  lemma {:induction false} NeverEarly(s: Countdown, es: seq<Event>)
    requires Conserved(s) && Allowed(s, es) && Close !in es
    requires s.leaving ==> !Sticky(s) && s.unhovered >= s.durationMs
    ensures var t := After(s, es);
      t.leaving ==> !Sticky(t) && t.unhovered >= t.durationMs
    decreases |es|
  {
    if es != [] {
      assert es[0] in es;
      NeverEarly(Step(s, es[0]), es[1..]);
    }
  }

  /** The timer is punctual: no time passes beyond a pending deadline. */
  predicate Punctual(s: Countdown, es: seq<Event>)
    decreases |es|
  {
    es == [] || (
      && (es[0].Tick? && s.pending ==> s.now + es[0].dt <= s.deadline)
      && Punctual(Step(s, es[0]), es[1..]))
  }

  /** The pointer never comes in at the instant of the deadline, before the timer has fired. */
  predicate NoEnterAtDeadline(s: Countdown, es: seq<Event>)
    decreases |es|
  {
    es == [] || (
      && (es[0].Enter? && s.pending ==> s.now < s.deadline)
      && NoEnterAtDeadline(Step(s, es[0]), es[1..]))
  }

  /** Alive and still counting: the timer runs whenever the pointer is elsewhere. */
  predicate Counting(s: Countdown) {
    !s.leaving && !Sticky(s) && (s.hovered ==> s.remaining > 0) && (!s.hovered ==> s.pending && s.now <= s.deadline)
  }

  /**
   With a punctual timer and no enter at the deadline, the toast is on its way until its un-hovered
   time is exactly its duration: then, and only then, the timer can fire, and nothing else dismisses it.
   */
  lemma {:induction false} DismissedExactlyOnTime(s: Countdown, es: seq<Event>)
    requires Conserved(s) && Counting(s) && Allowed(s, es) && Close !in es && Fire !in es
    requires Punctual(s, es) && NoEnterAtDeadline(s, es)
    ensures var t := After(s, es);
      && Counting(t) && t.unhovered <= t.durationMs
      && (Enabled(t, Fire) <==> !t.hovered && t.unhovered == t.durationMs)
    decreases |es|
  {
    if es != [] {
      assert es[0] in es;
      CountdownConserved(s, es[..1]);
      DismissedExactlyOnTime(Step(s, es[0]), es[1..]);
    }
  }

  /**
   A pause restores what was left exactly when the pointer comes in before the deadline. Coming in at
   the deadline, or later, saves a remainder of 0, which `schedule` ignores.
   */
  lemma PauseResumesIff(s: Countdown, held: nat)
    requires Conserved(s) && s.pending
    ensures var t := Step(Step(Step(s, Enter), Tick(held)), Leave);
      && (t.pending && t.deadline - t.now == s.deadline - s.now <==> s.now < s.deadline)
      && (Stuck(t) <==> s.now >= s.deadline)
  {
  }

  /** Once stuck, a toast stays until its close button is used, whatever else happens. */
  lemma {:induction false} StuckStays(s: Countdown, es: seq<Event>)
    requires Conserved(s) && !Sticky(s) && !s.leaving && !s.pending && !s.timerSet && s.remaining == 0
    requires Allowed(s, es) && Close !in es
    ensures !After(s, es).leaving
    decreases |es|
  {
    if es != [] {
      assert es[0] in es;
      StuckStays(Step(s, es[0]), es[1..]);
    }
  }
}
