/** The one toast that counts down to the clipboard erase, driven by the clipboard guard's state. */
module ClipboardCountdown {
  import opened Options

  datatype Guard = Guard(pending: bool, deadlineAt: Option<real>, overdue: bool)

  datatype Mode = Idle | Counting | Overdue

  /**
   The effect's variables, then what it has done: toasts created and dismissed,
   the live intervals with the deadline each was started for, and the seconds last
   shown with the instant they were shown at.
   */
  datatype Countdown = Countdown(
    toastId: Option<nat>,
    interval: Option<nat>,
    mode: Mode,
    shownDeadline: Option<real>,
    created: nat,
    dismissed: nat,
    intervals: nat,
    live: map<nat, real>,
    shownSeconds: int,
    shownAt: real,
    disposed: bool
  )

  const Start := Countdown(None, None, Idle, None, 0, 0, 0, map[], 0, 0.0, false)

  datatype Event =
    | Publish(guard: Guard, now: real)
    | Tick(interval: nat, now: real)
    | Dispose

  function Ceil(x: real): int { -((-x).Floor) }

  function SecondsUntil(deadline: real, now: real): int {
    var seconds := Ceil((deadline - now) / 1000.0);
    if seconds < 0 then 0 else seconds
  }

  /** How long the toast of a countdown stays up by itself, in milliseconds. */
  function ToastDuration(deadline: real, now: real): int { SecondsUntil(deadline, now) * 1000 + 1000 }

  function StopInterval(c: Countdown): Countdown {
    if c.interval.None? then c else c.(live := c.live - {c.interval.value}, interval := None)
  }

  function ClearToast(c: Countdown): Countdown {
    if c.toastId.None? then c else c.(dismissed := c.dismissed + 1, toastId := None)
  }

  function ShowToast(c: Countdown): Countdown {
    c.(toastId := Some(c.created), created := c.created + 1)
  }

  /** A toast and an interval for this deadline, in place of what was there. */
  function Begin(c: Countdown, deadline: real, now: real): Countdown {
    var shown := ShowToast(ClearToast(StopInterval(c)));
    shown.(shownSeconds := SecondsUntil(deadline, now), shownAt := now,
           shownDeadline := Some(deadline), mode := Counting,
           interval := Some(c.intervals), intervals := c.intervals + 1,
           live := shown.live[c.intervals := deadline])
  }

  function Apply(c: Countdown, g: Guard, now: real): Countdown {
    if !g.pending then
      ClearToast(StopInterval(c)).(mode := Idle, shownDeadline := None)
    else if g.overdue then
      if c.mode == Overdue then c
      else ShowToast(ClearToast(StopInterval(c))).(mode := Overdue, shownDeadline := None)
    else if g.deadlineAt.None? || (c.mode == Counting && c.shownDeadline == g.deadlineAt) then c
    else Begin(c, g.deadlineAt.value, now)
  }

  function Step(c: Countdown, e: Event): Countdown {
    match e
    case Publish(guard, now) => if c.disposed then c else Apply(c, guard, now)
    case Tick(interval, now) =>
      if interval !in c.live then c
      else
        var remaining := SecondsUntil(c.live[interval], now);
        if remaining <= 0 then StopInterval(c)
        else if c.toastId.None? then c
        else c.(shownSeconds := remaining, shownAt := now)
    case Dispose => ClearToast(StopInterval(c)).(disposed := true)
  }

  function Run(c: Countdown, es: seq<Event>): Countdown {
    if es == [] then c else Step(Run(c, es[..|es| - 1]), es[|es| - 1])
  }

  // ---------- Every run ----------

  /** While mounted there is a toast exactly when the mode is not idle; afterwards there is none. */
  predicate OneToast(c: Countdown) {
    && c.created == c.dismissed + (if c.toastId.Some? then 1 else 0)
    && (c.toastId.Some? <==> !c.disposed && c.mode != Idle)
  }

  /** At most one interval is live: the one the hook holds, in countdown mode, for the deadline on screen. */
  predicate OneInterval(c: Countdown) {
    match c.interval
    case None => c.live == map[]
    case Some(id) =>
      c.mode == Counting && !c.disposed && c.shownDeadline.Some? && id < c.intervals
      && c.live == map[id := c.shownDeadline.value]
  }

  /** The seconds on screen are the whole seconds left at the instant they were written, rounded up. */
  predicate ShowsTheDeadline(c: Countdown) {
    c.mode == Counting && !c.disposed ==>
      && c.shownDeadline.Some?
      && c.shownSeconds == SecondsUntil(c.shownDeadline.value, c.shownAt)
  }

  predicate Inv(c: Countdown) { OneToast(c) && OneInterval(c) && ShowsTheDeadline(c) }

  lemma StopIntervalInv(c: Countdown)
    requires OneInterval(c)
    ensures StopInterval(c).live == map[] && StopInterval(c).interval.None?
    ensures StopInterval(c) == c.(live := map[], interval := None)
  {
  }

  lemma ApplyInv(c: Countdown, g: Guard, now: real)
    requires Inv(c) && !c.disposed
    ensures Inv(Apply(c, g, now))
  {
    StopIntervalInv(c);
  }

  lemma StepInv(c: Countdown, e: Event)
    requires Inv(c)
    ensures Inv(Step(c, e))
  {
    StopIntervalInv(c);
    match e
    case Publish(guard, now) =>
      if !c.disposed {
        ApplyInv(c, guard, now);
      }
    case _ =>
  }

  /** Every sequence of guard states, ticks and the final cleanup keeps one toast, one interval and an honest number. */
  lemma {:induction false} EveryRunKeepsInv(es: seq<Event>)
    ensures Inv(Run(Start, es))
  {
    if es != [] {
      EveryRunKeepsInv(es[..|es| - 1]);
      StepInv(Run(Start, es[..|es| - 1]), es[|es| - 1]);
    }
  }

  /** While the deadline is ahead, the seconds shown are at least what is left and less than one more. */
  lemma ShownSecondsBracketTheRest(es: seq<Event>)
    requires var c := Run(Start, es); c.mode == Counting && !c.disposed
    ensures var c := Run(Start, es);
            && c.shownDeadline.Some?
            && (c.shownAt < c.shownDeadline.value ==>
                  var left := (c.shownDeadline.value - c.shownAt) / 1000.0;
                  c.shownSeconds as real - 1.0 < left <= c.shownSeconds as real)
            && (c.shownDeadline.value <= c.shownAt ==> c.shownSeconds == 0)
  {
    EveryRunKeepsInv(es);
  }

  /** A tick never shows more than was shown before it, and a toast left alone outlasts its deadline by a second, but not by two. */
  lemma CountsDown(deadline: real, earlier: real, later: real)
    requires earlier <= later
    ensures SecondsUntil(deadline, later) <= SecondsUntil(deadline, earlier)
    ensures earlier < deadline ==>
              deadline + 1000.0 <= earlier + ToastDuration(deadline, earlier) as real < deadline + 2000.0
  {
    var a, b := (deadline - later) / 1000.0, (deadline - earlier) / 1000.0;
    assert a <= b;
    assert -b <= -a;
    assert (-b).Floor <= (-a).Floor;
  }

  /** The notice follows the guard: none once the erase is confirmed, a warning when it was refused, else its own deadline. */
  lemma FollowsTheGuard(c: Countdown, g: Guard, now: real)
    requires Inv(c) && !c.disposed
    ensures var after := Step(c, Publish(g, now));
            && (!g.pending ==> after.toastId.None? && after.live == map[])
            && (g.pending && g.overdue ==> after.toastId.Some? && after.live == map[])
            && (g.pending && !g.overdue && g.deadlineAt.Some? ==> after.toastId.Some? && after.shownDeadline == g.deadlineAt)
            && (g.pending && !g.overdue && g.deadlineAt.Some? && c.shownDeadline != g.deadlineAt ==>
                  after.created == c.created + 1 && after.live.Values == {g.deadlineAt.value})
            && (g.pending && g.overdue && c.mode == Overdue ==> after == c)
            && (g.pending && !g.overdue && g.deadlineAt.None? ==> after == c)
            && (g.pending && !g.overdue && g.deadlineAt.Some? && c.shownDeadline == g.deadlineAt && c.mode == Counting ==> after == c)
            && (!g.pending ==> after.mode == Idle && after.shownDeadline.None? && after.created == c.created)
            && (g.pending && g.overdue && c.mode != Overdue ==>
                  after.mode == Overdue && after.shownDeadline.None? && after.created == c.created + 1)
  {
    ApplyInv(c, g, now);
    var after := Step(c, Publish(g, now));
    if g.pending && !g.overdue && g.deadlineAt.Some? && c.shownDeadline != g.deadlineAt {
      assert after.live == map[c.intervals := g.deadlineAt.value];
      assert after.live[c.intervals] in after.live.Values;
    }
  }

  lemma {:induction false} RunAppend(c: Countdown, es: seq<Event>, more: seq<Event>)
    ensures Run(c, es + more) == Run(Run(c, es), more)
  {
    if more == [] {
      assert es + more == es;
    } else {
      var last := |more| - 1;
      RunAppend(c, es, more[..last]);
      assert (es + more)[..|es + more| - 1] == es + more[..last];
    }
  }

  lemma BracketsTheRest(deadline: real, now: real)
    ensures now < deadline ==>
              var left := (deadline - now) / 1000.0;
              0 < SecondsUntil(deadline, now) && SecondsUntil(deadline, now) as real - 1.0 < left <= SecondsUntil(deadline, now) as real
    ensures deadline <= now ==> SecondsUntil(deadline, now) == 0
  {
  }

  /**
   In every run a live interval's tick rewrites the number: before the deadline on
   screen it shows the whole seconds then left, rounded up; from the deadline on it
   ends the interval, and leaves the toast to its own duration.
   */
  lemma TickShowsTheRest(es: seq<Event>, id: nat, now: real)
    requires id in Run(Start, es).live
    ensures Run(Start, es).shownDeadline.Some?
    ensures var before, after := Run(Start, es), Run(Start, es + [Tick(id, now)]); var deadline := before.shownDeadline.value;
            && after.toastId == before.toastId && after.toastId.Some? && after.shownDeadline == before.shownDeadline
            && (now < deadline ==>
                  && after.shownAt == now && after.live == before.live
                  && after.shownSeconds as real - 1.0 < (deadline - now) / 1000.0 <= after.shownSeconds as real)
            && (deadline <= now ==> after.live == map[] && after.interval.None?)
  {
    EveryRunKeepsInv(es);
    assert (es + [Tick(id, now)])[..|es|] == es;
    var before := Run(Start, es);
    assert before.interval == Some(id) && before.live[id] == before.shownDeadline.value;
    BracketsTheRest(before.shownDeadline.value, now);
    StopIntervalInv(before);
  }

  /** The last reading of the clock, none before `from`. */
  function LastReading(from: real, es: seq<Event>): real {
    if es == [] then from
    else
      match es[|es| - 1]
      case Publish(_, now) => now
      case Tick(_, now) => now
      case Dispose => LastReading(from, es[..|es| - 1])
  }

  /** The clock is never set back. */
  predicate InOrder(from: real, es: seq<Event>) {
    es == [] || (InOrder(from, es[..|es| - 1]) && LastReading(from, es[..|es| - 1]) <= LastReading(from, es))
  }

  lemma {:induction false} ShownAtMovesForward(es: seq<Event>, more: seq<Event>)
    requires InOrder(0.0, es + more)
    ensures Run(Start, es).shownAt <= Run(Start, es + more).shownAt <= LastReading(0.0, es + more)
    decreases |es| + |more|, |more|
  {
    var all := es + more;
    if more != [] {
      var last := |more| - 1;
      assert all[..|all| - 1] == es + more[..last];
      ShownAtMovesForward(es, more[..last]);
    } else if es != [] {
      assert all == es && es[..|es| - 1] + [] == es[..|es| - 1];
      ShownAtMovesForward(es[..|es| - 1], []);
    }
  }

  /** With a clock that is never set back, the number shown for one deadline never grows. */
  lemma NumberNeverGrows(es: seq<Event>, more: seq<Event>)
    requires InOrder(0.0, es + more)
    requires Run(Start, es).mode == Counting && Run(Start, es + more).mode == Counting && !Run(Start, es + more).disposed
    requires Run(Start, es).shownDeadline == Run(Start, es + more).shownDeadline
    ensures Run(Start, es + more).shownSeconds <= Run(Start, es).shownSeconds
  {
    EveryRunKeepsInv(es);
    EveryRunKeepsInv(es + more);
    ShownAtMovesForward(es, more);
    RunAppend(Start, es, more);
    DisposedStays(Run(Start, es), more);
    CountsDown(Run(Start, es).shownDeadline.value, Run(Start, es).shownAt, Run(Start, es + more).shownAt);
  }

  lemma {:induction false} DisposedStays(c: Countdown, es: seq<Event>)
    ensures c.disposed ==> Run(c, es).disposed
    ensures c.disposed && c.interval.None? && c.toastId.None? && c.live == map[] ==>
              && Run(c, es).toastId.None? && Run(c, es).live == map[] && Run(c, es).interval.None?
              && Run(c, es).created == c.created
  {
    if es != [] {
      DisposedStays(c, es[..|es| - 1]);
    }
  }

  /** Whatever came before and whatever follows, the cleanup leaves no toast and no interval, and none is made after it. */
  lemma CleanupIsFinal(before: seq<Event>, after: seq<Event>)
    ensures var end := Run(Start, before + [Dispose] + after);
            end.toastId.None? && end.live == map[] && end.created == Run(Start, before).created == end.dismissed
  {
    RunAppend(Start, before + [Dispose], after);
    assert (before + [Dispose])[..|before|] == before;
    EveryRunKeepsInv(before);
    EveryRunKeepsInv(before + [Dispose] + after);
    StopIntervalInv(Run(Start, before));
    DisposedStays(Run(Start, before + [Dispose]), after);
  }

  // ---------- The hook ----------

  class CountdownEffect {
    var toastId: Option<nat>
    var interval: Option<nat>
    var mode: Mode
    var shownDeadline: Option<real>
    // The toast provider and the timers, as the effect has used them.
    var created: nat
    var dismissed: nat
    var intervals: nat
    var live: map<nat, real>
    var shownSeconds: int
    var shownAt: real
    var disposed: bool

    ghost function State(): Countdown
      reads this
    {
      Countdown(toastId, interval, mode, shownDeadline, created, dismissed, intervals, live, shownSeconds, shownAt, disposed)
    }

    /** The effect applies the guard's current state, then subscribes. */
    constructor (guard: Guard, now: real)
      ensures State() == Apply(Start, guard, now)
    {
      toastId, interval, mode, shownDeadline := None, None, Idle, None;
      created, dismissed, intervals, live := 0, 0, 0, map[];
      shownSeconds, shownAt, disposed := 0, 0.0, false;
      new;
      ApplyGuard(guard, now);
    }

    method ClearInterval()
      modifies this`interval, this`live
      ensures State() == StopInterval(old(State()))
    {
      if interval.Some? {
        live := live - {interval.value};
        interval := None;
      }
    }

    method DismissToast()
      modifies this`toastId, this`dismissed
      ensures State() == ClearToast(old(State()))
    {
      if toastId.Some? {
        dismissed := dismissed + 1;
        toastId := None;
      }
    }

    method CreateToast()
      modifies this`toastId, this`created
      ensures State() == ShowToast(old(State()))
    {
      toastId := Some(created);
      created := created + 1;
    }

    method ApplyGuard(guard: Guard, now: real)
      requires !disposed
      modifies this
      ensures State() == Step(old(State()), Publish(guard, now))
    {
      if !guard.pending {
        ClearInterval();
        DismissToast();
        mode := Idle;
        shownDeadline := None;
        return;
      }
      if guard.overdue {
        if mode == Overdue {
          return;
        }
        ClearInterval();
        DismissToast();
        CreateToast();
        mode := Overdue;
        shownDeadline := None;
        return;
      }
      if guard.deadlineAt.None? || (mode == Counting && shownDeadline == guard.deadlineAt) {
        return;
      }
      BeginCountdown(guard.deadlineAt.value, now);
    }

    method BeginCountdown(deadline: real, now: real)
      modifies this
      ensures State() == Begin(old(State()), deadline, now)
    {
      ClearInterval();
      DismissToast();
      shownSeconds := SecondsUntil(deadline, now);
      shownAt := now;
      CreateToast();
      shownDeadline := Some(deadline);
      mode := Counting;
      interval := Some(intervals);
      live := live[intervals := deadline];
      intervals := intervals + 1;
    }

    /** A live interval's callback. */
    method HandleTick(id: nat, now: real)
      requires id in live
      modifies this
      ensures State() == Step(old(State()), Tick(id, now))
    {
      var remaining := SecondsUntil(live[id], now);
      if remaining <= 0 {
        ClearInterval();
        return;
      }
      if toastId.Some? {
        shownSeconds, shownAt := remaining, now;
      }
    }

    method Cleanup()
      modifies this
      ensures State() == Step(old(State()), Dispose)
    {
      disposed := true;
      ClearInterval();
      DismissToast();
    }
  }
}
