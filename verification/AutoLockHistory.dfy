/** What a session's state is, told from the events of its run alone. */
module AutoLockHistory {
  import opened Options
  import opened LockSettings
  import opened AutoLockSpec
  import opened AutoLockRuns

  lemma EvaluateKeepsThePage(s: Session, now: real)
    ensures var t := Evaluate(s, now);
            && t.tabHidden == s.tabHidden && t.hiddenSince == s.hiddenSince
            && t.lastActivityHandled == s.lastActivityHandled && t.authenticated == s.authenticated
            && t.idleTimeoutMs == s.idleTimeoutMs && t.lockOnHidden == s.lockOnHidden && t.hiddenDelayMs == s.hiddenDelayMs
            && (s.locked ==> t.locked) && (!s.Open() ==> t.lockRequests == s.lockRequests && t.timer.None?)
  {
  }

  // ---------- The page ----------

  /** Since when the tab is hidden, if it is: the last change of visibility decides. */
  function HiddenSinceAfter(since: Option<real>, es: seq<Event>): Option<real> {
    if es == [] then since
    else
      match es[|es| - 1]
      case Hide(at, _) => Some(at)
      case Show(_, _) => None
      case _ => HiddenSinceAfter(since, es[..|es| - 1])
  }

  /** The idle timeout in force: the last settings decide. */
  function TimeoutAfter(timeoutMs: real, es: seq<Event>): real {
    if es == [] then timeoutMs
    else if es[|es| - 1].SettingsEffect? then es[|es| - 1].settings.autoLockTimeout * 60_000.0
    else TimeoutAfter(timeoutMs, es[..|es| - 1])
  }

  /** When an activity was last handled: one within a second of the one handled before it is not. */
  function HandledAfter(handled: real, es: seq<Event>): real {
    if es == [] then handled
    else
      var before := HandledAfter(handled, es[..|es| - 1]);
      match es[|es| - 1]
      case Activity(at, _) => if at - before < 1_000.0 then before else at
      case _ => before
  }

  ghost predicate PageIs(s: Session, since: Option<real>, timeoutMs: real, handled: real) {
    && s.hiddenSince == since && s.tabHidden == since.Some?
    && s.idleTimeoutMs == timeoutMs && s.lastActivityHandled == handled
  }

  lemma StepMovesThePage(s: Session, e: Event)
    requires s.tabHidden == s.hiddenSince.Some?
    ensures PageIs(Step(s, e),
                   match e { case Hide(at, _) => Some(at) case Show(_, _) => None case _ => s.hiddenSince },
                   if e.SettingsEffect? then e.settings.autoLockTimeout * 60_000.0 else s.idleTimeoutMs,
                   if e.Activity? && e.at - s.lastActivityHandled >= 1_000.0 then e.at else s.lastActivityHandled)
  {
    match e
    case SettingsEffect(settings, now) =>
      EvaluateKeepsThePage(s.(idleTimeoutMs := settings.autoLockTimeout * MINUTE_MS, lockOnHidden := settings.lockOnHidden,
                              hiddenDelayMs := settings.lockOnHiddenDelay * MINUTE_MS), now);
    case Activity(at, now) => EvaluateKeepsThePage(s.(lastActivityHandled := at, lastActivity := at), now);
    case Hide(at, now) => EvaluateKeepsThePage(s.(tabHidden := true, hiddenSince := Some(at)), now);
    case Show(before, after) => ShowMovesThePage(s, before, after);
    case Wake(now) => EvaluateKeepsThePage(s, now);
    case TimerFires(now) => EvaluateKeepsThePage(s, now);
    case PollFires(now) => EvaluateKeepsThePage(s, now);
    case _ =>
  }

  lemma ShowMovesThePage(s: Session, before: real, after: real)
    ensures PageIs(Step(s, Show(before, after)), None, s.idleTimeoutMs, s.lastActivityHandled)
  {
    EvaluateKeepsThePage(s.(tabHidden := false), before);
    EvaluateKeepsThePage(Evaluate(s.(tabHidden := false), before).(hiddenSince := None), after);
  }

  /**
   In every run the hidden clock is the last hiding's, and stopped by the last return,
   the timeout is the last setting's, and the throttle counts from the last activity
   that was handled.
   */
  lemma {:induction false} PageFollowsTheEvents(s: Session, es: seq<Event>, since: Option<real>, timeoutMs: real, handled: real)
    requires PageIs(s, since, timeoutMs, handled)
    ensures PageIs(Run(s, es), HiddenSinceAfter(since, es), TimeoutAfter(timeoutMs, es), HandledAfter(handled, es))
  {
    if es != [] {
      PageFollowsTheEvents(s, es[..|es| - 1], since, timeoutMs, handled);
      StepMovesThePage(Run(s, es[..|es| - 1]), es[|es| - 1]);
    }
  }

  function HiddenAtMount(m: Mount): Option<real> { if m.tabHidden then Some(m.hiddenAt) else None }

  /** A mount starts the hidden clock if the tab is hidden, and takes the settings it is given. */
  lemma MountSetsThePage(m: Mount)
    ensures PageIs(Mounted(m), HiddenAtMount(m), m.settings.autoLockTimeout * 60_000.0, 0.0)
  {
    var applied := Rendered(m).(idleTimeoutMs := m.settings.autoLockTimeout * MINUTE_MS,
                                lockOnHidden := m.settings.lockOnHidden,
                                hiddenDelayMs := m.settings.lockOnHiddenDelay * MINUTE_MS);
    EvaluateKeepsThePage(applied, m.settingsNow);
    var settled := ApplySettings(Rendered(m), m.settings, m.settingsNow);
    EvaluateKeepsThePage(settled.(lockRequested := false, lastActivity := m.sessionStart,
                                  hiddenSince := if m.tabHidden then Some(m.hiddenAt) else None), m.sessionNow);
  }

  lemma HandledActivity(s: Session, at: real, now: real)
    requires 0.0 <= at
    ensures at - s.lastActivityHandled < 1_000.0 ==> Step(s, Activity(at, now)) == s
    ensures at - s.lastActivityHandled >= 1_000.0 ==>
              Step(s, Activity(at, now)).lastActivity in {at, s.progressAt} && at <= Step(s, Activity(at, now)).lastActivity
  {
  }

  /** In every run an activity within a second of the last one handled changes nothing; any other is the newest sign of life, unless a job's is newer. */
  lemma ActivityIsThrottledIff(s: Session, es: seq<Event>, at: real, now: real)
    requires s.tabHidden == s.hiddenSince.Some? && 0.0 <= at
    ensures var before, after := Run(s, es), Run(s, es + [Activity(at, now)]);
            && (at - HandledAfter(s.lastActivityHandled, es) < 1_000.0 ==> after == before)
            && (at - HandledAfter(s.lastActivityHandled, es) >= 1_000.0 ==>
                  after.lastActivity in {at, before.progressAt} && at <= after.lastActivity)
  {
    PageFollowsTheEvents(s, es, s.hiddenSince, s.idleTimeoutMs, s.lastActivityHandled);
    assert (es + [Activity(at, now)])[..|es|] == es;
    HandledActivity(Run(s, es), at, now);
  }

  // ---------- Closed elsewhere ----------

  ghost predicate Closed(s: Session, requests: nat) {
    (!s.authenticated || s.locked) && s.lockRequests == requests
  }

  lemma EvaluateStaysClosed(s: Session, now: real, requests: nat)
    requires Closed(s, requests)
    ensures Closed(Evaluate(s, now), requests) && Evaluate(s, now).timer.None?
  {
  }

  lemma StepStaysClosed(s: Session, e: Event, requests: nat)
    requires Closed(s, requests)
    ensures Closed(Step(s, e), requests)
    ensures IsWake(e) ==> Step(s, e).timer.None?
  {
    match e
    case Activity(at, now) => EvaluateStaysClosed(s.(lastActivityHandled := at, lastActivity := at), now, requests);
    case Hide(at, now) => EvaluateStaysClosed(s.(tabHidden := true, hiddenSince := Some(at)), now, requests);
    case Show(before, after) =>
      EvaluateStaysClosed(s.(tabHidden := false), before, requests);
      EvaluateStaysClosed(Evaluate(s.(tabHidden := false), before).(hiddenSince := None), after, requests);
    case Wake(now) => EvaluateStaysClosed(s, now, requests);
    case TimerFires(now) => EvaluateStaysClosed(s, now, requests);
    case PollFires(now) => EvaluateStaysClosed(s, now, requests);
    case _ =>
  }

  lemma {:induction false} RunStaysClosed(s: Session, es: seq<Event>, requests: nat)
    requires Closed(s, requests)
    ensures Closed(Run(s, es), requests)
    ensures es != [] && IsWake(es[|es| - 1]) ==> Run(s, es).timer.None?
  {
    if es != [] {
      RunStaysClosed(s, es[..|es| - 1], requests);
      StepStaysClosed(Run(s, es[..|es| - 1]), es[|es| - 1], requests);
    }
  }

  /** After a lock from elsewhere or a sign-out, whatever happens, the session stays closed, no lock is requested, and the first wake drops the timer. */
  lemma ClosedElsewhereStaysClosed(s: Session, before: seq<Event>, e: Event, after: seq<Event>)
    requires e.LockedElsewhere? || e.SignedOut?
    ensures var end := Run(s, before + [e] + after);
            && !end.Open() && end.lockRequests == Run(s, before).lockRequests
            && (after != [] && IsWake(after[|after| - 1]) ==> end.timer.None?)
  {
    RunAppend(s, before + [e], after);
    assert (before + [e])[..|before|] == before;
    RunStaysClosed(Run(s, before + [e]), after, Run(s, before).lockRequests);
  }

  // ---------- A hidden tab's progress ----------

  function WithoutProgress(es: seq<Event>): seq<Event> {
    if es == [] then []
    else WithoutProgress(es[..|es| - 1]) + if es[|es| - 1].Progress? then [] else [es[|es| - 1]]
  }

  predicate StaysHidden(es: seq<Event>) {
    forall e :: e in es ==> !e.Show?
  }

  lemma {:induction false} HiddenAllAlong(since: Option<real>, es: seq<Event>)
    requires since.Some? && StaysHidden(es)
    ensures HiddenSinceAfter(since, es).Some?
  {
    if es != [] {
      assert es[|es| - 1] in es && forall e :: e in es[..|es| - 1] ==> e in es;
      HiddenAllAlong(since, es[..|es| - 1]);
    }
  }

  /** From a hiding to the next return, the run is the run without the job's progress: none of it counts. */
  lemma {:induction false} HiddenProgressIsIgnored(s: Session, at: real, now: real, es: seq<Event>)
    requires StaysHidden(es)
    ensures Run(Step(s, Hide(at, now)), es) == Run(Step(s, Hide(at, now)), WithoutProgress(es))
  {
    if es != [] {
      var hidden, last, before := Step(s, Hide(at, now)), es[|es| - 1], es[..|es| - 1];
      assert forall e :: e in before ==> e in es;
      HiddenProgressIsIgnored(s, at, now, before);
      if last.Progress? {
        EvaluateKeepsThePage(s.(tabHidden := true, hiddenSince := Some(at)), now);
        PageFollowsTheEvents(hidden, before, hidden.hiddenSince, hidden.idleTimeoutMs, hidden.lastActivityHandled);
        HiddenAllAlong(hidden.hiddenSince, before);
        assert WithoutProgress(es) == WithoutProgress(before);
      } else {
        assert WithoutProgress(es)[..|WithoutProgress(es)| - 1] == WithoutProgress(before);
      }
    }
  }

  // ---------- A visible job keeps its vault open ----------

  /** The job's last progress, or the sign of life it started from. */
  function LastProgress(start: real, es: seq<Event>): real {
    if es == [] then start
    else if es[|es| - 1].Progress? then es[|es| - 1].at
    else LastProgress(start, es[..|es| - 1])
  }

  /** The last time the page looked at the clock. */
  function LastLook(start: real, es: seq<Event>): real {
    if es == [] then start
    else
      match es[|es| - 1]
      case Wake(now) => now
      case TimerFires(now) => now
      case PollFires(now) => now
      case _ => LastLook(start, es[..|es| - 1])
  }

  /**
   A job at work while nobody touches the page: its progress is stamped in order, and
   the page looks at the clock at least once a minute, never a whole timeout after
   the last progress.
   */
  predicate JobAtWork(sign: real, look: real, timeoutMs: real, es: seq<Event>) {
    es == [] ||
    (var before := es[..|es| - 1];
     && JobAtWork(sign, look, timeoutMs, before)
     && match es[|es| - 1]
        case Progress(at) => LastProgress(sign, before) <= at
        case Wake(now) => LooksInTime(sign, look, timeoutMs, before, now)
        case TimerFires(now) => LooksInTime(sign, look, timeoutMs, before, now)
        case PollFires(now) => LooksInTime(sign, look, timeoutMs, before, now)
        case _ => false)
  }

  predicate LooksInTime(sign: real, look: real, timeoutMs: real, before: seq<Event>, now: real) {
    LastProgress(sign, before) <= now < LastProgress(sign, before) + timeoutMs && now < LastLook(look, before) + 60_000.0
  }

  ghost predicate KeptOpen(s: Session, start: Session, sign: real, look: real) {
    && s.Open() && !s.tabHidden && s.hiddenSince.None?
    && Max(s.lastActivity, s.progressAt) == sign && s.lastEvaluateAt == look
    && s.idleTimeoutMs == start.idleTimeoutMs && s.lockRequests == start.lockRequests
  }

  lemma LookKeepsOpen(s: Session, start: Session, sign: real, look: real, now: real)
    requires KeptOpen(s, start, sign, look)
    requires sign <= now < sign + s.idleTimeoutMs && now < look + 60_000.0
    ensures KeptOpen(Evaluate(s, now), start, sign, now) && Evaluate(s, now).lastActivity == sign
  {
  }

  /** A visible job whose progress is never a whole timeout old when the page looks is never locked, however long it takes. */
  lemma {:induction false} VisibleJobIsNeverLocked(s: Session, es: seq<Event>)
    requires s.Open() && !s.tabHidden && s.hiddenSince.None?
    requires JobAtWork(Max(s.lastActivity, s.progressAt), s.lastEvaluateAt, s.idleTimeoutMs, es)
    ensures KeptOpen(Run(s, es), s, LastProgress(Max(s.lastActivity, s.progressAt), es), LastLook(s.lastEvaluateAt, es))
  {
    if es != [] {
      var sign, look := Max(s.lastActivity, s.progressAt), s.lastEvaluateAt;
      var before := es[..|es| - 1];
      VisibleJobIsNeverLocked(s, before);
      var r := Run(s, before);
      match es[|es| - 1]
      case Wake(now) => LookKeepsOpen(r, s, LastProgress(sign, before), LastLook(look, before), now);
      case TimerFires(now) => LookKeepsOpen(r, s, LastProgress(sign, before), LastLook(look, before), now);
      case PollFires(now) => LookKeepsOpen(r, s, LastProgress(sign, before), LastLook(look, before), now);
      case _ =>
    }
  }

  /** One stamp and the wake that credits it: the vault is open, and its idle clock runs from the stamp. */
  lemma ProgressIsCredited(s: Session, at: real, now: real)
    requires s.Open() && !s.tabHidden && !HiddenPastDue(s, now)
    requires 0.0 <= at <= now < at + s.idleTimeoutMs && now < s.lastEvaluateAt + 60_000.0
    ensures var t := Run(s, [Progress(at), Wake(now)]);
            t.Open() && t.lockRequests == s.lockRequests && t.lastActivity == Max(s.lastActivity, at)
  {
    var es := [Progress(at), Wake(now)];
    assert es[..1] == [Progress(at)] && es[..1][..0] == [];
    assert Run(s, es[..1]) == s.(progressAt := at);
  }
}
