/**
 The auto-lock hook: one mount of `useAutoLock`, which is one unlocked session
 (the layout that mounts it is replaced by the unlock screen as soon as the
 vault locks). Instants are milliseconds since the epoch, as reals, so that a
 fractional minutes setting is not rounded. Every reading of the clock is an
 argument of its own: two readings inside one handler may differ, and the clock
 may be set back between them.
 */
module AutoLockSpec {
  import opened Options
  import opened LockSettings

  const MINUTE_MS := 60_000.0
  const DEADLINE_POLL_MS := 20_000.0
  const ACTIVITY_THROTTLE_MS := 1_000.0
  const PROGRESS_CONTINUITY_MS := 60_000.0

  /** The hook's refs, the module's progress stamp, and the parts of the page and the store they read. */
  datatype Session = Session(
    authenticated: bool,
    locked: bool,
    tabHidden: bool,
    progressAt: real,
    idleTimeoutMs: real,
    lockOnHidden: bool,
    hiddenDelayMs: real,
    lastActivity: real,
    hiddenSince: Option<real>,
    timer: Option<real>,        // the instant the armed timer is due
    lockRequested: bool,
    lastEvaluateAt: real,
    lastActivityHandled: real,
    lockRequests: nat           // how often `lock()` has been called
  ) {
    predicate Open() {
      authenticated && !locked && !lockRequested
    }

    /** The instant the vault must be locked by; the hidden deadline counts only while there is one. */
    function Deadline(): real {
      var idleDeadline := lastActivity + idleTimeoutMs;
      match hiddenSince
      case Some(since) => if lockOnHidden then Min(idleDeadline, since + hiddenDelayMs) else idleDeadline
      case None => idleDeadline
    }
  }

  /** One step of a session; each carries the clock readings its handler takes, in order. */
  datatype Event =
    | SettingsEffect(settings: Settings, now: real)
    | Activity(at: real, now: real)
    | Hide(at: real, now: real)
    | Show(before: real, after: real)
    | Wake(now: real)           // `focus` and `pageshow`
    | TimerFires(now: real)
    | PollFires(now: real)
    | Progress(at: real)
    | LockedElsewhere
    | SignedOut

  /** The render-time readings and the effects' readings of a mount, in order. */
  datatype Mount = Mount(
    progressAt: real,
    tabHidden: bool,
    settings: Settings,
    renderActivity: real,
    renderEvaluate: real,
    settingsNow: real,
    sessionStart: real,
    hiddenAt: real,
    sessionNow: real
  )

  function Min(a: real, b: real): real { if a <= b then a else b }

  function Max(a: real, b: real): real { if a <= b then b else a }

  /** Merging the progress stamp, before the deadline is judged. */
  function Credit(s: Session, now: real): Session {
    var progressAt := if s.progressAt > now then 0.0 else s.progressAt;
    s.(progressAt := progressAt,
       lastActivity := if now - s.lastEvaluateAt < PROGRESS_CONTINUITY_MS
                       then Max(s.lastActivity, progressAt) else s.lastActivity,
       lastEvaluateAt := now)
  }

  function Evaluate(s: Session, now: real): Session {
    if !s.Open() then
      s.(timer := None)
    else
      var judged := Credit(s, now);
      if judged.Deadline() <= now then
        judged.(timer := None, lockRequested := true, locked := true, lockRequests := s.lockRequests + 1)
      else
        judged.(timer := Some(now + Min(judged.Deadline() - now, DEADLINE_POLL_MS)))
  }

  function ApplySettings(s: Session, settings: Settings, now: real): Session {
    var applied := s.(idleTimeoutMs := settings.autoLockTimeout * MINUTE_MS,
                      lockOnHidden := settings.lockOnHidden,
                      hiddenDelayMs := settings.lockOnHiddenDelay * MINUTE_MS);
    if !s.authenticated || s.locked then applied else Evaluate(applied, now)
  }

  predicate Throttled(s: Session, at: real) {
    at - s.lastActivityHandled < ACTIVITY_THROTTLE_MS
  }

  function Step(s: Session, e: Event): Session {
    match e
    case SettingsEffect(settings, now) => ApplySettings(s, settings, now)
    case Activity(at, now) =>
      if Throttled(s, at) then s
      else Evaluate(s.(lastActivityHandled := at, lastActivity := at), now)
    case Hide(at, now) => Evaluate(s.(tabHidden := true, hiddenSince := Some(at)), now)
    case Show(before, after) =>
      Evaluate(Evaluate(s.(tabHidden := false), before).(hiddenSince := None), after)
    case Wake(now) => Evaluate(s, now)
    case TimerFires(now) => Evaluate(s, now)
    case PollFires(now) => Evaluate(s, now)
    case Progress(at) => if s.tabHidden then s else s.(progressAt := at)
    case LockedElsewhere => s.(locked := true)
    case SignedOut => s.(authenticated := false)
  }

  /** The state the refs are created in, before any effect runs. */
  function Rendered(m: Mount): Session {
    Session(true, false, m.tabHidden, m.progressAt,
            AUTO_LOCK_TIMEOUT_MINUTES * MINUTE_MS, LOCK_ON_HIDDEN_DEFAULT, LOCK_ON_HIDDEN_DELAY_MINUTES * MINUTE_MS,
            m.renderActivity, None, None, false, m.renderEvaluate, 0.0, 0)
  }

  /** The settings effect, then the session effect. */
  function Mounted(m: Mount): Session {
    var settled := ApplySettings(Rendered(m), m.settings, m.settingsNow);
    Evaluate(settled.(lockRequested := false,
                      lastActivity := m.sessionStart,
                      hiddenSince := if m.tabHidden then Some(m.hiddenAt) else None),
             m.sessionNow)
  }

  /** The state after a whole sequence of events. */
  function Run(s: Session, es: seq<Event>): Session {
    if es == [] then s else Step(Run(s, es[..|es| - 1]), es[|es| - 1])
  }
}
