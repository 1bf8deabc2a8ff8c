/** The hook itself: refs updated step by step by its handlers, each proved against `AutoLockSpec`. */
module AutoLockHook {
  import opened Options
  import opened LockSettings
  import opened AutoLockSpec

  class AutoLock {
    // The auth store, the document and the module's progress stamp.
    var authenticated: bool
    var locked: bool
    var tabHidden: bool
    var autoLockProgressAt: real
    // The refs.
    var idleTimeoutMs: real
    var lockOnHidden: bool
    var hiddenDelayMs: real
    var lastActivity: real
    var hiddenSince: Option<real>
    var timer: Option<real>
    var lockRequested: bool
    var lastEvaluateAt: real
    var lastActivityHandled: real
    var lockRequests: nat

    ghost function State(): Session
      reads this
    {
      Session(authenticated, locked, tabHidden, autoLockProgressAt, idleTimeoutMs, lockOnHidden, hiddenDelayMs,
              lastActivity, hiddenSince, timer, lockRequested, lastEvaluateAt, lastActivityHandled, lockRequests)
    }

    constructor (m: Mount)
      ensures State() == Mounted(m)
    {
      authenticated, locked, tabHidden := true, false, m.tabHidden;
      autoLockProgressAt := m.progressAt;
      idleTimeoutMs, lockOnHidden := AUTO_LOCK_TIMEOUT_MINUTES * MINUTE_MS, LOCK_ON_HIDDEN_DEFAULT;
      hiddenDelayMs := LOCK_ON_HIDDEN_DELAY_MINUTES * MINUTE_MS;
      lastActivity, hiddenSince, timer := m.renderActivity, None, None;
      lockRequested, lastEvaluateAt, lastActivityHandled, lockRequests := false, m.renderEvaluate, 0.0, 0;
      new;
      HandleSettings(m.settings, m.settingsNow);
      lockRequested := false;
      lastActivity := m.sessionStart;
      hiddenSince := if tabHidden then Some(m.hiddenAt) else None;
      Evaluate(m.sessionNow);
    }

    method NoteProgress(at: real)
      modifies this`autoLockProgressAt
      ensures State() == Step(old(State()), Progress(at))
    {
      if !tabHidden {
        autoLockProgressAt := at;
      }
    }

    method DeadlineAt() returns (deadline: real)
      ensures deadline == State().Deadline()
    {
      var idleDeadline := lastActivity + idleTimeoutMs;
      if lockOnHidden && hiddenSince.Some? {
        deadline := Min(idleDeadline, hiddenSince.value + hiddenDelayMs);
      } else {
        deadline := idleDeadline;
      }
    }

    method Lock()
      modifies this`locked, this`lockRequests
      ensures State() == old(State()).(locked := true, lockRequests := old(lockRequests) + 1)
    {
      locked := true;
      lockRequests := lockRequests + 1;
    }

    method Evaluate(now: real)
      modifies this
      ensures State() == AutoLockSpec.Evaluate(old(State()), now)
    {
      if !authenticated || locked || lockRequested {
        timer := None;
        return;
      }
      if autoLockProgressAt > now {
        autoLockProgressAt := 0.0;
      }
      if now - lastEvaluateAt < PROGRESS_CONTINUITY_MS {
        lastActivity := Max(lastActivity, autoLockProgressAt);
      }
      lastEvaluateAt := now;
      var deadline := DeadlineAt();
      var remaining := deadline - now;
      if remaining <= 0.0 {
        timer := None;
        lockRequested := true;
        Lock();
        return;
      }
      timer := Some(now + Min(remaining, DEADLINE_POLL_MS));
    }

    method HandleSettings(settings: Settings, now: real)
      modifies this
      ensures State() == Step(old(State()), SettingsEffect(settings, now))
    {
      idleTimeoutMs := settings.autoLockTimeout * MINUTE_MS;
      lockOnHidden := settings.lockOnHidden;
      hiddenDelayMs := settings.lockOnHiddenDelay * MINUTE_MS;
      if !authenticated || locked {
        return;
      }
      Evaluate(now);
    }

    method HandleActivity(at: real, now: real)
      modifies this
      ensures State() == Step(old(State()), Activity(at, now))
    {
      if at - lastActivityHandled < ACTIVITY_THROTTLE_MS {
        return;
      }
      lastActivityHandled := at;
      lastActivity := at;
      Evaluate(now);
    }

    /** `visibilitychange`, with the document now hidden or visible. */
    method HandleVisibilityChange(hidden: bool, first: real, second: real)
      modifies this
      ensures State() == Step(old(State()), if hidden then Hide(first, second) else Show(first, second))
    {
      tabHidden := hidden;
      if hidden {
        hiddenSince := Some(first);
        Evaluate(second);
        return;
      }
      Evaluate(first);
      hiddenSince := None;
      Evaluate(second);
    }

    /** `focus`, `pageshow`, the armed timer and the poll. */
    method HandleWake(now: real)
      modifies this
      ensures State() == Step(old(State()), Wake(now))
      ensures State() == Step(old(State()), TimerFires(now))
      ensures State() == Step(old(State()), PollFires(now))
    {
      Evaluate(now);
    }
  }
}
