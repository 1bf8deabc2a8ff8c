/**
 What every run of the auto-lock session keeps, whatever the clock does and
 however late its timers are.
 */
module AutoLockRuns {
  import opened Options
  import opened LockSettings
  import opened AutoLockSpec

  // ---------- One evaluation ----------

  /** A recorded progress stamp that may still move this evaluation's idle deadline. */
  predicate Creditable(s: Session, now: real) {
    s.progressAt <= now && now - s.lastEvaluateAt < 60_000.0
  }

  predicate IdlePastDue(s: Session, now: real) {
    && s.lastActivity + s.idleTimeoutMs <= now
    && (Creditable(s, now) ==> s.progressAt + s.idleTimeoutMs <= now)
  }

  predicate HiddenPastDue(s: Session, now: real) {
    s.lockOnHidden && s.hiddenSince.Some? && s.hiddenSince.value + s.hiddenDelayMs <= now
  }

  predicate PastDue(s: Session, now: real) {
    IdlePastDue(s, now) || HiddenPastDue(s, now)
  }

  predicate RequestsLock(before: Session, after: Session) {
    after.lockRequests == before.lockRequests + 1 && after.lockRequested && after.locked && after.timer == None
  }

  /** An open session that was judged and kept: a timer is due no later than the deadline or the poll. */
  predicate Armed(s: Session) {
    && s.lastEvaluateAt < s.Deadline()
    && s.timer == Some(Min(s.Deadline(), s.lastEvaluateAt + 20_000.0))
  }

  /** An evaluation of an open session requests the lock exactly when a deadline has passed; otherwise it re-arms. */
  lemma EvaluateVerdict(s: Session, now: real)
    requires s.Open() && 0.0 <= s.lastActivity
    ensures PastDue(s, now) ==> RequestsLock(s, Evaluate(s, now))
    ensures !PastDue(s, now) ==>
              Evaluate(s, now).Open() && Evaluate(s, now).lockRequests == s.lockRequests && Armed(Evaluate(s, now))
    ensures Evaluate(s, now).lastEvaluateAt == now
  {
  }

  /** After a gap the page did not live through, no stamp can change the verdict. */
  lemma GapIgnoresStamps(s: Session, stamp: real, now: real)
    requires s.Open() && now - s.lastEvaluateAt >= 60_000.0
    ensures RequestsLock(s, Evaluate(s.(progressAt := stamp), now)) <==> s.Deadline() <= now
    ensures Evaluate(s.(progressAt := stamp), now).lastActivity == s.lastActivity
  {
  }

  // ---------- Every run ----------

  /** At most one lock request, none while the session is open, and a timer armed for every open session. */
  predicate Guarded(s: Session) {
    && s.lockRequests <= 1
    && (s.lockRequests == 1 ==> !s.Open())
    && (s.Open() ==> Armed(s))
  }

  lemma EvaluateGuards(s: Session, now: real)
    requires s.lockRequests <= 1 && (s.lockRequests == 1 ==> !s.Open())
    ensures Guarded(Evaluate(s, now))
  {
  }

  lemma ShowKeepsGuard(s: Session, before: real, after: real)
    requires Guarded(s)
    ensures Guarded(Step(s, Show(before, after)))
  {
    EvaluateGuards(s.(tabHidden := false), before);
    EvaluateGuards(Evaluate(s.(tabHidden := false), before).(hiddenSince := None), after);
  }

  lemma SettingsKeepGuard(s: Session, settings: Settings, now: real)
    requires Guarded(s)
    ensures Guarded(Step(s, SettingsEffect(settings, now)))
  {
    EvaluateGuards(s.(idleTimeoutMs := settings.autoLockTimeout * MINUTE_MS,
                      lockOnHidden := settings.lockOnHidden,
                      hiddenDelayMs := settings.lockOnHiddenDelay * MINUTE_MS), now);
  }

  lemma StepKeepsGuard(s: Session, e: Event)
    requires Guarded(s)
    ensures Guarded(Step(s, e))
  {
    match e
    case SettingsEffect(settings, now) => SettingsKeepGuard(s, settings, now);
    case Activity(at, now) => EvaluateGuards(s.(lastActivityHandled := at, lastActivity := at), now);
    case Hide(at, now) => EvaluateGuards(s.(tabHidden := true, hiddenSince := Some(at)), now);
    case Show(before, after) => ShowKeepsGuard(s, before, after);
    case Wake(now) => EvaluateGuards(s, now);
    case TimerFires(now) => EvaluateGuards(s, now);
    case PollFires(now) => EvaluateGuards(s, now);
    case _ =>
  }

  lemma {:induction false} RunKeepsGuard(s: Session, es: seq<Event>)
    requires Guarded(s)
    ensures Guarded(Run(s, es))
  {
    if es != [] {
      RunKeepsGuard(s, es[..|es| - 1]);
      StepKeepsGuard(Run(s, es[..|es| - 1]), es[|es| - 1]);
    }
  }

  /** Every state of every run from a mount: one lock request at most, and never an open session without a due timer. */
  lemma EveryRunIsGuarded(m: Mount, es: seq<Event>)
    ensures Guarded(Run(Mounted(m), es))
  {
    RunKeepsGuard(Mounted(m), es);
  }

  /** The run with the auth store rewritten before each event, as if its update had not been seen yet. */
  function RunUnderStores(s: Session, es: seq<Event>, stores: seq<(bool, bool)>): Session
    requires |es| == |stores|
  {
    if es == [] then s
    else
      var last := |es| - 1;
      var before := RunUnderStores(s, es[..last], stores[..last]);
      Step(before.(authenticated := stores[last].0, locked := stores[last].1), es[last])
  }

  lemma EvaluateKeepsLatch(s: Session, now: real)
    requires s.lockRequested
    ensures Evaluate(s, now) == s.(timer := None)
  {
  }

  lemma StepKeepsLatch(s: Session, e: Event)
    requires s.lockRequested
    ensures Step(s, e).lockRequested && Step(s, e).lockRequests == s.lockRequests
  {
    match e
    case Show(before, after) =>
      EvaluateKeepsLatch(s.(tabHidden := false), before);
      EvaluateKeepsLatch(Evaluate(s.(tabHidden := false), before).(hiddenSince := None), after);
    case _ =>
  }

  /** The latch alone keeps a second request away: the store's own timing is never relied on. */
  lemma {:induction false} LatchAloneStopsASecondRequest(s: Session, es: seq<Event>, stores: seq<(bool, bool)>)
    requires |es| == |stores| && s.lockRequested
    ensures RunUnderStores(s, es, stores).lockRequested
    ensures RunUnderStores(s, es, stores).lockRequests == s.lockRequests
  {
    if es != [] {
      var last := |es| - 1;
      LatchAloneStopsASecondRequest(s, es[..last], stores[..last]);
      var before := RunUnderStores(s, es[..last], stores[..last]);
      StepKeepsLatch(before.(authenticated := stores[last].0, locked := stores[last].1), es[last]);
    }
  }

  // ---------- Why an open vault is open ----------

  predicate AfterEpoch(e: Event) {
    match e
    case SettingsEffect(_, now) => 0.0 <= now
    case Activity(at, now) => 0.0 <= at && 0.0 <= now
    case Hide(at, now) => 0.0 <= at && 0.0 <= now
    case Show(before, after) => 0.0 <= before && 0.0 <= after
    case Wake(now) => 0.0 <= now
    case TimerFires(now) => 0.0 <= now
    case PollFires(now) => 0.0 <= now
    case Progress(at) => 0.0 <= at
    case LockedElsewhere => true
    case SignedOut => true
  }

  /** Whether the tab is hidden: the last change of visibility decides. */
  function HiddenAfter(hidden: bool, es: seq<Event>): bool {
    if es == [] then hidden
    else if es[|es| - 1].Hide? then true
    else if es[|es| - 1].Show? then false
    else HiddenAfter(hidden, es[..|es| - 1])
  }

  lemma EvaluateKeepsVisibility(s: Session, now: real)
    ensures Evaluate(s, now).tabHidden == s.tabHidden
  {
  }

  lemma {:induction false} VisibilityFollows(s: Session, es: seq<Event>)
    ensures Run(s, es).tabHidden == HiddenAfter(s.tabHidden, es)
  {
    if es != [] {
      VisibilityFollows(s, es[..|es| - 1]);
      StepChangesVisibility(Run(s, es[..|es| - 1]), es[|es| - 1]);
    }
  }

  lemma StepChangesVisibility(s: Session, e: Event)
    ensures Step(s, e).tabHidden == (e.Hide? || (s.tabHidden && !e.Show?))
  {
    match e
    case SettingsEffect(settings, now) =>
      EvaluateKeepsVisibility(s.(idleTimeoutMs := settings.autoLockTimeout * MINUTE_MS, lockOnHidden := settings.lockOnHidden,
                                 hiddenDelayMs := settings.lockOnHiddenDelay * MINUTE_MS), now);
    case Activity(at, now) => EvaluateKeepsVisibility(s.(lastActivityHandled := at, lastActivity := at), now);
    case Hide(at, now) => EvaluateKeepsVisibility(s.(tabHidden := true, hiddenSince := Some(at)), now);
    case Show(before, after) =>
      EvaluateKeepsVisibility(s.(tabHidden := false), before);
      EvaluateKeepsVisibility(Evaluate(s.(tabHidden := false), before).(hiddenSince := None), after);
    case Wake(now) => EvaluateKeepsVisibility(s, now);
    case TimerFires(now) => EvaluateKeepsVisibility(s, now);
    case PollFires(now) => EvaluateKeepsVisibility(s, now);
    case _ =>
  }

  /** The instants at which the user acted, or a job progressed in a visible tab. */
  function Evidence(s: Session, es: seq<Event>): set<real> {
    if es == [] then {s.lastActivity, s.progressAt}
    else
      var prefix := es[..|es| - 1];
      Evidence(s, prefix) +
      match es[|es| - 1]
      case Activity(at, _) => {at}
      case Progress(at) => if HiddenAfter(s.tabHidden, prefix) then {} else {at}
      case _ => {}
  }

  ghost predicate Accounted(s: Session, evidence: set<real>) {
    && 0.0 <= s.lastActivity && s.lastActivity in evidence
    && (s.progressAt == 0.0 || s.progressAt in evidence)
  }

  lemma {:induction false} RunIsAccounted(s: Session, es: seq<Event>)
    requires 0.0 <= s.lastActivity
    requires forall e :: e in es ==> AfterEpoch(e)
    ensures Accounted(Run(s, es), Evidence(s, es))
  {
    if es != [] {
      var last := es[|es| - 1];
      assert forall e :: e in es[..|es| - 1] ==> e in es;
      RunIsAccounted(s, es[..|es| - 1]);
      assert last in es;
      VisibilityFollows(s, es[..|es| - 1]);
      StepIsAccounted(Run(s, es[..|es| - 1]), last, Evidence(s, es[..|es| - 1]), Evidence(s, es));
    }
  }

  lemma EvaluateIsAccounted(s: Session, now: real, evidence: set<real>)
    requires Accounted(s, evidence)
    ensures Accounted(Evaluate(s, now), evidence)
  {
  }

  lemma ShowIsAccounted(s: Session, first: real, second: real, evidence: set<real>)
    requires Accounted(s, evidence)
    ensures Accounted(Step(s, Show(first, second)), evidence)
  {
    EvaluateIsAccounted(s.(tabHidden := false), first, evidence);
    EvaluateIsAccounted(Evaluate(s.(tabHidden := false), first).(hiddenSince := None), second, evidence);
  }

  lemma StepIsAccounted(s: Session, e: Event, before: set<real>, after: set<real>)
    requires Accounted(s, before) && before <= after && AfterEpoch(e)
    requires e.Activity? ==> e.at in after
    requires e.Progress? && !s.tabHidden ==> e.at in after
    ensures Accounted(Step(s, e), after)
  {
    match e
    case SettingsEffect(settings, now) =>
      EvaluateIsAccounted(s.(idleTimeoutMs := settings.autoLockTimeout * MINUTE_MS,
                             lockOnHidden := settings.lockOnHidden,
                             hiddenDelayMs := settings.lockOnHiddenDelay * MINUTE_MS), now, after);
    case Activity(at, now) =>
      EvaluateIsAccounted(s.(lastActivityHandled := at, lastActivity := at), now, after);
    case Hide(at, now) =>
      EvaluateIsAccounted(s.(tabHidden := true, hiddenSince := Some(at)), now, after);
    case Show(first, second) => ShowIsAccounted(s, first, second, after);
    case Wake(now) => EvaluateIsAccounted(s, now, after);
    case TimerFires(now) => EvaluateIsAccounted(s, now, after);
    case PollFires(now) => EvaluateIsAccounted(s, now, after);
    case _ =>
  }

  /**
   Whatever the clock did and however late the timers were: a vault still open
   has a session start, a user action or a visible-tab progress stamp less than
   one timeout before its last evaluation, and no hidden delay that had run out.
   */
  lemma OpenVaultHasRecentEvidence(m: Mount, es: seq<Event>)
    requires 0.0 <= m.sessionStart
    requires forall e :: e in es ==> AfterEpoch(e)
    requires Run(Mounted(m), es).Open()
    ensures var s := Run(Mounted(m), es);
            && (exists stamp :: stamp in Evidence(Mounted(m), es) && s.lastEvaluateAt < stamp + s.idleTimeoutMs)
            && !HiddenPastDue(s, s.lastEvaluateAt)
  {
    EveryRunIsGuarded(m, es);
    RunIsAccounted(Mounted(m), es);
    var s := Run(Mounted(m), es);
    assert s.lastActivity in Evidence(Mounted(m), es);
    assert s.lastEvaluateAt < s.lastActivity + s.idleTimeoutMs;
  }

  // ---------- Prompt timers ----------

  function FirstReading(e: Event): Option<real> {
    match e
    case SettingsEffect(_, now) => Some(now)
    case Activity(at, _) => Some(at)
    case Hide(at, _) => Some(at)
    case Show(before, _) => Some(before)
    case Wake(now) => Some(now)
    case TimerFires(now) => Some(now)
    case PollFires(now) => Some(now)
    case Progress(at) => Some(at)
    case LockedElsewhere => None
    case SignedOut => None
  }

  /** No event is handled after a timer that was due before it: an armed timer fires when due. */
  ghost predicate Prompt(s: Session, es: seq<Event>) {
    forall k :: 0 <= k < |es| ==> FiresFirst(Run(s, es[..k]), es[k])
  }

  predicate FiresFirst(s: Session, e: Event) {
    match FirstReading(e)
    case Some(now) => s.timer.Some? ==> now <= s.timer.value
    case None => true
  }

  /**
   With prompt timers no open vault is ever met past its deadline, and one met at
   its deadline is met by the timer that is due at that very instant.
   */
  lemma PromptRunIsNeverOpenPastDeadline(m: Mount, es: seq<Event>, k: nat)
    requires k < |es| && Prompt(Mounted(m), es)
    requires Run(Mounted(m), es[..k]).Open() && FirstReading(es[k]).Some?
    ensures var s := Run(Mounted(m), es[..k]); var now := FirstReading(es[k]).value;
            && now <= s.Deadline()
            && (now == s.Deadline() ==> s.timer == Some(now))
            && now <= s.lastEvaluateAt + 20_000.0
  {
    EveryRunIsGuarded(m, es[..k]);
    assert FiresFirst(Run(Mounted(m), es[..k]), es[k]);
  }

  // ---------- Late wakes ----------

  /** The steps that judge the deadline on the evidence as it stands. */
  predicate IsWake(e: Event) {
    e.Wake? || e.TimerFires? || e.PollFires? || e.Show?
  }

  /** However late, the first wake at or past the deadline closes the vault; becoming visible judges the hidden deadline too. */
  lemma LateWakeLocks(s: Session, e: Event)
    requires s.Open() && 0.0 <= s.lastActivity && IsWake(e)
    requires PastDue(s, FirstReading(e).value)
    ensures RequestsLock(s, Step(s, e))
  {
    var now := FirstReading(e).value;
    if e.Show? {
      EvaluateVerdict(s.(tabHidden := false), now);
    } else {
      EvaluateVerdict(s, now);
    }
  }

  /** A wake before every deadline, judged by each reading it takes, keeps the vault open and armed. */
  lemma EarlyWakeKeepsTheVaultOpen(s: Session, e: Event)
    requires s.Open() && 0.0 <= s.lastActivity && IsWake(e)
    requires !PastDue(s, FirstReading(e).value)
    requires e.Show? ==> !PastDue(Evaluate(s, e.before).(hiddenSince := None), e.after)
    ensures Step(s, e).Open() && Step(s, e).lockRequests == s.lockRequests && Armed(Step(s, e))
  {
    if e.Show? {
      EarlyReturnKeepsTheVaultOpen(s, e.before, e.after);
    } else {
      EvaluateVerdict(s, FirstReading(e).value);
    }
  }

  lemma EarlyReturnKeepsTheVaultOpen(s: Session, before: real, after: real)
    requires s.Open() && 0.0 <= s.lastActivity
    requires !PastDue(s, before) && !PastDue(Evaluate(s, before).(hiddenSince := None), after)
    ensures var t := Step(s, Show(before, after)); t.Open() && t.lockRequests == s.lockRequests && Armed(t)
  {
    var shown := s.(tabHidden := false);
    EvaluateVerdict(shown, before);
    var judged := Evaluate(shown, before).(hiddenSince := None);
    assert judged == Evaluate(s, before).(hiddenSince := None, tabHidden := false);
    EvaluateVerdict(judged, after);
  }

  /**
   An activity event is not such a wake: it moves the activity stamp first. One
   that is not throttled requests the lock if and only if the hidden delay has run
   out, or a whole timeout passed inside its own handler, however long ago the idle
   deadline passed.
   */
  lemma ActivityForgivesTheIdleDeadline(s: Session, at: real, now: real)
    requires s.Open() && !Throttled(s, at) && 0.0 <= at
    ensures RequestsLock(s, Step(s, Activity(at, now))) <==>
            HiddenPastDue(s, now) || IdlePastDue(s.(lastActivity := at), now)
    ensures now < at + s.idleTimeoutMs ==> !IdlePastDue(s.(lastActivity := at), now)
    ensures !RequestsLock(s, Step(s, Activity(at, now))) ==> Step(s, Activity(at, now)).Open()
  {
    EvaluateVerdict(s.(lastActivityHandled := at, lastActivity := at), now);
  }

  /** A saved change is judged at once, one that has already elapsed included. */
  lemma SettingsChangeIsJudgedAtOnce(s: Session, settings: Settings, now: real)
    requires s.Open() && 0.0 <= s.lastActivity
    ensures var changed := s.(idleTimeoutMs := settings.autoLockTimeout * 60_000.0, lockOnHidden := settings.lockOnHidden,
                              hiddenDelayMs := settings.lockOnHiddenDelay * 60_000.0);
            && (PastDue(changed, now) ==> RequestsLock(s, Step(s, SettingsEffect(settings, now))))
            && (!PastDue(changed, now) ==> Step(s, SettingsEffect(settings, now)).Open())
  {
    EvaluateVerdict(s.(idleTimeoutMs := settings.autoLockTimeout * MINUTE_MS, lockOnHidden := settings.lockOnHidden,
                       hiddenDelayMs := settings.lockOnHiddenDelay * MINUTE_MS), now);
  }

  /** The newest sign of life an evaluation at `now` goes by, `previous` being the evaluation before it. */
  function LastSign(activity: real, progressAt: real, previous: real, now: real): real {
    if progressAt <= now && now - previous < 60_000.0 then Max(activity, progressAt) else activity
  }

  /** When a mounted session is due, were it opened. */
  function DueAtMount(m: Mount): real {
    var progressAt := if m.progressAt <= m.settingsNow then m.progressAt else 0.0;
    var idle := LastSign(m.sessionStart, progressAt, m.settingsNow, m.sessionNow) + m.settings.autoLockTimeout * 60_000.0;
    if m.tabHidden && m.settings.lockOnHidden then Min(idle, m.hiddenAt + m.settings.lockOnHiddenDelay * 60_000.0) else idle
  }

  lemma SettingsEffectAtMount(m: Mount)
    requires 0.0 <= m.renderActivity
    ensures var s := ApplySettings(Rendered(m), m.settings, m.settingsNow);
            && s.lockRequests == (if s.locked then 1 else 0) && s.authenticated
            && (!s.locked <==> m.settingsNow < LastSign(m.renderActivity, m.progressAt, m.renderEvaluate, m.settingsNow)
                                               + m.settings.autoLockTimeout * 60_000.0)
            && s.progressAt == (if m.progressAt <= m.settingsNow then m.progressAt else 0.0)
            && s.lastEvaluateAt == m.settingsNow && s.tabHidden == m.tabHidden
            && s.idleTimeoutMs == m.settings.autoLockTimeout * 60_000.0 && s.lockOnHidden == m.settings.lockOnHidden
            && s.hiddenDelayMs == m.settings.lockOnHiddenDelay * 60_000.0
  {
    var applied := Rendered(m).(idleTimeoutMs := m.settings.autoLockTimeout * MINUTE_MS,
                                lockOnHidden := m.settings.lockOnHidden,
                                hiddenDelayMs := m.settings.lockOnHiddenDelay * MINUTE_MS);
    EvaluateVerdict(applied, m.settingsNow);
  }

  /**
   Whatever its readings of the clock, a mount opens a session if and only if neither
   of its two effects finds a deadline passed, and an open one is due one timeout
   after its newest sign of life, or one hidden delay after it was hidden.
   */
  lemma MountOpensASessionIff(m: Mount)
    requires 0.0 <= m.renderActivity && 0.0 <= m.sessionStart
    ensures var s := Mounted(m);
            && (s.Open() <==>
                && m.settingsNow < LastSign(m.renderActivity, m.progressAt, m.renderEvaluate, m.settingsNow)
                                   + m.settings.autoLockTimeout * 60_000.0
                && m.sessionNow < DueAtMount(m))
            && (s.Open() ==> s.lockRequests == 0 && Armed(s) && s.Deadline() == DueAtMount(m))
            && (s.lockRequested <==>
                && m.settingsNow < LastSign(m.renderActivity, m.progressAt, m.renderEvaluate, m.settingsNow)
                                   + m.settings.autoLockTimeout * 60_000.0
                && DueAtMount(m) <= m.sessionNow)
            && (s.lockRequests == if s.Open() then 0 else 1)
  {
    SettingsEffectAtMount(m);
    var settled := ApplySettings(Rendered(m), m.settings, m.settingsNow);
    var entered := settled.(lockRequested := false, lastActivity := m.sessionStart,
                            hiddenSince := if m.tabHidden then Some(m.hiddenAt) else None);
    if !settled.locked {
      EvaluateVerdict(entered, m.sessionNow);
    }
  }

  /** A mount whose effects run at once opens a session that is due one timeout, or one hidden delay, later. */
  lemma PromptMountOpensASession(m: Mount, now: real)
    requires m.renderActivity == m.renderEvaluate == m.settingsNow == m.sessionStart == m.hiddenAt == m.sessionNow == now
    requires 0.0 <= now && m.progressAt <= now
    requires 0.0 < m.settings.autoLockTimeout && 0.0 < m.settings.lockOnHiddenDelay
    ensures var s := Mounted(m);
            && s.Open() && s.lockRequests == 0 && Armed(s)
            && s.Deadline() == now + 60_000.0 * (if m.tabHidden && m.settings.lockOnHidden
                                                 then Min(m.settings.autoLockTimeout, m.settings.lockOnHiddenDelay)
                                                 else m.settings.autoLockTimeout)
  {
    MountOpensASessionIff(m);
  }

  /** Eight hours asleep with no timer run: a wake locks the default session, a pointer move before it does not. */
  lemma EightHourSleep(m: Mount)
    requires m.settings == Settings(15.0, false, 1.0) && !m.tabHidden && m.progressAt == 0.0
    requires m.renderActivity == m.renderEvaluate == m.settingsNow == m.sessionStart == m.sessionNow == 1_000_000.0
    ensures !Run(Mounted(m), [Wake(29_800_000.0)]).Open()
    ensures Run(Mounted(m), [Activity(29_800_000.0, 29_800_000.0), Wake(29_800_001.0)]).Open()
  {
    var s := Mounted(m);
    assert [Wake(29_800_000.0)][..0] == [];
    var es := [Activity(29_800_000.0, 29_800_000.0), Wake(29_800_001.0)];
    assert es[..1] == [es[0]] && es[..1][..0] == [];
    assert Run(s, es[..1]) == Step(s, es[0]);
    ActivityForgivesTheIdleDeadline(s, 29_800_000.0, 29_800_000.0);
  }

  /** What a hidden tab's deadline is made of. */
  datatype HiddenRule = HiddenRule(since: real, enabled: bool, delayMs: real)

  /** The rule in force after these events: the last hiding counts, under the last settings. */
  function RuleAfter(rule: HiddenRule, es: seq<Event>): HiddenRule {
    if es == [] then rule
    else
      var before := RuleAfter(rule, es[..|es| - 1]);
      match es[|es| - 1]
      case Hide(at, _) => before.(since := at)
      case SettingsEffect(settings, _) =>
        before.(enabled := settings.lockOnHidden, delayMs := settings.lockOnHiddenDelay * 60_000.0)
      case _ => before
  }

  /**
   A tab hidden at `at`, then whatever happened, or failed to happen, short of a
   return: a return past the delay then in force never finds the vault open.
   */
  lemma {:induction false} HiddenTabDoesNotReturnOpen(s: Session, at: real, now: real, es: seq<Event>, back: Event)
    requires 0.0 <= s.lastActivity
    requires forall e :: e in es ==> AfterEpoch(e) && !e.Show?
    requires var rule := RuleAfter(HiddenRule(at, s.lockOnHidden, s.hiddenDelayMs), es);
             rule.enabled && back.Show? && rule.since + rule.delayMs <= back.before
    ensures !Run(s, [Hide(at, now)] + es + [back]).Open()
  {
    var hidden := Step(s, Hide(at, now));
    var whole := [Hide(at, now)] + es + [back];
    RunAppend(s, [Hide(at, now)], es);
    assert [Hide(at, now)][..0] == [];
    assert Run(s, [Hide(at, now)]) == hidden;
    assert whole[..|whole| - 1] == [Hide(at, now)] + es;
    HiddenRunFollowsTheRule(hidden, HiddenRule(at, s.lockOnHidden, s.hiddenDelayMs), es);
    var before := Run(hidden, es);
    assert Run(s, whole) == Step(before, back);
    if before.Open() {
      LateWakeLocks(before, back);
    }
  }

  predicate Follows(s: Session, rule: HiddenRule) {
    s.hiddenSince == Some(rule.since) && s.lockOnHidden == rule.enabled && s.hiddenDelayMs == rule.delayMs && 0.0 <= s.lastActivity
  }

  lemma EvaluateFollows(s: Session, now: real, rule: HiddenRule)
    requires Follows(s, rule)
    ensures Follows(Evaluate(s, now), rule)
  {
  }

  lemma StepFollows(s: Session, e: Event, rule: HiddenRule, next: HiddenRule)
    requires Follows(s, rule) && AfterEpoch(e) && !e.Show?
    requires next == match e
                     case Hide(at, _) => rule.(since := at)
                     case SettingsEffect(settings, _) =>
                       rule.(enabled := settings.lockOnHidden, delayMs := settings.lockOnHiddenDelay * 60_000.0)
                     case _ => rule
    ensures Follows(Step(s, e), next)
  {
    match e
    case SettingsEffect(settings, now) =>
      EvaluateFollows(s.(idleTimeoutMs := settings.autoLockTimeout * MINUTE_MS, lockOnHidden := settings.lockOnHidden,
                         hiddenDelayMs := settings.lockOnHiddenDelay * MINUTE_MS), now, next);
    case Activity(t, now) => EvaluateFollows(s.(lastActivityHandled := t, lastActivity := t), now, next);
    case Hide(t, now) => EvaluateFollows(s.(tabHidden := true, hiddenSince := Some(t)), now, next);
    case Wake(now) => EvaluateFollows(s, now, next);
    case TimerFires(now) => EvaluateFollows(s, now, next);
    case PollFires(now) => EvaluateFollows(s, now, next);
    case _ =>
  }

  lemma {:induction false} HiddenRunFollowsTheRule(s: Session, rule: HiddenRule, es: seq<Event>)
    requires Follows(s, rule)
    requires forall e :: e in es ==> AfterEpoch(e) && !e.Show?
    ensures Follows(Run(s, es), RuleAfter(rule, es))
  {
    if es != [] {
      var last := es[|es| - 1];
      assert last in es && forall e :: e in es[..|es| - 1] ==> e in es;
      HiddenRunFollowsTheRule(s, rule, es[..|es| - 1]);
      StepFollows(Run(s, es[..|es| - 1]), last, RuleAfter(rule, es[..|es| - 1]), RuleAfter(rule, es));
    }
  }

  lemma {:induction false} RunAppend(s: Session, es: seq<Event>, more: seq<Event>)
    ensures Run(s, es + more) == Run(Run(s, es), more)
  {
    if more == [] {
      assert es + more == es;
    } else {
      var last := |more| - 1;
      RunAppend(s, es, more[..last]);
      assert (es + more)[..|es + more| - 1] == es + more[..last];
    }
  }

  // ---------- Progress of a long job ----------

  /** The first reading an event judges a deadline by, if it judges one. */
  function Judgement(s: Session, e: Event): Option<real> {
    match e
    case SettingsEffect(_, now) => Some(now)
    case Activity(at, now) => if Throttled(s, at) then None else Some(now)
    case Hide(_, now) => Some(now)
    case Show(before, _) => Some(before)
    case Wake(now) => Some(now)
    case TimerFires(now) => Some(now)
    case PollFires(now) => Some(now)
    case _ => None
  }

  /** The stamp was credited by an evaluation at `now`: not ahead of the clock, and the page alive since the evaluation before it. */
  predicate Credited(stamp: real, previous: real, now: real) {
    stamp <= now < previous + 60_000.0
  }

  lemma EvaluateCredits(s: Session, now: real)
    requires 0.0 <= s.lastActivity
    ensures var t := Evaluate(s, now);
            && (t.lastActivity != s.lastActivity ==>
                  s.Open() && s.lastActivity < t.lastActivity == s.progressAt && Credited(s.progressAt, s.lastEvaluateAt, now))
            && (s.Open() ==> t.lastEvaluateAt == now && (t.progressAt == s.progressAt <= now || t.progressAt == 0.0))
            && (!s.Open() ==> !t.Open())
  {
  }

  /**
   In every step of an open session the activity stamp stays, or becomes the user's
   action, or the progress stamp, if that one was credited: by the step's first
   evaluation, or by the second of a return to the tab, which follows its first.
   */
  lemma CreditIsEarned(s: Session, e: Event)
    requires 0.0 <= s.lastActivity && AfterEpoch(e) && Step(s, e).lastActivity != s.lastActivity
    ensures var stamp := Step(s, e).lastActivity;
            || (e.Activity? && stamp == e.at)
            || (stamp == s.progressAt && s.Open() && Judgement(s, e).Some?
                && (Credited(stamp, s.lastEvaluateAt, Judgement(s, e).value)
                    || (e.Show? && stamp <= e.before && Credited(stamp, e.before, e.after))))
  {
    match e
    case SettingsEffect(settings, now) =>
      EvaluateCredits(s.(idleTimeoutMs := settings.autoLockTimeout * MINUTE_MS, lockOnHidden := settings.lockOnHidden,
                         hiddenDelayMs := settings.lockOnHiddenDelay * MINUTE_MS), now);
    case Activity(at, now) => EvaluateCredits(s.(lastActivityHandled := at, lastActivity := at), now);
    case Hide(at, now) => EvaluateCredits(s.(tabHidden := true, hiddenSince := Some(at)), now);
    case Show(before, after) => ReturnCredits(s, before, after);
    case Wake(now) => EvaluateCredits(s, now);
    case TimerFires(now) => EvaluateCredits(s, now);
    case PollFires(now) => EvaluateCredits(s, now);
    case _ =>
  }

  lemma ReturnCredits(s: Session, before: real, after: real)
    requires 0.0 <= s.lastActivity && Step(s, Show(before, after)).lastActivity != s.lastActivity
    ensures var stamp := Step(s, Show(before, after)).lastActivity;
            && stamp == s.progressAt && s.Open()
            && (Credited(stamp, s.lastEvaluateAt, before) || (stamp <= before && Credited(stamp, before, after)))
  {
    EvaluateCredits(s.(tabHidden := false), before);
    EvaluateCredits(Evaluate(s.(tabHidden := false), before).(hiddenSince := None), after);
  }


  /** A machine that slept past the deadline locks on waking, whatever progress was recorded before the wake was handled. */
  lemma {:induction false} SleepIgnoresProgress(s: Session, stamps: seq<Event>, e: Event)
    requires s.Open() && 0.0 <= s.lastActivity && IsWake(e)
    requires forall p :: p in stamps ==> p.Progress?
    requires FirstReading(e).value - s.lastEvaluateAt >= 60_000.0
    requires s.Deadline() <= FirstReading(e).value
    ensures RequestsLock(s, Run(s, stamps + [e]))
  {
    StampsOnlyStamp(s, stamps);
    var stamped := Run(s, stamps);
    assert (stamps + [e])[..|stamps + [e]| - 1] == stamps;
    LateWakeLocks(stamped, e);
  }

  lemma {:induction false} StampsOnlyStamp(s: Session, stamps: seq<Event>)
    requires forall p :: p in stamps ==> p.Progress?
    ensures Run(s, stamps) == s.(progressAt := Run(s, stamps).progressAt)
  {
    if stamps != [] {
      assert stamps[|stamps| - 1] in stamps && forall p :: p in stamps[..|stamps| - 1] ==> p in stamps;
      StampsOnlyStamp(s, stamps[..|stamps| - 1]);
    }
  }

  /** The first judgement met by a stamp ahead of the clock leaves the state of a session that never had it, so no later step can tell. */
  lemma FutureStampLeavesNoTrace(s: Session, stamp: real, e: Event)
    requires s.Open() && Judgement(s, e).Some? && 0.0 <= Judgement(s, e).value < stamp
    ensures Step(s.(progressAt := stamp), e) == Step(s.(progressAt := 0.0), e)
    ensures Step(s.(progressAt := stamp), e).progressAt == 0.0
  {
    match e
    case SettingsEffect(settings, now) =>
      FutureStampIsErased(s.(idleTimeoutMs := settings.autoLockTimeout * MINUTE_MS, lockOnHidden := settings.lockOnHidden,
                             hiddenDelayMs := settings.lockOnHiddenDelay * MINUTE_MS), stamp, now);
    case Activity(at, now) => FutureStampIsErased(s.(lastActivityHandled := at, lastActivity := at), stamp, now);
    case Hide(at, now) => FutureStampIsErased(s.(tabHidden := true, hiddenSince := Some(at)), stamp, now);
    case Show(before, after) =>
      FutureStampIsErased(s.(tabHidden := false), stamp, before);
      NoStampStays(Evaluate(s.(tabHidden := false, progressAt := stamp), before).(hiddenSince := None), after);
    case Wake(now) => FutureStampIsErased(s, stamp, now);
    case TimerFires(now) => FutureStampIsErased(s, stamp, now);
    case PollFires(now) => FutureStampIsErased(s, stamp, now);
  }

  lemma FutureStampIsErased(s: Session, stamp: real, now: real)
    requires s.Open() && 0.0 <= now < stamp
    ensures Evaluate(s.(progressAt := stamp), now) == Evaluate(s.(progressAt := 0.0), now)
    ensures Evaluate(s.(progressAt := stamp), now).progressAt == 0.0
  {
  }

  lemma NoStampStays(s: Session, now: real)
    requires s.progressAt == 0.0
    ensures Evaluate(s, now).progressAt == 0.0
  {
  }

  predicate Quiet(e: Event) {
    AfterEpoch(e) && !e.Activity? && !e.Progress? && !e.SettingsEffect?
  }

  /**
   A job and a user whose last sign of life is at `t`: after any quiet events, with
   any clock, the timer of a vault still open is due by `t` plus the timeout, and
   any wake from then on closes it.
   */
  lemma QuietVaultLocksOnTime(s: Session, t: real, es: seq<Event>, e: Event)
    requires Guarded(s) && 0.0 <= s.lastActivity <= t && s.progressAt <= t
    requires forall q :: q in es ==> Quiet(q)
    requires IsWake(e) && t + s.idleTimeoutMs <= FirstReading(e).value
    ensures var before := Run(s, es);
            before.Open() ==> before.timer.Some? && before.timer.value <= t + s.idleTimeoutMs
    ensures !Run(s, es + [e]).Open()
  {
    QuietRunAgesInPlace(s, t, es);
    RunKeepsGuard(s, es);
    var before := Run(s, es);
    assert (es + [e])[..|es + [e]| - 1] == es;
    if before.Open() {
      LateWakeLocks(before, e);
    }
  }

  /** What a quiet step leaves as it is, or moves back. */
  ghost predicate Aged(s: Session, t: real, timeout: real) {
    0.0 <= s.lastActivity <= t && s.progressAt <= t && s.idleTimeoutMs == timeout
  }

  lemma EvaluateAges(s: Session, now: real, t: real, timeout: real)
    requires Aged(s, t, timeout)
    ensures Aged(Evaluate(s, now), t, timeout)
  {
  }

  lemma {:induction false} QuietRunAgesInPlace(s: Session, t: real, es: seq<Event>)
    requires Aged(s, t, s.idleTimeoutMs)
    requires forall q :: q in es ==> Quiet(q)
    ensures Aged(Run(s, es), t, s.idleTimeoutMs)
  {
    if es != [] {
      var last := es[|es| - 1];
      assert last in es && forall q :: q in es[..|es| - 1] ==> q in es;
      QuietRunAgesInPlace(s, t, es[..|es| - 1]);
      var r := Run(s, es[..|es| - 1]);
      match last
      case Hide(at, now) =>
        EvaluateAges(r.(tabHidden := true, hiddenSince := Some(at)), now, t, s.idleTimeoutMs);
      case Show(before, after) =>
        EvaluateAges(r.(tabHidden := false), before, t, s.idleTimeoutMs);
        EvaluateAges(Evaluate(r.(tabHidden := false), before).(hiddenSince := None), after, t, s.idleTimeoutMs);
      case Wake(now) => EvaluateAges(r, now, t, s.idleTimeoutMs);
      case TimerFires(now) => EvaluateAges(r, now, t, s.idleTimeoutMs);
      case PollFires(now) => EvaluateAges(r, now, t, s.idleTimeoutMs);
      case _ =>
    }
  }
}
