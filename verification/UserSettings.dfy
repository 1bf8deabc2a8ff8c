/**
 The settings cache every consumer of `useUserSettings` shares. A run interleaves
 renders, fetches, answers, same-tab and cross-tab invalidations and changes of
 the signed-in user in any order.
 */
module UserSettings {
  import opened Options
  import opened LockSettings

  datatype JsNumber = NaN | PlusInfinity | MinusInfinity | Finite(value: real)

  /** The settings of a profile response, as they arrive. */
  datatype Profile = Profile(autoLockTimeout: JsNumber, lockOnHidden: bool, lockOnHiddenDelay: JsNumber)

  datatype Reply = Success(profile: Profile) | Failure

  function ClampMinutes(value: JsNumber, fallback: real): real {
    if !value.Finite? then fallback
    else if value.value < AUTO_LOCK_MIN_MINUTES || value.value > AUTO_LOCK_MAX_MINUTES then fallback
    else value.value
  }

  function Clamped(profile: Profile): Settings {
    Settings(ClampMinutes(profile.autoLockTimeout, AUTO_LOCK_TIMEOUT_MINUTES), profile.lockOnHidden,
             ClampMinutes(profile.lockOnHiddenDelay, LOCK_ON_HIDDEN_DELAY_MINUTES))
  }

  /**
   The module's variables, the store's session, and the fetches: `pending` ones
   wait for their answer, `answered` ones have yet to run their `finally`. The
   last three fields are observers: who asked for each fetch, how many fetches had
   started when the cache was last dropped, and the fetch the cached value is from.
   */
  datatype Cache = Cache(
    cached: Option<Settings>,
    cachedFor: Option<string>,
    inFlight: Option<nat>,
    started: nat,
    pending: set<nat>,
    answered: set<nat>,
    user: Option<string>,
    authenticated: bool,
    locked: bool,
    owner: map<nat, Option<string>>,
    epoch: nat,
    cachedFrom: nat
  )

  const Cold := Cache(None, None, None, 0, {}, {}, None, false, false, map[], 0, 0)

  datatype Event =
    | StoreChanges(user: Option<string>, authenticated: bool, locked: bool)
    | Render
    | Consume                       // a consumer's cold-cache effect
    | Answer(id: nat, reply: Reply)
    | Settle(id: nat)
    | ClearCache(consumers: nat)    // `clearSettingsCache`, with this many consumers subscribed
    | StorageEvent(consumers: nat)  // another tab's invalidation, handled by each of them

  function Fetch(c: Cache): Cache {
    if c.inFlight.Some? then c
    else c.(inFlight := Some(c.started), pending := c.pending + {c.started},
            owner := c.owner[c.started := c.user], started := c.started + 1)
  }

  function Refetch(c: Cache): Cache {
    if !c.authenticated || c.locked then c else Fetch(c)
  }

  function Refetches(c: Cache, times: nat): Cache {
    if times == 0 then c else Refetch(Refetches(c, times - 1))
  }

  function Drop(c: Cache): Cache {
    c.(cached := None, inFlight := None, epoch := c.started)
  }

  function StorageHandlers(c: Cache, times: nat): Cache {
    if times == 0 then c else Refetch(Drop(StorageHandlers(c, times - 1)))
  }

  function Step(c: Cache, e: Event): Cache {
    match e
    case StoreChanges(user, authenticated, locked) => c.(user := user, authenticated := authenticated, locked := locked)
    case Render => if c.user == c.cachedFor then c else Drop(c).(cachedFor := c.user)
    case Consume => if !c.authenticated || c.locked || c.cached.Some? then c else Fetch(c)
    case Answer(id, reply) =>
      if id !in c.pending then c
      else
        var received := c.(pending := c.pending - {id}, answered := c.answered + {id});
        (match reply
         case Success(profile) => received.(cached := Some(Clamped(profile)), cachedFrom := id)
         case Failure => received)
    case Settle(id) =>
      if id !in c.answered then c
      else c.(answered := c.answered - {id}, inFlight := if c.inFlight == Some(id) then None else c.inFlight)
    case ClearCache(consumers) => Refetches(Drop(c), consumers)
    case StorageEvent(consumers) => StorageHandlers(c, consumers)
  }

  function Run(c: Cache, es: seq<Event>): Cache
    decreases |es|
  {
    if es == [] then c else Run(Step(c, es[0]), es[1..])
  }

  // ---------- The invariant ----------

  predicate InBounds(s: Settings) {
    && AUTO_LOCK_MIN_MINUTES <= s.autoLockTimeout <= AUTO_LOCK_MAX_MINUTES
    && AUTO_LOCK_MIN_MINUTES <= s.lockOnHiddenDelay <= AUTO_LOCK_MAX_MINUTES
  }

  ghost predicate Inv(c: Cache) {
    && c.epoch <= c.started
    && (c.inFlight.Some? ==>
          && c.inFlight.value + 1 == c.started && c.epoch <= c.inFlight.value
          && (c.inFlight.value in c.pending || c.inFlight.value in c.answered))
    && (forall id :: id in c.pending ==> id < c.started && id !in c.answered)
    && (forall id :: id in c.answered ==> id < c.started)
    && (forall id :: id in c.pending ==> (c.epoch <= id <==> c.inFlight == Some(id)))
    && (forall id: nat :: id < c.started ==> id in c.owner)
    && (c.cached.Some? ==> InBounds(c.cached.value) && c.cachedFrom < c.started)
  }

  lemma ColdInv()
    ensures Inv(Cold)
  {
  }

  lemma RefetchInv(c: Cache)
    requires Inv(c)
    ensures Inv(Fetch(c)) && Inv(Refetch(c))
  {
  }

  lemma {:induction false} RefetchesInv(c: Cache, times: nat)
    requires Inv(c)
    ensures Inv(Refetches(c, times))
  {
    if times > 0 {
      RefetchesInv(c, times - 1);
      RefetchInv(Refetches(c, times - 1));
    }
  }

  lemma {:induction false} StorageHandlersInv(c: Cache, times: nat)
    requires Inv(c)
    ensures Inv(StorageHandlers(c, times))
  {
    if times > 0 {
      StorageHandlersInv(c, times - 1);
      RefetchInv(Drop(StorageHandlers(c, times - 1)));
    }
  }

  lemma AnswerInv(c: Cache, id: nat, reply: Reply)
    requires Inv(c)
    ensures Inv(Step(c, Answer(id, reply)))
  {
  }

  lemma SettleInv(c: Cache, id: nat)
    requires Inv(c)
    ensures Inv(Step(c, Settle(id)))
  {
  }

  lemma StepInv(c: Cache, e: Event)
    requires Inv(c)
    ensures Inv(Step(c, e))
  {
    match e
    case Consume => RefetchInv(c);
    case Answer(id, reply) => AnswerInv(c, id, reply);
    case Settle(id) => SettleInv(c, id);
    case ClearCache(consumers) => RefetchesInv(Drop(c), consumers);
    case StorageEvent(consumers) => StorageHandlersInv(c, consumers);
    case _ =>
  }

  lemma {:induction false} RunKeepsInv(c: Cache, es: seq<Event>)
    requires Inv(c)
    ensures Inv(Run(c, es))
    decreases |es|
  {
    if es != [] {
      StepInv(c, es[0]);
      RunKeepsInv(Step(c, es[0]), es[1..]);
    }
  }

  /**
   In every run of the module: the fetch in flight is the newest one started and was
   started since the last drop, any other still waiting is older than that drop, and
   every cached value keeps both lock timeouts between one minute and a day.
   */
  lemma EveryRunKeepsInv(es: seq<Event>)
    ensures Inv(Run(Cold, es))
  {
    ColdInv();
    RunKeepsInv(Cold, es);
  }

  /** At every point of every run: a fetch starts only while none is in flight, and only its own end clears the one in flight, or a drop. */
  lemma InFlightIsGuarded(es: seq<Event>, e: Event)
    requires Run(Cold, es).inFlight.Some? && !e.ClearCache? && !e.StorageEvent?
    ensures var c := Run(Cold, es);
            && Step(c, e).started == c.started == c.inFlight.value + 1
            && (Step(c, e).inFlight != c.inFlight <==>
                  (e == Settle(c.inFlight.value) && c.inFlight.value in c.answered) || (e.Render? && c.user != c.cachedFor))
            && (Step(c, e).inFlight != c.inFlight ==> Step(c, e).inFlight.None?)
  {
    EveryRunKeepsInv(es);
  }

  /** Whatever profile arrives, the auto-lock deadlines it gives are finite, and beyond the poll that checks them. */
  lemma CachedTimeoutsOutlastThePoll(profile: Profile)
    ensures InBounds(Clamped(profile))
    ensures 20_000.0 < Clamped(profile).autoLockTimeout * 60_000.0 <= 86_400_000.0
    ensures 20_000.0 < Clamped(profile).lockOnHiddenDelay * 60_000.0 <= 86_400_000.0
  {
  }

  /** A stored number of minutes is kept if it is one minute to a day, and read as its default otherwise. */
  ghost predicate KeepsMinutes(kept: real, stored: JsNumber, otherwise: real) {
    match stored
    case Finite(v) => kept == if 1.0 <= v <= 1440.0 then v else otherwise
    case _ => kept == otherwise
  }

  /** A profile that arrives is cached as it is, but for a lock timeout no setting allows; a failure caches nothing. */
  lemma ProfileIsCachedAsStored(c: Cache, id: nat, profile: Profile)
    requires id in c.pending
    ensures var cached := Step(c, Answer(id, Success(profile))).cached;
            && cached.Some?
            && KeepsMinutes(cached.value.autoLockTimeout, profile.autoLockTimeout, 15.0)
            && KeepsMinutes(cached.value.lockOnHiddenDelay, profile.lockOnHiddenDelay, 1.0)
            && cached.value.lockOnHidden == profile.lockOnHidden
    ensures Step(c, Answer(id, Failure)).cached == c.cached
  {
  }

  // ---------- Invalidation and deduplication ----------

  function Mounts(consumers: nat): seq<Event> {
    if consumers == 0 then [] else [Consume] + Mounts(consumers - 1)
  }

  /** However many consumers mount on a cold cache, one fetch is started, and only for a session that is unlocked. */
  lemma {:induction false} ConcurrentConsumersShareOneFetch(c: Cache, consumers: nat)
    ensures Run(c, Mounts(consumers)).started ==
            c.started + (if 0 < consumers && c.authenticated && !c.locked && c.cached.None? && c.inFlight.None? then 1 else 0)
    decreases consumers
  {
    if consumers > 0 {
      assert Mounts(consumers)[0] == Consume && Mounts(consumers)[1..] == Mounts(consumers - 1);
      ConcurrentConsumersShareOneFetch(Step(c, Consume), consumers - 1);
    }
  }

  /** A fetch that failed leaves the way free: at any point of a run, once it has ended the next consumer starts another. */
  lemma FailedFetchIsTriedAgain(es: seq<Event>)
    requires var c := Run(Cold, es);
             && c.inFlight.Some? && c.inFlight.value in c.pending && c.authenticated && !c.locked && c.cached.None?
    ensures var c := Run(Cold, es); var id := c.inFlight.value;
            var after := Step(Step(Step(c, Answer(id, Failure)), Settle(id)), Consume);
            after.started == c.started + 1 && after.inFlight == Some(c.started)
  {
  }

  /** A session that is locked or signed out asks for nothing. */
  predicate AsksNothing(c: Cache) { !c.authenticated || c.locked }

  lemma {:induction false} RefetchesAskNothing(c: Cache, times: nat)
    requires AsksNothing(c)
    ensures Refetches(c, times) == c
  {
    if times > 0 {
      RefetchesAskNothing(c, times - 1);
    }
  }

  lemma {:induction false} StorageHandlersAskNothing(c: Cache, times: nat)
    requires AsksNothing(c)
    ensures AsksNothing(StorageHandlers(c, times)) && StorageHandlers(c, times).started == c.started
  {
    if times > 0 {
      StorageHandlersAskNothing(c, times - 1);
    }
  }

  /** From a lock or a sign-out until the store changes again, no fetch is started, whatever happens. */
  lemma {:induction false} ClosedSessionFetchesNothing(c: Cache, user: Option<string>, authenticated: bool, locked: bool, es: seq<Event>)
    requires !authenticated || locked
    requires forall e :: e in es ==> !e.StoreChanges?
    ensures Run(Step(c, StoreChanges(user, authenticated, locked)), es).started == c.started
  {
    QuietSession(Step(c, StoreChanges(user, authenticated, locked)), es);
  }

  lemma {:induction false} QuietSession(c: Cache, es: seq<Event>)
    requires AsksNothing(c) && forall e :: e in es ==> !e.StoreChanges?
    ensures Run(c, es).started == c.started
    decreases |es|
  {
    if es != [] {
      assert es[0] in es && forall e :: e in es[1..] ==> e in es;
      match es[0] {
        case ClearCache(consumers) => RefetchesAskNothing(Drop(c), consumers);
        case StorageEvent(consumers) => StorageHandlersAskNothing(c, consumers);
        case _ =>
      }
      QuietSession(Step(c, es[0]), es[1..]);
    }
  }

  /** However many consumers are mounted, a same-tab invalidation starts one fetch. */
  lemma {:induction false} SameTabInvalidationFetchesOnce(c: Cache, consumers: nat)
    ensures var after := Step(c, ClearCache(consumers));
            after.started == c.started + (if c.authenticated && !c.locked && consumers > 0 then 1 else 0)
    ensures var after := Refetches(Drop(c), consumers);
            && after.authenticated == c.authenticated && after.locked == c.locked
            && (after.inFlight.Some? <==> c.authenticated && !c.locked && consumers > 0)
  {
    if consumers > 0 {
      SameTabInvalidationFetchesOnce(c, consumers - 1);
    }
  }

  /** Another tab's invalidation starts a fetch for each consumer: each handler drops the one its neighbour just started. */
  lemma {:induction false} CrossTabInvalidationFetchesForEach(c: Cache, consumers: nat)
    ensures var after := Step(c, StorageEvent(consumers));
            && after.authenticated == c.authenticated && after.locked == c.locked
            && after.started == c.started + (if c.authenticated && !c.locked then consumers else 0)
  {
    if consumers > 0 {
      CrossTabInvalidationFetchesForEach(c, consumers - 1);
    }
  }

  // ---------- Freshness ----------

  /** The cached value was asked for after the last drop. */
  predicate Fresh(c: Cache) {
    c.cached.Some? ==> c.epoch <= c.cachedFrom
  }

  ghost predicate AlwaysFresh(c: Cache, es: seq<Event>)
    decreases |es|
  {
    Fresh(c) && (es == [] || AlwaysFresh(Step(c, es[0]), es[1..]))
  }

  /** No profile is received for a fetch that is no longer the one in flight. */
  predicate OrphanWrites(c: Cache, e: Event) {
    e.Answer? && e.reply.Success? && e.id in c.pending && c.inFlight != Some(e.id)
  }

  ghost predicate NoOrphanWrites(c: Cache, es: seq<Event>)
    decreases |es|
  {
    es == [] || (!OrphanWrites(c, es[0]) && NoOrphanWrites(Step(c, es[0]), es[1..]))
  }

  lemma {:induction false} RefetchesKeepEmpty(c: Cache, times: nat)
    requires c.cached.None?
    ensures Refetches(c, times).cached.None?
  {
    if times > 0 {
      RefetchesKeepEmpty(c, times - 1);
    }
  }

  lemma StepFreshIff(c: Cache, e: Event)
    requires Inv(c) && Fresh(c)
    ensures Fresh(Step(c, e)) <==> !OrphanWrites(c, e)
  {
    match e
    case ClearCache(consumers) => RefetchesKeepEmpty(Drop(c), consumers);
    case StorageEvent(consumers) =>
    case _ =>
  }

  lemma {:induction false} FreshFromIff(c: Cache, es: seq<Event>)
    requires Inv(c) && Fresh(c)
    ensures AlwaysFresh(c, es) <==> NoOrphanWrites(c, es)
    decreases |es|
  {
    if es != [] {
      StepFreshIff(c, es[0]);
      StepInv(c, es[0]);
      if Fresh(Step(c, es[0])) {
        FreshFromIff(Step(c, es[0]), es[1..]);
      }
    }
  }

  /** The cache is fresh at every point of a run if and only if every profile was received for the fetch in flight. */
  lemma FreshRunIff(es: seq<Event>)
    ensures AlwaysFresh(Cold, es) <==> NoOrphanWrites(Cold, es)
  {
    ColdInv();
    FreshFromIff(Cold, es);
  }

  // ---------- Ownership ----------

  /** The cached value was asked for by the account it is cached for. */
  predicate Owned(c: Cache) {
    c.cached.Some? ==> c.cachedFrom in c.owner && c.owner[c.cachedFrom] == c.cachedFor
  }

  ghost predicate AlwaysOwned(c: Cache, es: seq<Event>)
    decreases |es|
  {
    Owned(c) && (es == [] || AlwaysOwned(Step(c, es[0]), es[1..]))
  }

  /** A profile arrives that another account asked for. */
  predicate StrayProfile(c: Cache, e: Event) {
    e.Answer? && e.reply.Success? && e.id in c.pending && !(e.id in c.owner && c.owner[e.id] == c.cachedFor)
  }

  ghost predicate NoStrayProfile(c: Cache, es: seq<Event>)
    decreases |es|
  {
    es == [] || (!StrayProfile(c, es[0]) && NoStrayProfile(Step(c, es[0]), es[1..]))
  }

  lemma StepOwnedIff(c: Cache, e: Event)
    requires Inv(c) && Owned(c)
    ensures Owned(Step(c, e)) <==> !StrayProfile(c, e)
  {
    match e
    case ClearCache(consumers) => RefetchesKeepEmpty(Drop(c), consumers);
    case StorageEvent(consumers) =>
      if consumers > 0 {
        assert Drop(StorageHandlers(c, consumers - 1)).cached.None?;
      }
    case _ =>
  }

  lemma {:induction false} OwnedFromIff(c: Cache, es: seq<Event>)
    requires Inv(c) && Owned(c)
    ensures AlwaysOwned(c, es) <==> NoStrayProfile(c, es)
    decreases |es|
  {
    if es != [] {
      StepOwnedIff(c, es[0]);
      StepInv(c, es[0]);
      if Owned(Step(c, es[0])) {
        OwnedFromIff(Step(c, es[0]), es[1..]);
      }
    }
  }

  /**
   At every point of a run the cached value was asked for by the account it is
   cached for, if and only if no profile arrived that another account asked for.
   */
  lemma OwnedRunIff(es: seq<Event>)
    ensures AlwaysOwned(Cold, es) <==> NoStrayProfile(Cold, es)
  {
    ColdInv();
    OwnedFromIff(Cold, es);
  }

  lemma {:induction false} OwnedAtTheEnd(c: Cache, es: seq<Event>)
    requires AlwaysOwned(c, es)
    ensures Owned(Run(c, es))
    decreases |es|
  {
    if es != [] {
      OwnedAtTheEnd(Step(c, es[0]), es[1..]);
    }
  }

  /** With no such profile, what a consumer reads as it renders was asked for by the account signed in. */
  lemma RenderShowsOwnSettings(es: seq<Event>)
    requires NoStrayProfile(Cold, es)
    ensures var c := Step(Run(Cold, es), Render);
            && c.cachedFor == c.user == Run(Cold, es).user
            && (c.cached.Some? ==> c.cachedFrom in c.owner && c.owner[c.cachedFrom] == c.user)
            && (Run(Cold, es).user != Run(Cold, es).cachedFor ==> c.cached.None? && c.inFlight.None?)
  {
    OwnedRunIff(es);
    OwnedAtTheEnd(Cold, es);
  }

  lemma RunFirst(c: Cache, es: seq<Event>, e: Event, rest: seq<Event>)
    requires es == [e] + rest
    ensures Run(c, es) == Run(Step(c, e), rest)
  {
    assert es[1..] == rest;
  }

  /** The write is not guarded: one account's answer, arriving after the next account signed in, is cached for that one. */
  lemma LateAnswerIsCachedForTheNextUser(profile: Profile)
    ensures var c := Run(Cold, [StoreChanges(Some("a"), true, false), Render, Consume,
                                StoreChanges(Some("b"), true, false), Render, Answer(0, Success(profile))]);
            && c.cached == Some(Clamped(profile)) && c.cachedFor == Some("b")
            && c.cachedFrom in c.owner && c.owner[c.cachedFrom] == Some("a")
            && !Fresh(c) && !Owned(c)
  {
    var e0, e3, e5 := StoreChanges(Some("a"), true, false), StoreChanges(Some("b"), true, false), Answer(0, Success(profile));
    var c1 := Step(Cold, e0);
    var c2 := Step(c1, Render);
    var c3 := Step(c2, Consume);
    var c4 := Step(c3, e3);
    var c5 := Step(c4, Render);
    RunFirst(Cold, [e0, Render, Consume, e3, Render, e5], e0, [Render, Consume, e3, Render, e5]);
    RunFirst(c1, [Render, Consume, e3, Render, e5], Render, [Consume, e3, Render, e5]);
    RunFirst(c2, [Consume, e3, Render, e5], Consume, [e3, Render, e5]);
    RunFirst(c3, [e3, Render, e5], e3, [Render, e5]);
    RunFirst(c4, [Render, e5], Render, [e5]);
    RunFirst(c5, [e5], e5, []);
    assert c3.pending == {0} && c3.owner[0] == Some("a");
  }
}
