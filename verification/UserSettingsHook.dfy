/** The settings module: its variables updated by the hook, the fetch and the invalidations, each proved against `UserSettings`. */
module UserSettingsHook {
  import opened Options
  import opened LockSettings
  import opened UserSettings

  class SettingsModule {
    var cachedSettings: Option<Settings>
    var cachedForUserId: Option<string>
    var inFlight: Option<nat>
    // The fetches, by number.
    var started: nat
    var pending: set<nat>
    var answered: set<nat>
    // The auth store.
    var user: Option<string>
    var authenticated: bool
    var locked: bool
    ghost var owner: map<nat, Option<string>>
    ghost var epoch: nat
    ghost var cachedFrom: nat

    ghost function State(): Cache
      reads this
    {
      Cache(cachedSettings, cachedForUserId, inFlight, started, pending, answered, user, authenticated, locked,
            owner, epoch, cachedFrom)
    }

    constructor ()
      ensures State() == Cold
    {
      cachedSettings, cachedForUserId, inFlight := None, None, None;
      started, pending, answered := 0, {}, {};
      user, authenticated, locked := None, false, false;
      owner, epoch, cachedFrom := map[], 0, 0;
    }

    /** Reading the hook: another user's cache is discarded. */
    method RenderHook()
      modifies this
      ensures State() == Step(old(State()), Render)
    {
      if user != cachedForUserId {
        DropCache();
        cachedForUserId := user;
      }
    }

    method DropCache()
      modifies this
      ensures State() == Drop(old(State()))
    {
      cachedSettings := None;
      inFlight := None;
      epoch := started;
    }

    method FetchSettings()
      modifies this
      ensures State() == Fetch(old(State()))
    {
      if inFlight.Some? {
        return;
      }
      pending := pending + {started};
      inFlight := Some(started);
      owner := owner[started := user];
      started := started + 1;
    }

    method RefetchNow()
      modifies this
      ensures State() == Refetch(old(State()))
    {
      if !authenticated || locked {
        return;
      }
      FetchSettings();
    }

    method ColdCacheEffect()
      modifies this
      ensures State() == Step(old(State()), Consume)
    {
      if !authenticated || locked || cachedSettings.Some? {
        return;
      }
      FetchSettings();
    }

    /** The profile request of one fetch settles; a malformed number is replaced before it is cached. */
    method Receive(id: nat, reply: Reply)
      requires id in pending
      modifies this
      ensures State() == Step(old(State()), Answer(id, reply))
    {
      pending := pending - {id};
      answered := answered + {id};
      if reply.Success? {
        var autoLockTimeout := ClampMinutes(reply.profile.autoLockTimeout, AUTO_LOCK_TIMEOUT_MINUTES);
        var delay := ClampMinutes(reply.profile.lockOnHiddenDelay, LOCK_ON_HIDDEN_DELAY_MINUTES);
        cachedSettings := Some(Settings(autoLockTimeout, reply.profile.lockOnHidden, delay));
        cachedFrom := id;
      }
    }

    /** The fetch's `finally`. */
    method Finish(id: nat)
      requires id in answered
      modifies this
      ensures State() == Step(old(State()), Settle(id))
    {
      answered := answered - {id};
      if inFlight == Some(id) {
        inFlight := None;
      }
    }

    method ClearSettingsCache(consumers: nat)
      modifies this
      ensures State() == Step(old(State()), ClearCache(consumers))
    {
      DropCache();
      for i := 0 to consumers
        invariant State() == Refetches(Drop(old(State())), i)
      {
        RefetchNow();
      }
    }

    /** One `storage` event, dispatched to every mounted consumer's handler in turn. */
    method DispatchStorageEvent(consumers: nat)
      modifies this
      ensures State() == Step(old(State()), StorageEvent(consumers))
    {
      for i := 0 to consumers
        invariant State() == StorageHandlers(old(State()), i)
      {
        DropCache();
        RefetchNow();
      }
    }
  }
}
