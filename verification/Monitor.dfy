/**
 The event dispatcher, and quiescent consistency: bundles come and go, users switch, and
 every such change enqueues one event that is handled at an arbitrary later time.  Once
 no event about a bundle is left, the table says about it what the bundle manager says.
 */
module Monitor {
  import opened Wrappers
  import opened Strings
  import opened Bundles
  import opened KvStore
  import opened TableSteps
  import opened Reconcile
  import opened DistributedDataStorageModel

  datatype Event =
    | UserSwitched(userId: int)
    | PackageAdded(bundleName: string, userId: int)
    | PackageChanged(bundleName: string, userId: int)
    | PackageRemoved(bundleName: string, userId: int)
    | Undefined(action: string)

  function EventStep(f: Faults, run: Run, env: Env, event: Event, es: seq<Entry>): Run {
    match event
    case UserSwitched(userId) => UpdateStep(f, run, env, userId, es)
    case PackageAdded(bundleName, userId) => SaveStep(f, run, env, bundleName, userId)
    case PackageChanged(bundleName, userId) => SaveStep(f, run, env, bundleName, userId)
    case PackageRemoved(bundleName, userId) => DeleteStep(f, run, env, bundleName, userId)
    case Undefined(_) => run
  }

  class DistributedMonitor {
    const storage: DistributedDataStorage

    constructor (storage: DistributedDataStorage)
      ensures this.storage == storage
    {
      this.storage := storage;
    }

    method OnReceiveEvent(env: Env, event: Event) returns (ghost scan: seq<Entry>)
      requires storage.Valid()
      modifies storage, storage.store
      ensures storage.Valid()
      ensures IsScan(scan, old(storage.store.entries))
      ensures old(storage.kvStorePtr) != null ==> storage.kvStorePtr != null
      ensures storage.kvStorePtr != null ==>
                storage.store.View()
                   == EventStep(storage.store.faults, Run(old(storage.store.View()), true), env, event, scan).kv
      ensures storage.kvStorePtr == null || event.Undefined? ==> storage.store.View() == old(storage.store.View())
      ensures event.UserSwitched? && (env.bundleMgr.None? || event.userId !in env.bundleMgr.value.listing || env.localUdid.None?) ==>
                storage.store.View() == old(storage.store.View())
    {
      scan := AnyScan(storage.store.entries);
      match event
      case UserSwitched(userId) =>
        scan := storage.UpdateDistributedData(env, userId);
      case PackageAdded(bundleName, userId) =>
        storage.SaveStorageDistributeInfo(env, bundleName, userId);
      case PackageChanged(bundleName, userId) =>
        storage.SaveStorageDistributeInfo(env, bundleName, userId);
      case PackageRemoved(bundleName, userId) =>
        storage.DeleteStorageDistributeInfo(env, bundleName, userId);
      case Undefined(_) =>
    }
  }

  // ---------------------------------------------------------------------------
  // The system: bundle manager, event queue and table of one device
  // ---------------------------------------------------------------------------

  type Installed = map<string, BundleInfo>

  /** What is fixed: the identifier of the device and its fault pattern. */
  datatype World = World(u: string, faults: Faults)

  /**
   Two sets are bookkeeping for the statement only.  `settled` holds the bundles about which
   an event for the active user has been handled since the last user switch was handled;
   `missed` holds those that the reconcile of that switch passed over, because they are
   singletons or carry the update time it has collected, although the table differed.
   */
  datatype Sys = Sys(active: int, users: map<int, Installed>, queue: seq<Event>, kv: Kv, settled: set<string>, missed: set<string>)

  function InstalledIn(users: map<int, Installed>, userId: int): Installed {
    if userId in users then users[userId] else map[]
  }

  function InstalledFor(s: Sys, userId: int): Installed {
    InstalledIn(s.users, userId)
  }

  predicate IsAbout(e: Event, n: string, userId: int) {
    !e.UserSwitched? && !e.Undefined? && e.bundleName == n && e.userId == userId
  }

  ghost predicate Pending(queue: seq<Event>, n: string, userId: int) {
    exists e | e in queue :: IsAbout(e, n, userId)
  }

  ghost predicate SwitchPending(queue: seq<Event>) {
    exists e | e in queue :: e.UserSwitched?
  }

  ghost predicate IsListing(bundles: seq<BundleInfo>, installed: Installed) {
    && UniqueNames(bundles)
    && forall b :: b in bundles <==> b.name in installed && installed[b.name] == b
  }

  /** The lookups made while an event is handled see the present state of the bundle manager. */
  ghost predicate Sees(env: Env, w: World, s: Sys) {
    && env.activeUser == s.active
    && env.localUdid == Some(w.u)
    && env.bundleMgr.Some?
    && (forall userId, n ::
          && ((userId, n) in env.bundleMgr.value.single <==> n in InstalledFor(s, userId))
          && (n in InstalledFor(s, userId) ==> env.bundleMgr.value.single[(userId, n)] == InstalledFor(s, userId)[n]))
    && (forall userId | userId in env.bundleMgr.value.listing ::
          IsListing(env.bundleMgr.value.listing[userId], InstalledFor(s, userId)))
  }

  /** Start-up reconciles for the active user, as if that user had just been switched to. */
  ghost predicate Init(w: World, s: Sys) {
    && s.active != INVALID_USERID
    && s.queue == [UserSwitched(s.active)]
    && s.settled == {}
    && NamesFit(s.users)
    && OwnKeysFit(s.kv.entries, w.u)
  }

  /** A bundle is installed under its own name. */
  ghost predicate NamesFit(users: map<int, Installed>) {
    forall userId, n | n in InstalledIn(users, userId) :: InstalledIn(users, userId)[n].name == n
  }

  /** Any bundle in any state may be installed or updated; in particular an update may keep the update time. */
  ghost predicate Install(s: Sys, s': Sys, userId: int, info: BundleInfo) {
    s' == s.(users := s.users[userId := InstalledFor(s, userId)[info.name := info]],
             queue := s.queue + [if info.name in InstalledFor(s, userId)
                                 then PackageChanged(info.name, userId) else PackageAdded(info.name, userId)])
  }

  ghost predicate Uninstall(s: Sys, s': Sys, userId: int, n: string) {
    && n in InstalledFor(s, userId)
    && s' == s.(users := s.users[userId := InstalledFor(s, userId) - {n}],
                queue := s.queue + [PackageRemoved(n, userId)])
  }

  ghost predicate SwitchUser(s: Sys, s': Sys, userId: int) {
    && userId != INVALID_USERID
    && s' == s.(active := userId, queue := s.queue + [UserSwitched(userId)])
  }

  /** The store changes outside the device's own keys, as when a lookup synchronises with a peer. */
  ghost predicate Receive(w: World, s: Sys, s': Sys, kv: Kv) {
    && (forall n :: Same(kv.entries, s.kv.entries, DeviceAndNameToKey(w.u, n)))
    && s' == s.(kv := kv)
  }

  /** The oldest event is handled, and every request it leads to finally succeeds. */
  ghost predicate Handle(w: World, s: Sys, s': Sys, env: Env, es: seq<Entry>) {
    && s.queue != []
    && Sees(env, w, s)
    && IsScan(es, s.kv.entries)
    && var event := s.queue[0];
       var run := EventStep(w.faults, Run(s.kv, true), env, event, es);
    && run.ok
    && s' == s.(queue := s.queue[1..], kv := run.kv,
                settled := if event.UserSwitched? then {}
                           else if !event.Undefined? && event.userId == s.active then s.settled + {event.bundleName}
                           else s.settled,
                missed := if event.UserSwitched? then MissedNow(w, s, env, event.userId, es) else s.missed)
  }

  /** What a reconcile handled in this state is going to miss. */
  ghost function MissedNow(w: World, s: Sys, env: Env, userId: int, es: seq<Entry>): set<string> {
    if env.bundleMgr.None? || userId !in env.bundleMgr.value.listing then {}
    else
      var bundles := env.bundleMgr.value.listing[userId];
      Missed(s.kv.entries, w.u, bundles, OldInfosStep(w.faults, Run(s.kv, true), env, Names(bundles), es).0)
  }

  ghost predicate Next(w: World, s: Sys, s': Sys) {
    || (exists userId, info :: Install(s, s', userId, info))
    || (exists userId, n :: Uninstall(s, s', userId, n))
    || (exists userId :: SwitchUser(s, s', userId))
    || (exists kv :: Receive(w, s, s', kv))
    || (exists env, es :: Handle(w, s, s', env, es))
  }

  ghost predicate IsBehaviour(w: World, trace: seq<Sys>) {
    && trace != []
    && Init(w, trace[0])
    && forall i | 0 <= i < |trace| - 1 :: Next(w, trace[i], trace[i + 1])
  }

  /** The table says about a bundle what the bundle manager says. */
  ghost predicate Mirrors(w: World, s: Sys, n: string) {
    var key := DeviceAndNameToKey(w.u, n);
    var installed := InstalledFor(s, s.active);
    if n in installed then
      key in s.kv.entries && s.kv.entries[key].Json? && Publishes(s.kv.entries[key].info, installed[n])
    else key in s.kv.entries ==> s.kv.entries[key].Corrupt?
  }

  /** An event has spoken about the bundle since the last switch, or the reconcile of that switch did not miss it. */
  predicate Published(s: Sys, n: string) {
    n in s.settled || n !in s.missed
  }

  /** A bundle that is gone has no entry; one that is there has its present info exactly when it is published. */
  ghost predicate InStep(w: World, s: Sys, n: string) {
    && (Mirrors(w, s, n) <==> Published(s, n))
    && (n in InstalledFor(s, s.active) || Mirrors(w, s, n))
  }

  ghost predicate QuiescentlyConsistent(w: World, s: Sys) {
    !SwitchPending(s.queue) ==>
      forall n | !Pending(s.queue, n, s.active) :: InStep(w, s, n)
  }

  /** A removal that is the last pending word about a bundle is true. */
  ghost predicate RemovalsAreTrue(s: Sys) {
    forall i, userId, n | 0 <= i < |s.queue| && s.queue[i] == PackageRemoved(n, userId) && !Pending(s.queue[i + 1..], n, userId) ::
      n !in InstalledFor(s, userId)
  }

  /** The last pending switch is to the active user. */
  ghost predicate SwitchesAreTrue(s: Sys) {
    forall i | 0 <= i < |s.queue| && s.queue[i].UserSwitched? && !SwitchPending(s.queue[i + 1..]) ::
      s.queue[i].userId == s.active
  }

  ghost predicate Inv(w: World, s: Sys) {
    && s.active != INVALID_USERID
    && NamesFit(s.users)
    && OwnKeysFit(s.kv.entries, w.u)
    && RemovalsAreTrue(s)
    && SwitchesAreTrue(s)
    && QuiescentlyConsistent(w, s)
  }

  // ---------------------------------------------------------------------------
  // Preservation
  // ---------------------------------------------------------------------------

  lemma PendingSnoc(queue: seq<Event>, e: Event, n: string, userId: int)
    ensures Pending(queue + [e], n, userId) <==> Pending(queue, n, userId) || IsAbout(e, n, userId)
    ensures SwitchPending(queue + [e]) <==> SwitchPending(queue) || e.UserSwitched?
  {
    assert forall x :: x in queue + [e] <==> x in queue || x == e;
  }

  lemma PendingCons(queue: seq<Event>, n: string, userId: int)
    requires queue != []
    ensures Pending(queue, n, userId) <==> IsAbout(queue[0], n, userId) || Pending(queue[1..], n, userId)
    ensures SwitchPending(queue) <==> queue[0].UserSwitched? || SwitchPending(queue[1..])
  {
    assert forall x :: x in queue <==> x == queue[0] || x in queue[1..];
  }

  lemma InitInv(w: World, s: Sys)
    requires Init(w, s)
    ensures Inv(w, s)
  {
    assert s.queue[0].UserSwitched? && s.queue[0] in s.queue;
  }

  /** Enqueueing keeps both queue conditions when the new event is true and nothing else was changed behind its back. */
  lemma EnqueueKeepsTruth(s: Sys, s': Sys, e: Event)
    requires RemovalsAreTrue(s) && SwitchesAreTrue(s)
    requires s'.queue == s.queue + [e]
    requires e.PackageRemoved? ==> e.bundleName !in InstalledFor(s', e.userId)
    requires if e.UserSwitched? then e.userId == s'.active else s'.active == s.active
    requires forall userId, n | !IsAbout(e, n, userId) :: n in InstalledFor(s', userId) <==> n in InstalledFor(s, userId)
    ensures RemovalsAreTrue(s') && SwitchesAreTrue(s')
  {
    forall i, userId, n | 0 <= i < |s'.queue| && s'.queue[i] == PackageRemoved(n, userId)
                          && !Pending(s'.queue[i + 1..], n, userId)
      ensures n !in InstalledFor(s', userId)
    {
      if i < |s.queue| {
        assert s'.queue[i + 1..] == s.queue[i + 1..] + [e];
        PendingSnoc(s.queue[i + 1..], e, n, userId);
      }
    }
    forall i | 0 <= i < |s'.queue| && s'.queue[i].UserSwitched? && !SwitchPending(s'.queue[i + 1..])
      ensures s'.queue[i].userId == s'.active
    {
      if i < |s.queue| {
        assert s'.queue[i + 1..] == s.queue[i + 1..] + [e];
        PendingSnoc(s.queue[i + 1..], e, "", 0);
      }
    }
  }

  /** A change that concerns one bundle of one user and is announced by an event keeps the statement. */
  lemma AnnouncedKeepsConsistency(w: World, s: Sys, s': Sys, e: Event)
    requires QuiescentlyConsistent(w, s)
    requires s'.queue == s.queue + [e] && !e.UserSwitched? && s'.active == s.active && s'.kv == s.kv
    requires s'.settled == s.settled && s'.missed == s.missed
    requires forall n | !IsAbout(e, n, s.active) ::
               Mirrors(w, s', n) == Mirrors(w, s, n) && (n in InstalledFor(s', s.active) <==> n in InstalledFor(s, s.active))
    ensures QuiescentlyConsistent(w, s')
  {
    hide Mirrors, IsAbout, InstalledFor;
    forall n ensures !SwitchPending(s'.queue) && !Pending(s'.queue, n, s.active) ==> InStep(w, s', n) {
      PendingSnoc(s.queue, e, n, s.active);
    }
  }

  /** Two inventories agree but for one bundle of one user. */
  ghost predicate AgreeBut(users: map<int, Installed>, users': map<int, Installed>, userId: int, n: string) {
    forall v, m | v != userId || m != n ::
      && (m in InstalledIn(users', v) <==> m in InstalledIn(users, v))
      && (m in InstalledIn(users, v) ==> InstalledIn(users', v)[m] == InstalledIn(users, v)[m])
  }

  lemma InstallAgrees(users: map<int, Installed>, userId: int, info: BundleInfo)
    requires NamesFit(users)
    ensures var users' := users[userId := InstalledIn(users, userId)[info.name := info]];
            AgreeBut(users, users', userId, info.name) && NamesFit(users')
  {}

  lemma UninstallAgrees(users: map<int, Installed>, userId: int, n: string)
    requires NamesFit(users)
    ensures var users' := users[userId := InstalledIn(users, userId) - {n}];
            AgreeBut(users, users', userId, n) && NamesFit(users') && n !in InstalledIn(users', userId)
  {}

  /** A change of one bundle that is announced by a true event keeps the invariant. */
  lemma AnnouncedInv(w: World, s: Sys, s': Sys, e: Event, userId: int, n: string)
    requires Inv(w, s) && AgreeBut(s.users, s'.users, userId, n) && NamesFit(s'.users)
    requires !e.UserSwitched? && !e.Undefined? && e.bundleName == n && e.userId == userId
    requires e.PackageRemoved? ==> n !in InstalledFor(s', userId)
    requires s' == s.(users := s'.users, queue := s.queue + [e])
    ensures Inv(w, s')
  {
    EnqueueKeepsTruth(s, s', e);
    AnnouncedKeepsConsistency(w, s, s', e);
  }

  lemma InstallInv(w: World, s: Sys, s': Sys, userId: int, info: BundleInfo)
    requires Inv(w, s) && Install(s, s', userId, info)
    ensures Inv(w, s')
  {
    hide NamesFit, AgreeBut;
    InstallAgrees(s.users, userId, info);
    AnnouncedInv(w, s, s', s'.queue[|s.queue|], userId, info.name);
  }

  lemma UninstallInv(w: World, s: Sys, s': Sys, userId: int, n: string)
    requires Inv(w, s) && Uninstall(s, s', userId, n)
    ensures Inv(w, s')
  {
    hide NamesFit, AgreeBut;
    UninstallAgrees(s.users, userId, n);
    AnnouncedInv(w, s, s', PackageRemoved(n, userId), userId, n);
  }

  lemma ReceiveInv(w: World, s: Sys, s': Sys, kv: Kv)
    requires Inv(w, s) && Receive(w, s, s', kv)
    ensures Inv(w, s')
  {
    hide Pending, SwitchPending;
    forall n ensures InStep(w, s', n) == InStep(w, s, n) {
      assert Same(s'.kv.entries, s.kv.entries, DeviceAndNameToKey(w.u, n));
    }
    assert OwnKeysFit(kv.entries, w.u) by {
      forall n ensures var key := DeviceAndNameToKey(w.u, n);
                       key in kv.entries && kv.entries[key].Json? ==> kv.entries[key].info.bundleName == n
      {
        assert Same(kv.entries, s.kv.entries, DeviceAndNameToKey(w.u, n));
      }
    }
  }

  lemma SwitchInv(w: World, s: Sys, s': Sys, userId: int)
    requires Inv(w, s) && SwitchUser(s, s', userId)
    ensures Inv(w, s')
  {
    EnqueueKeepsTruth(s, s', UserSwitched(userId));
    PendingSnoc(s.queue, UserSwitched(userId), "", 0);
  }

  lemma DequeueKeepsTruth(s: Sys, s': Sys)
    requires RemovalsAreTrue(s) && SwitchesAreTrue(s) && s.queue != []
    requires s'.queue == s.queue[1..] && s'.active == s.active && s'.users == s.users
    ensures RemovalsAreTrue(s') && SwitchesAreTrue(s')
  {
    forall i, userId, n | 0 <= i < |s'.queue| && s'.queue[i] == PackageRemoved(n, userId)
                          && !Pending(s'.queue[i + 1..], n, userId)
      ensures n !in InstalledFor(s', userId)
    {
      assert s.queue[i + 1] == s'.queue[i] && s.queue[i + 1 + 1..] == s'.queue[i + 1..];
    }
    forall i | 0 <= i < |s'.queue| && s'.queue[i].UserSwitched? && !SwitchPending(s'.queue[i + 1..])
      ensures s'.queue[i].userId == s'.active
    {
      assert s.queue[i + 1] == s'.queue[i] && s.queue[i + 1 + 1..] == s'.queue[i + 1..];
    }
  }

  /** What handling an event about one bundle does to the table: the bundle's own key, set or cleared. */
  lemma PackageEffect(w: World, s: Sys, env: Env, es: seq<Entry>, n: string)
    requires s.active != INVALID_USERID && Sees(env, w, s) && s.queue != []
    requires n in InstalledFor(s, s.active) ==> InstalledFor(s, s.active)[n].name == n
    requires !s.queue[0].UserSwitched? && !s.queue[0].Undefined? && s.queue[0].bundleName == n
    requires EventStep(w.faults, Run(s.kv, true), env, s.queue[0], es).ok
    ensures var end := EventStep(w.faults, Run(s.kv, true), env, s.queue[0], es).kv.entries;
            var installed := InstalledFor(s, s.active);
            var key := DeviceAndNameToKey(w.u, n);
            if s.queue[0].userId != s.active then end == s.kv.entries
            else if !s.queue[0].PackageRemoved? && n in installed then
              && key in end && end[key].Json? && Publishes(end[key].info, installed[n])
              && end == s.kv.entries[key := end[key]]
            else end == s.kv.entries - {key}
  {
    var key := DeviceAndNameToKey(w.u, n);
    var installed := InstalledFor(s, s.active);
    if n in installed {
      PublishesExactly(Convert(installed[n]), installed[n]);
    }
    hide Publishes;
    RetryHasSingleEffect(w.faults, s.kv, Delete(key));
    if n in installed {
      RetryHasSingleEffect(w.faults, s.kv, Put(DeviceAndNameToKey(w.u, Convert(installed[n]).bundleName), Json(Convert(installed[n]))));
      assert (s.active, n) in env.bundleMgr.value.single;
    }
  }

  /**
   A removal event under any faults: one delete of the bundle's key, with one retry after a
   loss, exactly for the active user; otherwise nothing is sent.
   */
  lemma RemovalUnderFaults(f: Faults, run: Run, env: Env, es: seq<Entry>, n: string, userId: int)
    ensures var run' := EventStep(f, run, env, PackageRemoved(n, userId), es);
            if userId != env.activeUser then run' == run
            else if env.localUdid.None? then run' == Run(run.kv, false)
            else
              && run'.ok == (run.ok && FinallyDone(f, |run.kv.log|))
              && WrittenWithRetry(f, run.kv, Delete(DeviceAndNameToKey(env.localUdid.value, n)), FinallyDone(f, |run.kv.log|), run'.kv)
  {
    DeleteMeaning(f, run, env, n, userId);
  }

  /**
   An added or changed event under any faults: for the active user, or the start user if
   there is none, what the bundle manager says about the bundle is put under its key, field
   by field, with one retry after a loss; a bundle it does not know is withdrawn likewise if
   there is an active user; otherwise nothing is sent.
   */
  lemma SaveUnderFaults(f: Faults, run: Run, env: Env, event: Event, es: seq<Entry>, n: string, userId: int)
    requires event == PackageAdded(n, userId) || event == PackageChanged(n, userId)
    ensures var run' := EventStep(f, run, env, event, es);
            var ok := FinallyDone(f, |run.kv.log|);
            if userId != (if env.activeUser == INVALID_USERID then START_USERID else env.activeUser) then run' == run
            else if env.bundleMgr.None? then run' == Run(run.kv, false)
            else if (userId, n) in env.bundleMgr.value.single then
              if env.localUdid.None? then run' == Run(run.kv, false)
              else
                && run'.ok == (run.ok && ok)
                && var b := env.bundleMgr.value.single[(userId, n)];
                   exists info :: Publishes(info, b)
                     && WrittenWithRetry(f, run.kv, Put(DeviceAndNameToKey(env.localUdid.value, b.name), Json(info)), ok, run'.kv)
            else if env.activeUser == INVALID_USERID then run' == run
            else if env.localUdid.None? then run' == Run(run.kv, false)
            else
              && run'.ok == (run.ok && ok)
              && WrittenWithRetry(f, run.kv, Delete(DeviceAndNameToKey(env.localUdid.value, n)), ok, run'.kv)
  {
    hide Publishes, WrittenWithRetry, SaveStep;
    SaveMeaning(f, run, env, n, userId);
  }

  /** A user switch reconciles for the new user, and sends nothing if a lookup fails; an unknown event sends nothing. */
  lemma SwitchUnderFaults(f: Faults, run: Run, env: Env, es: seq<Entry>, userId: int, action: string)
    ensures EventStep(f, run, env, Undefined(action), es) == run
    ensures EventStep(f, run, env, UserSwitched(userId), es) == UpdateStep(f, run, env, userId, es)
    ensures env.bundleMgr.None? || userId !in env.bundleMgr.value.listing || env.localUdid.None? ==>
              EventStep(f, run, env, UserSwitched(userId), es).kv == run.kv
  {
    if env.bundleMgr.None? || userId !in env.bundleMgr.value.listing || env.localUdid.None? {
      FailedLookupSendsNothing(f, run, env, userId, es);
    }
  }

  /**
   A save event about a bundle that is gone withdraws its entry exactly when there is an
   active user: the save falls back to the start user, the removal it delegates to does not.
   */
  lemma GoneBundleIsWithdrawnIff(f: Faults, run: Run, env: Env, u: string, n: string)
    requires env.localUdid == Some(u) && env.bundleMgr.Some?
    requires (SavingUser(env), n) !in env.bundleMgr.value.single
    requires SaveStep(f, run, env, n, SavingUser(env)).ok
    ensures var end := SaveStep(f, run, env, n, SavingUser(env)).kv.entries;
            var key := DeviceAndNameToKey(u, n);
            && (key !in end <==> env.activeUser != INVALID_USERID || key !in run.kv.entries)
            && forall k | k != key :: Same(end, run.kv.entries, k)
  {
    RetryHasSingleEffect(f, run.kv, Delete(DeviceAndNameToKey(u, n)));
  }

  /**
   A bundle is installed, uninstalled, and both events are handled with success: its entry
   is gone if and only if there was an active user.  Without one the entry outlives the bundle.
   */
  lemma InstallThenRemoveIsCleanIff(f: Faults, run: Run, before: Env, after: Env, u: string, info: BundleInfo)
    requires before.localUdid == Some(u) && before.bundleMgr.Some? && after == before.(bundleMgr := after.bundleMgr)
    requires (SavingUser(before), info.name) in before.bundleMgr.value.single
    requires before.bundleMgr.value.single[(SavingUser(before), info.name)] == info
    requires var mid := EventStep(f, run, before, PackageAdded(info.name, SavingUser(before)), []);
             mid.ok && EventStep(f, mid, after, PackageRemoved(info.name, SavingUser(before)), []).ok
    ensures var mid := EventStep(f, run, before, PackageAdded(info.name, SavingUser(before)), []);
            var end := EventStep(f, mid, after, PackageRemoved(info.name, SavingUser(before)), []).kv.entries;
            var key := DeviceAndNameToKey(u, info.name);
            && (key !in end <==> before.activeUser != INVALID_USERID)
            && (before.activeUser == INVALID_USERID ==> end[key].Json? && Publishes(end[key].info, info))
  {
    PublishesExactly(Convert(info), info);
    hide Publishes;
    var key := DeviceAndNameToKey(u, info.name);
    var mid := EventStep(f, run, before, PackageAdded(info.name, SavingUser(before)), []);
    RetryHasSingleEffect(f, run.kv, Put(key, Json(Convert(info))));
    RetryHasSingleEffect(f, mid.kv, Delete(key));
  }

  function Plain(name: string, appEnabled: bool, updateTime: int): BundleInfo {
    BundleInfo(name, 1, 1, "1.0", 1, 1, "app", [], appEnabled, 7, updateTime, false)
  }

  /** A failing case: with no active user and no fault, a bundle "b" comes and goes and its entry stays. */
  lemma EntryOutlivesBundle()
    ensures var b := Plain("b", true, 1);
            var before := Env(INVALID_USERID, Some("u"), Some(BundleMgr(map[(START_USERID, "b") := b], map[])));
            var after := Env(INVALID_USERID, Some("u"), Some(BundleMgr(map[], map[])));
            var f: Faults := _ => Done;
            var mid := EventStep(f, Run(Kv(map[], []), true), before, PackageAdded("b", START_USERID), []);
            var end := EventStep(f, mid, after, PackageRemoved("b", START_USERID), []);
            end.ok && end.kv.entries == map["u_b" := Json(Convert(b))]
  {
    assert DeviceAndNameToKey("u", "b") == "u_b";
  }

  /** A change of one own key that fits, or its deletion, keeps the own keys fitting. */
  lemma PackageEffectFits(entries: Table, entries': Table, u: string, n: string)
    requires OwnKeysFit(entries, u)
    requires var key := DeviceAndNameToKey(u, n);
             && (forall k | k != key :: Same(entries', entries, k))
             && (key in entries' && entries'[key].Json? ==> Same(entries', entries, key) || entries'[key].info.bundleName == n)
    ensures OwnKeysFit(entries', u)
  {
    forall m ensures var k := DeviceAndNameToKey(u, m); k in entries' && entries'[k].Json? ==> entries'[k].info.bundleName == m {
      KeyInjective(u, m, u, n);
      assert m != n ==> Same(entries', entries, DeviceAndNameToKey(u, m));
    }
  }

  /** A change of one own key, or of none, says nothing about another bundle. */
  lemma OtherBundleUnmoved(w: World, s: Sys, s': Sys, n: string, m: string)
    requires s'.active == s.active && s'.users == s.users
    requires s'.kv.entries == s.kv.entries || (m != n && forall k | k != DeviceAndNameToKey(w.u, n) :: Same(s'.kv.entries, s.kv.entries, k))
    ensures Mirrors(w, s', m) == Mirrors(w, s, m)
  {
    KeyInjective(w.u, m, w.u, n);
    assert m != n && s'.kv.entries != s.kv.entries ==> Same(s'.kv.entries, s.kv.entries, DeviceAndNameToKey(w.u, m));
  }

  lemma HandlePackageInv(w: World, s: Sys, s': Sys, env: Env, es: seq<Entry>)
    requires Inv(w, s) && Handle(w, s, s', env, es)
    requires !s.queue[0].UserSwitched? && !s.queue[0].Undefined?
    ensures Inv(w, s')
  {
    var e := s.queue[0];
    var n := e.bundleName;
    var key := DeviceAndNameToKey(w.u, n);
    var installed := InstalledFor(s, s.active);
    DequeueKeepsTruth(s, s');
    assert n in installed ==> installed[n].name == n;
    PackageEffect(w, s, env, es, n);
    hide EventStep, Publishes, IsGrouping;
    PackageEffectFits(s.kv.entries, s'.kv.entries, w.u, n);
    forall m ensures !SwitchPending(s'.queue) && !Pending(s'.queue, m, s'.active) ==> InStep(w, s', m) {
      PendingCons(s.queue, m, s.active);
      if m != n || e.userId != s.active {
        OtherBundleUnmoved(w, s, s', n, m);
      } else if e.PackageRemoved? && !Pending(s'.queue, n, s.active) {
        assert s.queue[0] == PackageRemoved(n, s.active) && s.queue[0 + 1..] == s'.queue;
      }
    }
  }

  lemma HandleSwitchInv(w: World, s: Sys, s': Sys, env: Env, es: seq<Entry>)
    requires Inv(w, s) && Handle(w, s, s', env, es)
    requires s.queue[0].UserSwitched?
    ensures Inv(w, s')
  {
    var userId := s.queue[0].userId;
    var bundles := env.bundleMgr.value.listing[userId];
    var installed := InstalledFor(s, userId);
    DequeueKeepsTruth(s, s');
    ReconcileMisses(w.faults, Run(s.kv, true), env, userId, w.u, bundles, es);
    if !SwitchPending(s'.queue) {
      assert s.queue[0 + 1..] == s'.queue;
      assert userId == s.active;
      forall n ensures InStep(w, s', n) {
        if n in installed {
          assert installed[n].name == n && installed[n] in bundles;
        } else if n in Names(bundles) {
          NameIsListed(bundles, n);
        }
      }
    }
  }

  /** A reconcile that finds the only listed bundle filed with its update time just scans. */
  lemma ReconcilePassesOver(f: Faults, env: Env, userId: int, u: string, was: BundleInfo, b: BundleInfo)
    requires Looks(env, userId, u, [b]) && f(0).Done? && was.name == b.name && was.updateTime == b.updateTime
    ensures var e := Entry(DeviceAndNameToKey(u, b.name), Json(Convert(was)));
            && IsScan([e], map[e.key := e.value]) && OwnKeysFit(map[e.key := e.value], u)
            && UpdateStep(f, Run(Kv(map[e.key := e.value], []), true), env, userId, [e])
               == Run(Kv(map[e.key := e.value], [GetEntries]), true)
  {
    var e := Entry(DeviceAndNameToKey(u, b.name), Json(Convert(was)));
    assert [e][0] == e;
    LocalWFFits(map[e.key := e.value], u);
    ListedName([b], b);
    ReconcileOnlyReadsIff(f, Run(Kv(map[e.key := e.value], []), true), env, userId, u, [b], [e]);
  }

  /** The whole of what is known about one bundle of one user. */
  function OnlyBundle(userId: int, b: BundleInfo): BundleMgr {
    BundleMgr(map[(userId, b.name) := b], map[userId := [b]])
  }

  lemma OnlyBundleSees(w: World, s: Sys, userId: int, b: BundleInfo)
    requires s.active == userId && s.users == map[userId := map[b.name := b]]
    ensures Sees(Env(userId, Some(w.u), Some(OnlyBundle(userId, b))), w, s)
  {
    assert b in [b];
  }

  /**
   The other failing case, a whole behaviour: an application was disabled while the service
   was down, its update time stayed, and the reconcile at start-up passes over it.
   */
  lemma UpdateStaysHidden() returns (w: World, trace: seq<Sys>)
    ensures IsBehaviour(w, trace)
    ensures var s := trace[|trace| - 1];
            s.queue == [] && "b" in InstalledFor(s, s.active) && !InstalledFor(s, s.active)["b"].singleton && !Mirrors(w, s, "b")
  {
    w := World("u", _ => Done);
    var was, b := Plain("b", true, 1), Plain("b", false, 1);
    var e := Entry(DeviceAndNameToKey("u", "b"), Json(Convert(was)));
    var kv := Kv(map[e.key := e.value], []);
    var s := Sys(START_USERID, map[START_USERID := map["b" := b]], [UserSwitched(START_USERID)], kv, {}, {});
    var env := Env(START_USERID, Some("u"), Some(OnlyBundle(START_USERID, b)));
    OnlyBundleSees(w, s, START_USERID, b);
    ReconcilePassesOver(w.faults, env, START_USERID, "u", was, b);
    var s' := s.(queue := [], kv := kv.(log := [GetEntries]), missed := MissedNow(w, s, env, START_USERID, [e]));
    assert Init(w, s) by {
      hide OwnKeysFit;
    }
    assert Handle(w, s, s', env, [e]) by {
      hide UpdateStep, Sees, IsScan, MissedNow;
      assert s.queue[1..] == [];
    }
    assert Next(w, s, s');
    trace := [s, s'];
  }

  lemma NextInv(w: World, s: Sys, s': Sys)
    requires Inv(w, s) && Next(w, s, s')
    ensures Inv(w, s')
  {
    if userId, info :| Install(s, s', userId, info) {
      InstallInv(w, s, s', userId, info);
    } else if userId, n :| Uninstall(s, s', userId, n) {
      UninstallInv(w, s, s', userId, n);
    } else if userId :| SwitchUser(s, s', userId) {
      SwitchInv(w, s, s', userId);
    } else if kv :| Receive(w, s, s', kv) {
      ReceiveInv(w, s, s', kv);
    } else {
      var env, es :| Handle(w, s, s', env, es);
      if s.queue[0].UserSwitched? {
        HandleSwitchInv(w, s, s', env, es);
      } else if s.queue[0].Undefined? {
        DequeueKeepsTruth(s, s');
        forall m ensures !SwitchPending(s'.queue) && !Pending(s'.queue, m, s'.active) ==> InStep(w, s', m) {
          PendingCons(s.queue, m, s.active);
        }
      } else {
        HandlePackageInv(w, s, s', env, es);
      }
    }
  }

  lemma {:induction false} BehaviourInv(w: World, trace: seq<Sys>, i: nat)
    requires IsBehaviour(w, trace) && i < |trace|
    ensures Inv(w, trace[i])
  {
    if i == 0 {
      InitInv(w, trace[0]);
    } else {
      BehaviourInv(w, trace, i - 1);
      NextInv(w, trace[i - 1], trace[i - 1 + 1]);
    }
  }

  /**
   Quiescent consistency, in every reachable state and exactly: with no user switch pending,
   a bundle about which no event of the active user is pending is mirrored by the table if
   and only if an event has spoken about it since the last switch or the reconcile of that
   switch did not miss it; a bundle that is not installed is always mirrored.
   */
  lemma EveryReachableStateIsConsistent(w: World, trace: seq<Sys>, i: nat)
    requires IsBehaviour(w, trace) && i < |trace|
    ensures QuiescentlyConsistent(w, trace[i])
    ensures trace[i].queue == [] ==> forall n :: InStep(w, trace[i], n)
  {
    BehaviourInv(w, trace, i);
  }
}
