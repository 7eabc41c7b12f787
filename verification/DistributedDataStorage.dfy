/**
 `DistributedDataStorage`: the object that owns the connection to the store and changes
 the table in place.  Each method is proved to do what the step function of the same
 name in `TableSteps` says, or nothing when there is no connection.
 */
module DistributedDataStorageModel {
  import opened Wrappers
  import opened Strings
  import opened Bundles
  import opened KvStore
  import opened SyncCallback
  import opened TableSteps

  const MAX_TIMES := 600

  /** What an attempt to open the store yields: a store, a claimed success without one, or an error. */
  datatype OpenOutcome = Opened | OpenedNothing | OpenFailed(code: int)

  class DistributedDataStorage {
    const store: SingleKvStore             // the store behind the connection
    const opens: nat -> OpenOutcome        // what the n-th attempt to open it yields
    var attempts: nat
    var kvStorePtr: SingleKvStore?

    ghost predicate Valid()
      reads this
    {
      kvStorePtr == null || kvStorePtr == store
    }

    constructor (store: SingleKvStore, opens: nat -> OpenOutcome)
      ensures Valid() && this.store == store && this.opens == opens && attempts == 0 && kvStorePtr == null
    {
      this.store, this.opens := store, opens;
      attempts := 0;
      kvStorePtr := null;
    }

    method GetKvStore() returns (status: Status)
      requires Valid()
      modifies this
      ensures Valid() && attempts == old(attempts) + 1
      ensures kvStorePtr == if opens(old(attempts)).Opened? then store else null
      ensures status == SUCCESS <==> !opens(old(attempts)).OpenFailed?
    {
      var outcome := opens(attempts);
      attempts := attempts + 1;
      match outcome
      case Opened =>
        kvStorePtr := store;
        status := SUCCESS;
      case OpenedNothing =>
        kvStorePtr := null;
        status := SUCCESS;
      case OpenFailed(code) =>
        kvStorePtr := null;
        status := OTHER(code);
    }

    /** Keeps an existing connection; otherwise tries up to 600 times and stops at the first success. */
    method CheckKvStore() returns (ok: bool)
      requires Valid()
      modifies this
      ensures Valid() && (ok <==> kvStorePtr != null)
      ensures old(kvStorePtr) == null ==> attempts <= old(attempts) + 600 && (!ok ==> attempts == old(attempts) + 600)
      ensures old(kvStorePtr) != null ==> ok && attempts == old(attempts)
      ensures old(kvStorePtr) == null && ok ==>
                && old(attempts) < attempts <= old(attempts) + MAX_TIMES
                && opens(attempts - 1).Opened?
                && forall i | old(attempts) <= i < attempts - 1 :: !opens(i).Opened?
      ensures !ok ==>
                && attempts == old(attempts) + MAX_TIMES
                && forall i | old(attempts) <= i < attempts :: !opens(i).Opened?
    {
      if kvStorePtr != null {
        return true;
      }
      var tryTimes := MAX_TIMES;
      while tryTimes > 0
        invariant 0 <= tryTimes <= MAX_TIMES
        invariant kvStorePtr == null
        invariant attempts == old(attempts) + (MAX_TIMES - tryTimes)
        invariant forall i | old(attempts) <= i < attempts :: !opens(i).Opened?
      {
        var status := GetKvStore();
        if status == SUCCESS && kvStorePtr != null {
          return true;
        }
        tryTimes := tryTimes - 1;
      }
      return kvStorePtr != null;
    }

    method InnerSaveStorageDistributeInfo(env: Env, info: DistributedBundleInfo) returns (ok: bool)
      requires Valid()
      modifies store
      ensures kvStorePtr == null ==> !ok && store.View() == old(store.View())
      ensures kvStorePtr != null ==>
                Run(store.View(), ok) == PublishStep(store.faults, Run(old(store.View()), true), env.localUdid, info)
      ensures env.localUdid.None? ==> !ok && store.View() == old(store.View())
      ensures kvStorePtr != null && env.localUdid.Some? ==>
                var key := DeviceAndNameToKey(env.localUdid.value, info.bundleName);
                && WrittenWithRetry(store.faults, old(store.View()), Put(key, Json(info)), ok, store.View())
                && (ok ==> store.entries == old(store.entries)[key := Json(info)])
    {
      PublishMeaning(store.faults, Run(store.View(), true), env.localUdid, info);
      if env.localUdid.None? {
        return false;
      }
      var key := DeviceAndNameToKey(env.localUdid.value, info.bundleName);
      if kvStorePtr == null {
        return false;
      }
      var status := kvStorePtr.Send(Put(key, Json(info)));
      if status == IPC_ERROR {
        status := kvStorePtr.Send(Put(key, Json(info)));
      }
      return status == SUCCESS;
    }

    method DeleteStorageDistributeInfo(env: Env, bundleName: string, userId: int)
      requires Valid()
      modifies this, store
      ensures Valid() && (old(kvStorePtr) != null ==> kvStorePtr != null)
      ensures kvStorePtr == null ==> store.View() == old(store.View())
      ensures kvStorePtr != null ==>
                store.View() == DeleteStep(store.faults, Run(old(store.View()), true), env, bundleName, userId).kv
      ensures userId != env.activeUser || env.localUdid.None? ==> store.View() == old(store.View())
      ensures kvStorePtr != null && userId == env.activeUser && env.localUdid.Some? ==>
                var key := DeviceAndNameToKey(env.localUdid.value, bundleName);
                var ok := FinallyDone(store.faults, |old(store.log)|);
                && WrittenWithRetry(store.faults, old(store.View()), Delete(key), ok, store.View())
                && (ok ==> store.entries == old(store.entries) - {key})
    {
      DeleteMeaning(store.faults, Run(store.View(), true), env, bundleName, userId);
      var connected := CheckKvStore();
      if !connected || userId != env.activeUser || env.localUdid.None? {
        return;
      }
      var key := DeviceAndNameToKey(env.localUdid.value, bundleName);
      var status := kvStorePtr.Send(Delete(key));
      if status == IPC_ERROR {
        status := kvStorePtr.Send(Delete(key));
      }
    }

    method SaveStorageDistributeInfo(env: Env, bundleName: string, userId: int)
      requires Valid()
      modifies this, store
      ensures Valid() && (old(kvStorePtr) != null ==> kvStorePtr != null)
      ensures kvStorePtr == null ==> store.View() == old(store.View())
      ensures kvStorePtr != null ==>
                store.View() == SaveStep(store.faults, Run(old(store.View()), true), env, bundleName, userId).kv
      ensures userId != SavingUser(env) || env.bundleMgr.None? || env.localUdid.None? ==> store.View() == old(store.View())
      ensures kvStorePtr != null && userId == SavingUser(env) && env.bundleMgr.Some? && env.localUdid.Some? ==>
                var known := env.bundleMgr.value.single;
                var ok := FinallyDone(store.faults, |old(store.log)|);
                if (userId, bundleName) in known then
                  exists info :: Publishes(info, known[(userId, bundleName)])
                    && WrittenWithRetry(store.faults, old(store.View()),
                                        Put(DeviceAndNameToKey(env.localUdid.value, known[(userId, bundleName)].name), Json(info)),
                                        ok, store.View())
                else if env.activeUser == INVALID_USERID then store.View() == old(store.View())
                else
                  WrittenWithRetry(store.faults, old(store.View()),
                                   Delete(DeviceAndNameToKey(env.localUdid.value, bundleName)), ok, store.View())
    {
      SaveMeaning(store.faults, Run(store.View(), true), env, bundleName, userId);
      hide WrittenWithRetry, Publishes;
      var connected := CheckKvStore();
      if !connected {
        return;
      }
      var currentUserId := env.activeUser;
      if currentUserId == INVALID_USERID {
        currentUserId := START_USERID;
      }
      if userId != currentUserId || env.bundleMgr.None? {
        return;
      }
      if (currentUserId, bundleName) !in env.bundleMgr.value.single {
        DeleteStorageDistributeInfo(env, bundleName, currentUserId);
        return;
      }
      var info := ConvertToDistributedBundleInfo(env.bundleMgr.value.single[(currentUserId, bundleName)]);
      var ok := InnerSaveStorageDistributeInfo(env, info);
    }

    /** The first phase of a reconcile: collect the infos of listed bundles, delete the others. */
    method GetAllOldDistributionBundleInfo(env: Env, bundleNames: seq<string>)
      returns (known: OldInfos, ghost scan: seq<Entry>)
      requires Valid()
      modifies store
      ensures IsScan(scan, old(store.entries))
      ensures kvStorePtr == null ==> known == map[] && store.View() == old(store.View())
      ensures kvStorePtr != null ==>
                var (k, run) := OldInfosStep(store.faults, Run(old(store.View()), true), env, bundleNames, scan);
                known == k && store.View() == run.kv
    {
      known := map[];
      if kvStorePtr == null || env.localUdid.None? {
        scan := AnyScan(store.entries);
        return;
      }
      var udid := env.localUdid.value;
      var status, allEntries := kvStorePtr.Scan();
      scan := allEntries;
      if status != SUCCESS {
        return;
      }
      ghost var run := Run(store.View(), true);
      ghost var start := run;
      for i := 0 to |allEntries|
        invariant run.kv == store.View()
        invariant ScanFrom(store.faults, start, allEntries, udid, bundleNames, map[])
               == ScanFrom(store.faults, run, allEntries[i..], udid, bundleNames, known)
      {
        var entry := allEntries[i];
        assert allEntries[i..][1..] == allEntries[i + 1..];
        if !Contains(entry.key, udid) {
          continue;
        }
        if entry.value.Json? {
          if entry.value.info.bundleName !in bundleNames {
            run := Once(store.faults, run, Delete(entry.key));
            var answer := kvStorePtr.Send(Delete(entry.key));
            continue;
          }
          known := Emplace(known, entry.value.info);
        }
      }
    }

    method UpdateDistributedData(env: Env, userId: int) returns (ghost scan: seq<Entry>)
      requires Valid()
      modifies store
      ensures IsScan(scan, old(store.entries))
      ensures kvStorePtr == null ==> store.View() == old(store.View())
      ensures kvStorePtr != null ==>
                store.View() == UpdateStep(store.faults, Run(old(store.View()), true), env, userId, scan).kv
      ensures env.bundleMgr.None? || userId !in env.bundleMgr.value.listing || env.localUdid.None? ==>
                store.View() == old(store.View())
    {
      if env.bundleMgr.None? || userId !in env.bundleMgr.value.listing {
        scan := AnyScan(store.entries);
        return;
      }
      var bundleInfos := env.bundleMgr.value.listing[userId];
      var bundleNames := [];
      for i := 0 to |bundleInfos|
        invariant bundleNames == Names(bundleInfos)[..i]
      {
        bundleNames := bundleNames + [bundleInfos[i].name];
      }
      assert bundleNames == Names(bundleInfos);
      ghost var before := store.View();
      var known;
      known, scan := GetAllOldDistributionBundleInfo(env, bundleNames);
      ghost var f := store.faults;
      ghost var start := if kvStorePtr == null then Run(before, false)
                         else OldInfosStep(f, Run(before, true), env, bundleNames, scan).1;
      ghost var run := start;
      for i := 0 to |bundleInfos|
        invariant kvStorePtr == null ==> store.View() == before
        invariant kvStorePtr != null ==> run.kv == store.View()
        invariant PutFrom(f, start, bundleInfos, env.localUdid, known)
               == PutFrom(f, run, bundleInfos[i..], env.localUdid, known)
      {
        var bundleInfo := bundleInfos[i];
        assert bundleInfos[i..][1..] == bundleInfos[i + 1..];
        if bundleInfo.singleton {
          continue;
        }
        if bundleInfo.name in known {
          if known[bundleInfo.name].updateTime == bundleInfo.updateTime {
            continue;
          }
        }
        if kvStorePtr != null {
          PublishIgnoresFlag(f, run, Run(store.View(), true), env.localUdid, Convert(bundleInfo));
        }
        run := PublishStep(f, run, env.localUdid, Convert(bundleInfo));
        var info := ConvertToDistributedBundleInfo(bundleInfo);
        var saved := InnerSaveStorageDistributeInfo(env, info);
      }
      if env.localUdid.None? {
        FailedLookupSendsNothing(f, Run(before, true), env, userId, scan);
      }
    }

    method SyncAndCompleted(env: SyncEnv, udid: string) returns (ok: bool)
      requires Valid()
      modifies store
      ensures kvStorePtr == null ==> !ok && store.View() == old(store.View())
      ensures kvStorePtr != null ==>
                && ok == SyncSucceeds(env, udid)
                && store.View() == Synced(old(store.View()), env, udid)
      ensures kvStorePtr != null ==>
                (ok <==>
                  && env.localUdid.Some? && env.localUdid.value != udid && udid != ""
                  && env.peerUuid.Some? && env.start == SUCCESS
                  && exists i | 0 <= i < |env.arrived| ::
                       && env.peerUuid.value in env.arrived[i] && env.arrived[i][env.peerUuid.value] == SUCCESS
                       && forall j | 0 <= j < i :: env.peerUuid.value !in env.arrived[j])
      ensures kvStorePtr != null ==>
                && store.log == old(store.log)
                && store.entries == if env.localUdid.Some? && env.localUdid.value != udid && udid != ""
                                       && env.peerUuid.Some? && env.start == SUCCESS
                                    then ReplaceUnder(old(store.entries), udid, env.incoming) else old(store.entries)
    {
      SyncSucceedsIff(env, udid);
      if env.localUdid.None? || udid == env.localUdid.value || env.peerUuid.None? || udid == "" {
        return false;
      }
      if kvStorePtr == null || env.start != SUCCESS {
        return false;
      }
      kvStorePtr.ReplacePrefix(udid, env.incoming);
      var statusResult := AwaitSync(env.peerUuid.value, env.arrived);
      return statusResult == SUCCESS;
    }

    /** `None` stands for the result `false`, after which the caller's record is not to be used. */
    method GetStorageDistributeInfo(env: SyncEnv, bundleName: string) returns (info: Option<DistributedBundleInfo>)
      requires Valid()
      modifies this, store
      ensures Valid()
      ensures kvStorePtr == null ==> info == None && store.View() == old(store.View())
      ensures kvStorePtr != null ==>
                (info, store.View()) == LookupStep(store.faults, old(store.View()), env, bundleName)
    {
      var connected := CheckKvStore();
      if !connected || env.peerUdid.None? {
        return None;
      }
      var udid := env.peerUdid.value;
      var completed := SyncAndCompleted(env, udid);
      if !completed {
        return None;
      }
      var key := DeviceAndNameToKey(udid, bundleName);
      var status := kvStorePtr.Send(Get(key));
      if status == IPC_ERROR {
        status := kvStorePtr.Send(Get(key));
      }
      if status == SUCCESS && key in kvStorePtr.entries {
        var value := kvStorePtr.entries[key];
        if value.Corrupt? {
          var answer := kvStorePtr.Send(Delete(key));
          return None;
        }
        return Some(value.info);
      }
      return None;
    }

    method GetDistributedBundleName(env: SyncEnv, accessTokenId: int)
      returns (result: NameResult, ghost scan: seq<Entry>)
      requires Valid()
      modifies this, store
      ensures Valid()
      ensures IsScan(scan, store.entries)
      ensures kvStorePtr == null ==> result == INTERNAL_ERROR && store.View() == old(store.View())
      ensures kvStorePtr != null ==>
                (result, store.View()) == BundleNameStep(store.faults, old(store.View()), env, accessTokenId, scan)
    {
      var connected := CheckKvStore();
      scan := AnyScan(store.entries);
      if !connected {
        return INTERNAL_ERROR, scan;
      }
      if env.peerUdid.None? {
        return NO_UDID, scan;
      }
      var udid := env.peerUdid.value;
      if udid == "" {
        return INTERNAL_ERROR, scan;
      }
      var completed := SyncAndCompleted(env, udid);
      scan := AnyScan(store.entries);
      if !completed {
        return INTERNAL_ERROR, scan;
      }
      var status, allEntries := kvStorePtr.Scan();
      scan := allEntries;
      if status != SUCCESS {
        return INTERNAL_ERROR, scan;
      }
      for i := 0 to |allEntries|
        invariant NameForToken(allEntries, udid, accessTokenId)
               == NameForToken(allEntries[i..], udid, accessTokenId)
      {
        assert allEntries[i..][1..] == allEntries[i + 1..];
        if CarriesToken(allEntries[i], udid, accessTokenId) {
          return NO_ERROR(allEntries[i].value.info.bundleName), scan;
        }
      }
      return BUNDLE_NOT_EXIST, scan;
    }
  }

  lemma PublishIgnoresFlag(f: Faults, run: Run, run': Run, udid: Option<string>, info: DistributedBundleInfo)
    requires run.kv == run'.kv
    ensures PublishStep(f, run, udid, info).kv == PublishStep(f, run', udid, info).kv
  {}

  lemma ScanCons(rest: seq<Entry>, entries: Table, k: string)
    requires k in entries && IsScan(rest, entries - {k})
    ensures IsScan([Entry(k, entries[k])] + rest, entries)
  {
    var es := [Entry(k, entries[k])] + rest;
    assert forall i | 0 < i < |es| :: es[i] == rest[i - 1] && rest[i - 1] in rest;
    forall k' | k' in entries ensures Entry(k', entries[k']) in es {
      if k' == k {
        assert es[0] in es;
      } else {
        assert k' in entries - {k};
        var i :| 0 <= i < |rest| && rest[i] == Entry(k', entries[k']);
        assert es[i + 1] == rest[i];
      }
    }
  }

  /** Every table has a scan. */
  ghost function AnyScan(entries: Table): (es: seq<Entry>)
    ensures IsScan(es, entries)
    decreases entries.Keys
  {
    if entries == map[] then []
    else
      var k :| k in entries;
      ScanCons(AnyScan(entries - {k}), entries, k);
      [Entry(k, entries[k])] + AnyScan(entries - {k})
  }
}
