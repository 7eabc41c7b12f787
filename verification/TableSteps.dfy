/**
 The writing side of the distributed table as functions on the store: publishing and
 withdrawing one bundle, and the incremental reconcile.  The methods of
 `DistributedDataStorage` are proved to compute these functions; what the functions
 achieve is proved in `Reconcile`, `Monitor` and `Replicas`.

 A `Run` carries, beside the store, whether every request so far was finally answered
 with SUCCESS and every lookup the operation depends on succeeded.
 */
module TableSteps {
  import opened Wrappers
  import opened Strings
  import opened Bundles
  import opened KvStore
  import opened SyncCallback

  const INVALID_USERID := -1
  const START_USERID := 100

  /** What the bundle manager answers: single queries by (user, name), listings by user. */
  datatype BundleMgr = BundleMgr(single: map<(int, string), BundleInfo>, listing: map<int, seq<BundleInfo>>)

  /** The answers of the other services during one call; `None` stands for a failed lookup. */
  datatype Env = Env(activeUser: int, localUdid: Option<string>, bundleMgr: Option<BundleMgr>)

  datatype Run = Run(kv: Kv, ok: bool)

  function Once(f: Faults, run: Run, r: Request): Run {
    var (status, kv) := Issue(f, run.kv, r);
    Run(kv, run.ok && status == SUCCESS)
  }

  function Twice(f: Faults, run: Run, r: Request): Run {
    var (status, kv) := IssueTwice(f, run.kv, r);
    Run(kv, run.ok && status == SUCCESS)
  }

  // ---------------------------------------------------------------------------
  // Single bundles
  // ---------------------------------------------------------------------------

  function PublishStep(f: Faults, run: Run, udid: Option<string>, info: DistributedBundleInfo): Run {
    if udid.None? then run.(ok := false)
    else Twice(f, run, Put(DeviceAndNameToKey(udid.value, info.bundleName), Json(info)))
  }

  function DeleteStep(f: Faults, run: Run, env: Env, bundleName: string, userId: int): Run {
    if userId != env.activeUser then run
    else if env.localUdid.None? then run.(ok := false)
    else Twice(f, run, Delete(DeviceAndNameToKey(env.localUdid.value, bundleName)))
  }

  /** The user a save event is checked against: the start user stands in for an unknown one. */
  function SavingUser(env: Env): int {
    if env.activeUser == INVALID_USERID then START_USERID else env.activeUser
  }

  function SaveStep(f: Faults, run: Run, env: Env, bundleName: string, userId: int): Run {
    if userId != SavingUser(env) then run
    else if env.bundleMgr.None? then run.(ok := false)
    else if (userId, bundleName) !in env.bundleMgr.value.single then
      DeleteStep(f, run, env, bundleName, userId)
    else
      PublishStep(f, run, env.localUdid, Convert(env.bundleMgr.value.single[(userId, bundleName)]))
  }

  /** Publishing is one put with one retry under the device's own key; without an identifier nothing is sent. */
  lemma PublishMeaning(f: Faults, run: Run, udid: Option<string>, info: DistributedBundleInfo)
    ensures var run' := PublishStep(f, run, udid, info);
            if udid.None? then run' == Run(run.kv, false)
            else
              && run'.ok == (run.ok && FinallyDone(f, |run.kv.log|))
              && WrittenWithRetry(f, run.kv, Put(DeviceAndNameToKey(udid.value, info.bundleName), Json(info)),
                                  FinallyDone(f, |run.kv.log|), run'.kv)
  {
    if udid.Some? {
      RetryHasSingleEffect(f, run.kv, Put(DeviceAndNameToKey(udid.value, info.bundleName), Json(info)));
    }
  }

  /** Withdrawing is one delete with one retry, for the active user only. */
  lemma DeleteMeaning(f: Faults, run: Run, env: Env, bundleName: string, userId: int)
    ensures var run' := DeleteStep(f, run, env, bundleName, userId);
            if userId != env.activeUser then run' == run
            else if env.localUdid.None? then run' == Run(run.kv, false)
            else
              && run'.ok == (run.ok && FinallyDone(f, |run.kv.log|))
              && WrittenWithRetry(f, run.kv, Delete(DeviceAndNameToKey(env.localUdid.value, bundleName)),
                                  FinallyDone(f, |run.kv.log|), run'.kv)
  {
    if env.localUdid.Some? {
      RetryHasSingleEffect(f, run.kv, Delete(DeviceAndNameToKey(env.localUdid.value, bundleName)));
    }
  }

  /**
   A save event of the active user, for whom the start user stands in: it publishes what the
   bundle manager says about the bundle, field by field, under the bundle's own key; if the
   bundle manager does not know the bundle its entry is withdrawn, provided there is an
   active user; for any other user, without bundle manager or identifier, nothing is sent.
   */
  lemma SaveMeaning(f: Faults, run: Run, env: Env, bundleName: string, userId: int)
    ensures var run' := SaveStep(f, run, env, bundleName, userId);
            if userId != (if env.activeUser == INVALID_USERID then START_USERID else env.activeUser) then run' == run
            else if env.bundleMgr.None? then run' == Run(run.kv, false)
            else if (userId, bundleName) in env.bundleMgr.value.single then
              if env.localUdid.None? then run' == Run(run.kv, false)
              else
                && run'.ok == (run.ok && FinallyDone(f, |run.kv.log|))
                && var b := env.bundleMgr.value.single[(userId, bundleName)];
                   exists info :: Publishes(info, b)
                     && WrittenWithRetry(f, run.kv, Put(DeviceAndNameToKey(env.localUdid.value, b.name), Json(info)),
                                         FinallyDone(f, |run.kv.log|), run'.kv)
            else if env.activeUser == INVALID_USERID then START_USERID != INVALID_USERID && run' == run
            else if env.localUdid.None? then run' == Run(run.kv, false)
            else
              && run'.ok == (run.ok && FinallyDone(f, |run.kv.log|))
              && WrittenWithRetry(f, run.kv, Delete(DeviceAndNameToKey(env.localUdid.value, bundleName)),
                                  FinallyDone(f, |run.kv.log|), run'.kv)
  {
    hide WrittenWithRetry, Publishes;
    if env.bundleMgr.Some? && (userId, bundleName) in env.bundleMgr.value.single {
      var b := env.bundleMgr.value.single[(userId, bundleName)];
      PublishesExactly(Convert(b), b);
      PublishMeaning(f, run, env.localUdid, Convert(b));
    }
    DeleteMeaning(f, run, env, bundleName, userId);
  }

  // ---------------------------------------------------------------------------
  // Reconcile
  // ---------------------------------------------------------------------------

  type OldInfos = map<string, DistributedBundleInfo>

  function Names(bundles: seq<BundleInfo>): seq<string> {
    seq(|bundles|, i requires 0 <= i < |bundles| => bundles[i].name)
  }

  /** An entry the scan takes for its own and whose bundle is gone. */
  predicate Doomed(e: Entry, udid: string, names: seq<string>) {
    Contains(e.key, udid) && e.value.Json? && e.value.info.bundleName !in names
  }

  /** An entry the scan takes for its own and whose bundle is still listed. */
  predicate Kept(e: Entry, udid: string, names: seq<string>) {
    Contains(e.key, udid) && e.value.Json? && e.value.info.bundleName in names
  }

  /** `std::map::emplace`: the first info filed under a name stays. */
  function Emplace(known: OldInfos, info: DistributedBundleInfo): OldInfos {
    if info.bundleName in known then known else known[info.bundleName := info]
  }

  function ScanFrom(f: Faults, run: Run, es: seq<Entry>, udid: string, names: seq<string>, known: OldInfos)
    : (OldInfos, Run)
    decreases |es|
  {
    if es == [] then (known, run)
    else if Doomed(es[0], udid, names) then
      ScanFrom(f, Once(f, run, Delete(es[0].key)), es[1..], udid, names, known)
    else if Kept(es[0], udid, names) then
      ScanFrom(f, run, es[1..], udid, names, Emplace(known, es[0].value.info))
    else
      ScanFrom(f, run, es[1..], udid, names, known)
  }

  /** The bundles the second loop writes: not singletons, and not already filed with this update time. */
  predicate NeedsPut(b: BundleInfo, known: OldInfos) {
    !b.singleton && !(b.name in known && known[b.name].updateTime == b.updateTime)
  }

  function PutFrom(f: Faults, run: Run, bundles: seq<BundleInfo>, udid: Option<string>, known: OldInfos): Run
    decreases |bundles|
  {
    if bundles == [] then run
    else if NeedsPut(bundles[0], known) then
      PutFrom(f, PublishStep(f, run, udid, Convert(bundles[0])), bundles[1..], udid, known)
    else
      PutFrom(f, run, bundles[1..], udid, known)
  }

  /** The first phase; `es` is the order in which the store hands out its entries. */
  function OldInfosStep(f: Faults, run: Run, env: Env, names: seq<string>, es: seq<Entry>): (OldInfos, Run) {
    if env.localUdid.None? then (map[], run.(ok := false))
    else
      var (status, kv) := Issue(f, run.kv, GetEntries);
      if status != SUCCESS then (map[], Run(kv, false))
      else ScanFrom(f, Run(kv, run.ok), es, env.localUdid.value, names, map[])
  }

  function UpdateStep(f: Faults, run: Run, env: Env, userId: int, es: seq<Entry>): Run {
    if env.bundleMgr.None? || userId !in env.bundleMgr.value.listing then run.(ok := false)
    else
      var bundles := env.bundleMgr.value.listing[userId];
      var (known, run') := OldInfosStep(f, run, env, Names(bundles), es);
      PutFrom(f, run', bundles, env.localUdid, known)
  }

  lemma {:induction false} NoIdentifierNoPut(f: Faults, run: Run, bundles: seq<BundleInfo>, known: OldInfos)
    ensures PutFrom(f, run, bundles, None, known).kv == run.kv
    decreases |bundles|
  {
    if bundles != [] {
      NoIdentifierNoPut(f, if NeedsPut(bundles[0], known) then run.(ok := false) else run, bundles[1..], known);
    }
  }

  /** Without a bundle manager, its listing or the own identifier a reconcile sends nothing at all. */
  lemma FailedLookupSendsNothing(f: Faults, run: Run, env: Env, userId: int, es: seq<Entry>)
    requires env.bundleMgr.None? || userId !in env.bundleMgr.value.listing || env.localUdid.None?
    ensures UpdateStep(f, run, env, userId, es).kv == run.kv
  {
    if env.bundleMgr.Some? && userId in env.bundleMgr.value.listing {
      NoIdentifierNoPut(f, run.(ok := false), env.bundleMgr.value.listing[userId], map[]);
    }
  }

  // ---------------------------------------------------------------------------
  // Reading another device's part of the table
  // ---------------------------------------------------------------------------

  /**
   The answers of the other services during one lookup.  `incoming` is what the replica
   holds under the peer's key prefix when the wait is over, whatever came of it.
   */
  datatype SyncEnv = SyncEnv(
    localUdid: Option<string>, peerUdid: Option<string>, peerUuid: Option<string>,
    start: Status, arrived: seq<Completion>, incoming: Table)

  predicate SyncStarts(env: SyncEnv, udid: string) {
    && env.localUdid.Some? && udid != env.localUdid.value
    && env.peerUuid.Some? && udid != "" && env.start == SUCCESS
  }

  predicate SyncSucceeds(env: SyncEnv, udid: string) {
    SyncStarts(env, udid) && FirstMatch(env.arrived, env.peerUuid.value) == Some(SUCCESS)
  }

  /** The completion that decides, the first that mentions the peer, says SUCCESS. */
  ghost predicate CompletedFirst(arrived: seq<Completion>, uuid: string) {
    exists i | 0 <= i < |arrived| ::
      && uuid in arrived[i] && arrived[i][uuid] == SUCCESS
      && forall j | 0 <= j < i :: uuid !in arrived[j]
  }

  /** The synchronisation is accepted, and it is completed. */
  ghost predicate Completes(env: SyncEnv, udid: string) {
    && env.localUdid.Some? && env.localUdid.value != udid && udid != ""
    && env.peerUuid.Some? && env.start == SUCCESS
    && CompletedFirst(env.arrived, env.peerUuid.value)
  }

  lemma SyncSucceedsIff(env: SyncEnv, udid: string)
    ensures SyncSucceeds(env, udid) <==> Completes(env, udid)
  {
    if SyncStarts(env, udid) && CompletedFirst(env.arrived, env.peerUuid.value) {
      var i :| 0 <= i < |env.arrived| && env.peerUuid.value in env.arrived[i] && env.arrived[i][env.peerUuid.value] == SUCCESS
               && forall j | 0 <= j < i :: env.peerUuid.value !in env.arrived[j];
    }
  }

  function Synced(kv: Kv, env: SyncEnv, udid: string): Kv {
    if SyncStarts(env, udid) then kv.(entries := ReplaceUnder(kv.entries, udid, env.incoming)) else kv
  }

  function LookupStep(f: Faults, kv: Kv, env: SyncEnv, bundleName: string): (Option<DistributedBundleInfo>, Kv) {
    if env.peerUdid.None? then (None, kv)
    else
      var udid := env.peerUdid.value;
      var kv1 := Synced(kv, env, udid);
      if !SyncSucceeds(env, udid) then (None, kv1)
      else
        var key := DeviceAndNameToKey(udid, bundleName);
        var (status, kv2) := IssueTwice(f, kv1, Get(key));
        if status != SUCCESS || key !in kv2.entries then (None, kv2)
        else if kv2.entries[key].Json? then (Some(kv2.entries[key].info), kv2)
        else (None, Issue(f, kv2, Delete(key)).1)
  }

  datatype NameResult =
    | NO_ERROR(bundleName: string)
    | INTERNAL_ERROR
    | NO_UDID
    | BUNDLE_NOT_EXIST

  predicate CarriesToken(e: Entry, udid: string, token: int) {
    Contains(e.key, udid) && e.value.Json? && e.value.info.accessTokenId == token
  }

  /** The loop over the scanned entries: the first one with the token decides. */
  function NameForToken(es: seq<Entry>, udid: string, token: int): NameResult {
    if es == [] then BUNDLE_NOT_EXIST
    else if CarriesToken(es[0], udid, token) then NO_ERROR(es[0].value.info.bundleName)
    else NameForToken(es[1..], udid, token)
  }

  function BundleNameStep(f: Faults, kv: Kv, env: SyncEnv, token: int, es: seq<Entry>): (NameResult, Kv) {
    if env.peerUdid.None? then (NO_UDID, kv)
    else if env.peerUdid.value == "" then (INTERNAL_ERROR, kv)
    else
      var udid := env.peerUdid.value;
      var kv1 := Synced(kv, env, udid);
      if !SyncSucceeds(env, udid) then (INTERNAL_ERROR, kv1)
      else
        var (status, kv2) := Issue(f, kv1, GetEntries);
        if status != SUCCESS then (INTERNAL_ERROR, kv2)
        else (NameForToken(es, udid, token), kv2)
  }
}
