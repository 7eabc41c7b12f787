/**
 Many devices, each with a replica of the table.  A device writes under its own
 identifier, and a reader synchronises the key prefix of one other device with that
 device.  The store's contract is modelled as last-writer-wins on versions: both sides
 of a synchronisation end with the newer cell.  That the owner's cells always win, and
 so are never overwritten by a reader's stale copy, is a theorem, not an assumption.
 */
module Replicas {
  import opened Wrappers
  import opened Strings
  import opened Bundles
  import opened KvStore
  import opened TableSteps
  import opened Reconcile
  import opened Monitor

  // ---------------------------------------------------------------------------
  // What a device sends to its own replica
  // ---------------------------------------------------------------------------

  /** A bundle name in which none of the identifiers occurs. */
  predicate Clean(ids: set<string>, name: string) {
    forall id | id in ids :: !Contains(name, id)
  }

  /** Reads, and deletions or writes of decodable values with clean names under the device's own keys. */
  ghost predicate OwnRequest(u: string, ids: set<string>, r: Request) {
    match r
    case Put(k, v) => v.Json? && k == DeviceAndNameToKey(u, v.info.bundleName) && Clean(ids, v.info.bundleName)
    case Delete(k) => exists n :: k == DeviceAndNameToKey(u, n)
    case Get(_) => true
    case GetEntries => true
  }

  /** The bundle manager knows clean names only; with no identifiers that is no condition. */
  ghost predicate CleanEnv(ids: set<string>, env: Env) {
    env.bundleMgr.Some? ==>
      && (forall k | k in env.bundleMgr.value.single :: Clean(ids, env.bundleMgr.value.single[k].name))
      && (forall userId | userId in env.bundleMgr.value.listing :: AllClean(ids, env.bundleMgr.value.listing[userId]))
  }

  ghost predicate AllClean(ids: set<string>, bundles: seq<BundleInfo>) {
    forall b | b in bundles :: Clean(ids, b.name)
  }

  /** The requests from the n-th on, applied as far as the faults let them take effect. */
  function Replay(f: Faults, entries: Table, n: nat, rs: seq<Request>): Table
    decreases |rs|
  {
    if rs == [] then entries
    else Replay(f, if TakesEffect(f(n)) then Apply(entries, rs[0]) else entries, n + 1, rs[1..])
  }

  lemma {:induction false} ReplayConcat(f: Faults, entries: Table, n: nat, rs: seq<Request>, ts: seq<Request>)
    ensures Replay(f, entries, n, rs + ts) == Replay(f, Replay(f, entries, n, rs), n + |rs|, ts)
    decreases |rs|
  {
    if rs == [] {
      assert rs + ts == ts;
    } else {
      assert (rs + ts)[1..] == rs[1..] + ts;
      ReplayConcat(f, if TakesEffect(f(n)) then Apply(entries, rs[0]) else entries, n + 1, rs[1..], ts);
    }
  }

  /** Between the two states only own requests were sent, and they account for every change. */
  ghost predicate SendsOwn(f: Faults, u: string, ids: set<string>, kv: Kv, kv': Kv) {
    && kv.log <= kv'.log
    && (forall r | r in kv'.log[|kv.log|..] :: OwnRequest(u, ids, r))
    && kv'.entries == Replay(f, kv.entries, |kv.log|, kv'.log[|kv.log|..])
  }

  lemma SendsOwnTransitive(f: Faults, u: string, ids: set<string>, a: Kv, b: Kv, c: Kv)
    requires SendsOwn(f, u, ids, a, b) && SendsOwn(f, u, ids, b, c)
    ensures SendsOwn(f, u, ids, a, c)
  {
    assert c.log[|a.log|..] == b.log[|a.log|..] + c.log[|b.log|..];
    ReplayConcat(f, a.entries, |a.log|, b.log[|a.log|..], c.log[|b.log|..]);
  }

  lemma IssueSendsOwn(f: Faults, kv: Kv, u: string, ids: set<string>, r: Request)
    requires OwnRequest(u, ids, r)
    ensures SendsOwn(f, u, ids, kv, Issue(f, kv, r).1)
  {
    var kv' := Issue(f, kv, r).1;
    assert kv'.log[|kv.log|..] == [r] && [r][1..] == [];
  }

  lemma TwiceSendsOwn(f: Faults, run: Run, u: string, ids: set<string>, r: Request)
    requires OwnRequest(u, ids, r)
    ensures SendsOwn(f, u, ids, run.kv, Twice(f, run, r).kv)
  {
    hide SendsOwn;
    var (status, kv1) := Issue(f, run.kv, r);
    IssueSendsOwn(f, run.kv, u, ids, r);
    if status == IPC_ERROR {
      IssueSendsOwn(f, kv1, u, ids, r);
      SendsOwnTransitive(f, u, ids, run.kv, kv1, Issue(f, kv1, r).1);
    }
  }

  lemma {:induction false} ScanSendsOwn(f: Faults, run: Run, es: seq<Entry>, u: string, ids: set<string>, names: seq<string>, known: OldInfos)
    requires forall e | e in es && Doomed(e, u, names) :: e.key == DeviceAndNameToKey(u, e.value.info.bundleName)
    ensures SendsOwn(f, u, ids, run.kv, ScanFrom(f, run, es, u, names, known).1.kv)
    decreases |es|
  {
    if es != [] {
      assert es[0] in es && forall e | e in es[1..] :: e in es;
      if Doomed(es[0], u, names) {
        var next := Once(f, run, Delete(es[0].key));
        ScanSendsOwn(f, next, es[1..], u, ids, names, known);
        IssueSendsOwn(f, run.kv, u, ids, Delete(es[0].key));
        SendsOwnTransitive(f, u, ids, run.kv, next.kv, ScanFrom(f, next, es[1..], u, names, known).1.kv);
      } else {
        ScanSendsOwn(f, run, es[1..], u, ids, names, if Kept(es[0], u, names) then Emplace(known, es[0].value.info) else known);
      }
    }
  }

  lemma {:induction false} PutsSendOwn(f: Faults, run: Run, bundles: seq<BundleInfo>, u: string, ids: set<string>, known: OldInfos)
    requires AllClean(ids, bundles)
    ensures SendsOwn(f, u, ids, run.kv, PutFrom(f, run, bundles, Some(u), known).kv)
    decreases |bundles|
  {
    if bundles != [] {
      assert bundles[0] in bundles && forall b | b in bundles[1..] :: b in bundles;
      if NeedsPut(bundles[0], known) {
        var next := PublishStep(f, run, Some(u), Convert(bundles[0]));
        TwiceSendsOwn(f, run, u, ids, Put(DeviceAndNameToKey(u, bundles[0].name), Json(Convert(bundles[0]))));
        PutsSendOwn(f, next, bundles[1..], u, ids, known);
        SendsOwnTransitive(f, u, ids, run.kv, next.kv, PutFrom(f, next, bundles[1..], Some(u), known).kv);
      } else {
        PutsSendOwn(f, run, bundles[1..], u, ids, known);
      }
    }
  }

  /** Under all faults, handling an event sends nothing but own requests, provided the scan cannot be misled. */
  lemma EventsSendOwn(f: Faults, run: Run, env: Env, event: Event, es: seq<Entry>, u: string, ids: set<string>)
    requires CleanEnv(ids, env)
    requires env.localUdid == Some(u) && LocalWF(run.kv.entries, u) && IsScan(es, run.kv.entries)
    ensures SendsOwn(f, u, ids, run.kv, EventStep(f, run, env, event, es).kv)
  {
    match event
    case UserSwitched(userId) =>
      if env.bundleMgr.Some? && userId in env.bundleMgr.value.listing {
        var bundles := env.bundleMgr.value.listing[userId];
        var (known, run1) := OldInfosStep(f, run, env, Names(bundles), es);
        var kv1 := Issue(f, run.kv, GetEntries).1;
        IssueSendsOwn(f, run.kv, u, ids, GetEntries);
        ScanSendsOwn(f, Run(kv1, run.ok), es, u, ids, Names(bundles), map[]);
        SendsOwnTransitive(f, u, ids, run.kv, kv1, ScanFrom(f, Run(kv1, run.ok), es, u, Names(bundles), map[]).1.kv);
        PutsSendOwn(f, run1, bundles, u, ids, known);
        SendsOwnTransitive(f, u, ids, run.kv, run1.kv, PutFrom(f, run1, bundles, Some(u), known).kv);
      }
    case PackageAdded(n, userId) => SaveSendsOwn(f, run, env, n, userId, u, ids);
    case PackageChanged(n, userId) => SaveSendsOwn(f, run, env, n, userId, u, ids);
    case PackageRemoved(n, userId) => TwiceSendsOwn(f, run, u, ids, Delete(DeviceAndNameToKey(u, n)));
    case Undefined(_) =>
  }

  lemma SaveSendsOwn(f: Faults, run: Run, env: Env, n: string, userId: int, u: string, ids: set<string>)
    requires env.localUdid == Some(u) && CleanEnv(ids, env)
    ensures SendsOwn(f, u, ids, run.kv, SaveStep(f, run, env, n, userId).kv)
  {
    TwiceSendsOwn(f, run, u, ids, Delete(DeviceAndNameToKey(u, n)));
    if env.bundleMgr.Some? && (userId, n) in env.bundleMgr.value.single {
      var info := Convert(env.bundleMgr.value.single[(userId, n)]);
      TwiceSendsOwn(f, run, u, ids, Put(DeviceAndNameToKey(u, info.bundleName), Json(info)));
    }
  }

  // ---------------------------------------------------------------------------
  // The network of replicas
  // ---------------------------------------------------------------------------

  /** A versioned cell; `None` marks a deletion. */
  datatype Cell = Cell(version: nat, value: Option<StoredValue>)

  type Replica = map<string, Cell>

  /**
   All identifiers have `length` characters; `published` records what each device has
   ever put under its own name.
   */
  datatype Net = Net(length: nat, clock: nat, replicas: map<string, Replica>, published: set<(string, DistributedBundleInfo)>)

  ghost predicate Devices(net: Net) {
    forall d | d in net.replicas :: IsUdid(d) && |d| == net.length
  }

  function Visible(r: Replica): Table {
    map k | k in r && r[k].value.Some? :: r[k].value.value
  }

  ghost predicate InitNet(net: Net) {
    && Devices(net)
    && net.published == {}
    && forall d | d in net.replicas :: net.replicas[d] == map[]
  }

  /** The device's replica and the record of publications after a write request; reads change nothing. */
  function Written(net: Net, d: string, r: Request): (net': Net)
    requires d in net.replicas
    ensures net'.replicas.Keys == net.replicas.Keys
  {
    if !r.Put? && !r.Delete? then net
    else
      var cell := Cell(net.clock + 1, if r.Put? then Some(r.value) else None);
      Net(net.length, net.clock + 1, net.replicas[d := net.replicas[d][r.key := cell]],
          if r.Put? && r.value.Json? then net.published + {(d, r.value.info)} else net.published)
  }

  /** A device applies one of its own write requests. */
  ghost predicate Write(net: Net, net': Net, d: string, r: Request) {
    d in net.replicas && OwnRequest(d, {}, r) && (r.Put? || r.Delete?) && net' == Written(net, d, r)
  }

  /** The newer of two cells; at equal versions the first. */
  function Newest(a: Replica, b: Replica, k: string): Cell
    requires k in a || k in b
  {
    if k !in b || (k in a && a[k].version >= b[k].version) then a[k] else b[k]
  }

  /** Cells are exchanged for the keys `ks` only. */
  function Merge(a: Replica, b: Replica, ks: set<string>): Replica {
    map k | k in a.Keys + b.Keys && (k in a || k in ks) :: if k in ks then Newest(a, b, k) else a[k]
  }

  /** Push and pull, between a reader and an owner, that got as far as the keys `ks` of the owner's prefix. */
  ghost predicate Exchange(net: Net, net': Net, reader: string, owner: string, ks: set<string>) {
    && reader in net.replicas && owner in net.replicas && reader != owner
    && (forall k | k in ks :: owner <= k && (k in net.replicas[reader] || k in net.replicas[owner]))
    && var a, b := net.replicas[reader], net.replicas[owner];
       net' == net.(replicas := net.replicas[reader := Merge(a, b, ks)][owner := Merge(b, a, ks)])
  }

  /** A completed synchronisation exchanges every key with the prefix. */
  ghost predicate Sync(net: Net, net': Net, reader: string, owner: string) {
    && reader in net.replicas && owner in net.replicas
    && Exchange(net, net', reader, owner,
                set k | k in net.replicas[reader].Keys + net.replicas[owner].Keys && owner <= k)
  }

  ghost predicate NextNet(net: Net, net': Net) {
    || (exists d, r :: Write(net, net', d, r))
    || (exists reader, owner, ks :: Exchange(net, net', reader, owner, ks))
  }

  ghost predicate IsNetRun(trace: seq<Net>) {
    && trace != []
    && InitNet(trace[0])
    && forall i | 0 <= i < |trace| - 1 :: NextNet(trace[i], trace[i + 1])
  }

  // ---------------------------------------------------------------------------
  // The invariant
  // ---------------------------------------------------------------------------

  /** A cell holds nothing, or something the owner of its key published under that key. */
  ghost predicate Genuine(net: Net, owner: string, k: string, cell: Cell) {
    cell.value.Some? ==>
      && cell.value.value.Json?
      && k == DeviceAndNameToKey(owner, cell.value.value.info.bundleName)
      && (owner, cell.value.value.info) in net.published
  }

  /** The cell is a past or the present cell of the device its key names. */
  ghost predicate Reflects(net: Net, k: string, cell: Cell) {
    && net.length < |k| && k[net.length] == '_'
    && var owner := k[..net.length];
    && owner in net.replicas && k in net.replicas[owner]
    && var own := net.replicas[owner][k];
    && cell.version <= own.version <= net.clock
    && (cell.version == own.version ==> cell == own)
    && Genuine(net, owner, k, cell)
  }

  ghost predicate NetInv(net: Net) {
    && Devices(net)
    && forall x, k | x in net.replicas && k in net.replicas[x] :: Reflects(net, k, net.replicas[x][k])
  }

  lemma KeyParts(d: string, n: string)
    ensures var k := DeviceAndNameToKey(d, n); k[..|d|] == d && k[|d| + 1..] == n
  {}

  lemma WriteInv(net: Net, net': Net, d: string, r: Request)
    requires NetInv(net) && Write(net, net', d, r)
    ensures NetInv(net')
  {
    var n :| r.key == DeviceAndNameToKey(d, n) && (r.Put? ==> n == r.value.info.bundleName);
    KeyParts(d, n);
    assert Devices(net');
    forall x, k | x in net'.replicas && k in net'.replicas[x]
      ensures Reflects(net', k, net'.replicas[x][k])
    {
      if x != d || k != r.key {
        assert Reflects(net, k, net.replicas[x][k]);
        OlderCellsReflect(net, net', d, r, k, net.replicas[x][k]);
      } else {
        assert k[..net.length] == d;
      }
    }
  }

  /** A cell that reflected its owner still does after a write: it may only have become a past one. */
  lemma OlderCellsReflect(net: Net, net': Net, d: string, r: Request, k: string, cell: Cell)
    requires Reflects(net, k, cell) && Write(net, net', d, r)
    ensures Reflects(net', k, cell)
  {
    hide DeviceAndNameToKey, OwnRequest;
    var owner := k[..net.length];
    assert k in net'.replicas[owner];
    if owner == d && k == r.key {
      assert net'.replicas[owner][k].version == net.clock + 1;
    } else {
      assert net'.replicas[owner][k] == net.replicas[owner][k];
    }
  }

  /** The owner's cell is never older than a reader's copy. */
  lemma OwnerIsNewest(net: Net, reader: string, owner: string, k: string)
    requires NetInv(net) && reader in net.replicas && owner in net.replicas
    requires k in net.replicas[reader] && owner <= k
    ensures k in net.replicas[owner]
    ensures Newest(net.replicas[reader], net.replicas[owner], k) == net.replicas[owner][k]
    ensures Newest(net.replicas[owner], net.replicas[reader], k) == net.replicas[owner][k]
  {
    assert Reflects(net, k, net.replicas[reader][k]);
    assert k[..net.length] == owner;
  }

  /** An exchange copies the owner's cells to the reader and leaves the owner's as they were. */
  lemma ExchangeCopiesOwner(net: Net, net': Net, reader: string, owner: string, ks: set<string>)
    requires NetInv(net) && Exchange(net, net', reader, owner, ks)
    ensures net'.replicas[owner] == net.replicas[owner]
    ensures forall k | k in ks ::
              k in net'.replicas[reader] && k in net.replicas[owner] && net'.replicas[reader][k] == net.replicas[owner][k]
    ensures forall k | k !in ks ::
              && (k in net'.replicas[reader] <==> k in net.replicas[reader])
              && (k in net.replicas[reader] ==> net'.replicas[reader][k] == net.replicas[reader][k])
  {
    hide Reflects, Devices, Merge, Newest;
    var a, b := net.replicas[reader], net.replicas[owner];
    forall k | k in ks && k in a
      ensures k in b && Newest(a, b, k) == b[k] && Newest(b, a, k) == b[k]
    {
      OwnerIsNewest(net, reader, owner, k);
    }
    MergeWithNewer(a, b, ks);
  }

  lemma MergeWithNewer(a: Replica, b: Replica, ks: set<string>)
    requires forall k | k in ks :: k in a || k in b
    requires forall k | k in a && k in ks :: k in b && Newest(a, b, k) == b[k] && Newest(b, a, k) == b[k]
    ensures Merge(b, a, ks) == b
    ensures forall k | k in ks :: k in Merge(a, b, ks) && k in b && Merge(a, b, ks)[k] == b[k]
    ensures forall k | k !in ks ::
              (k in Merge(a, b, ks) <==> k in a) && (k in a ==> Merge(a, b, ks)[k] == a[k])
  {}

  /** After a completed synchronisation the reader's cells under the prefix are the owner's. */
  lemma SyncCopiesOwner(net: Net, net': Net, reader: string, owner: string)
    requires NetInv(net) && Sync(net, net', reader, owner)
    ensures forall k | owner <= k ::
              && (k in net'.replicas[reader] <==> k in net.replicas[owner])
              && (k in net.replicas[owner] ==> net'.replicas[reader][k] == net.replicas[owner][k])
    ensures forall k | !(owner <= k) ::
              && (k in net'.replicas[reader] <==> k in net.replicas[reader])
              && (k in net.replicas[reader] ==> net'.replicas[reader][k] == net.replicas[reader][k])
  {
    hide Merge, Reflects, Devices;
    ExchangeCopiesOwner(net, net', reader, owner,
                        set k | k in net.replicas[reader].Keys + net.replicas[owner].Keys && owner <= k);
  }

  lemma GenuineKept(net: Net, net': Net, owner: string, k: string, cell: Cell)
    requires Genuine(net, owner, k, cell) && net.published <= net'.published
    ensures Genuine(net', owner, k, cell)
  {}

  lemma DevicesOf(net: Net, d: string)
    requires NetInv(net) && d in net.replicas
    ensures |d| == net.length
  {}

  /** An exchange changes no device's own cells, so what reflected them still does. */
  lemma ExchangeKeepsReflects(net: Net, net': Net, reader: string, owner: string, ks: set<string>, k: string, cell: Cell)
    requires NetInv(net) && Exchange(net, net', reader, owner, ks) && Reflects(net, k, cell)
    ensures Reflects(net', k, cell)
  {
    hide Merge, Newest, Genuine, NetInv, IsUdid;
    var home := k[..net.length];
    GenuineKept(net, net', home, k, cell);
    ExchangeCopiesOwner(net, net', reader, owner, ks);
    DevicesOf(net, owner);
    assert owner <= k ==> home == owner;
    assert k in net'.replicas[home] && net'.replicas[home][k] == net.replicas[home][k];
  }

  lemma ExchangeInv(net: Net, net': Net, reader: string, owner: string, ks: set<string>)
    requires NetInv(net) && Exchange(net, net', reader, owner, ks)
    ensures NetInv(net')
  {
    hide Merge, Newest, Reflects;
    ExchangeCopiesOwner(net, net', reader, owner, ks);
    assert net'.replicas.Keys == net.replicas.Keys;
    forall x, k | x in net'.replicas && k in net'.replicas[x]
      ensures Reflects(net', k, net'.replicas[x][k])
    {
      var from := if x == reader && k in ks then owner else x;
      assert k in net.replicas[from] && net'.replicas[x][k] == net.replicas[from][k];
      ExchangeKeepsReflects(net, net', reader, owner, ks, k, net.replicas[from][k]);
    }
  }

  lemma {:induction false} NetRunInv(trace: seq<Net>, i: nat)
    requires IsNetRun(trace) && i < |trace|
    ensures NetInv(trace[i])
  {
    if i > 0 {
      NetRunInv(trace, i - 1);
      var net, net' := trace[i - 1], trace[i - 1 + 1];
      if d, r :| Write(net, net', d, r) {
        WriteInv(net, net', d, r);
      } else {
        var reader, owner, ks :| Exchange(net, net', reader, owner, ks);
        ExchangeInv(net, net', reader, owner, ks);
      }
    }
  }

  // ---------------------------------------------------------------------------
  // What holds in every run
  // ---------------------------------------------------------------------------

  /**
   Whatever any device shows under the identifier of a device, that device once
   published, under that bundle name.
   */
  lemma EveryEntryWasPublished(trace: seq<Net>, i: nat, holder: string, owner: string, n: string)
    requires IsNetRun(trace) && i < |trace|
    requires holder in trace[i].replicas && owner in trace[i].replicas
    ensures var shown := Visible(trace[i].replicas[holder]);
            var key := DeviceAndNameToKey(owner, n);
            key in shown ==> shown[key].Json? && shown[key].info.bundleName == n && (owner, shown[key].info) in trace[i].published
  {
    hide IsNetRun;
    NetRunInv(trace, i);
    var key := DeviceAndNameToKey(owner, n);
    KeyParts(owner, n);
    if key in trace[i].replicas[holder] {
      var cell := trace[i].replicas[holder][key];
      assert Reflects(trace[i], key, cell);
      if cell.value.Some? {
        SameKey(owner, n, cell.value.value.info.bundleName);
      }
    }
  }

  /** No replica of a run can mislead a device's scan, if no published name contains its identifier. */
  lemma ReplicasAreWellFormed(trace: seq<Net>, i: nat, u: string)
    requires IsNetRun(trace) && i < |trace| && u in trace[i].replicas
    requires forall p | p in trace[i].published :: !Contains(p.1.bundleName, u)
    ensures LocalWF(Visible(trace[i].replicas[u]), u)
  {
    hide IsNetRun;
    NetRunInv(trace, i);
    var net := trace[i];
    var shown := Visible(net.replicas[u]);
    forall k | k in shown && Contains(k, u) && shown[k].Json?
      ensures k == DeviceAndNameToKey(u, shown[k].info.bundleName)
    {
      assert Reflects(net, k, net.replicas[u][k]);
      OwnershipScan(k[..net.length], shown[k].info.bundleName, u);
    }
  }

  lemma VisibleWrite(r: Replica, k: string, cell: Cell)
    ensures Visible(r[k := cell]) == if cell.value.Some? then Visible(r)[k := cell.value.value] else Visible(r) - {k}
  {}

  /** What a device's requests, from the n-th on, do to the network, as far as they take effect. */
  function Applied(net: Net, d: string, f: Faults, n: nat, rs: seq<Request>): (r: Net)
    requires d in net.replicas
    ensures r.replicas.Keys == net.replicas.Keys
    decreases |rs|
  {
    if rs == [] then net
    else Applied(if TakesEffect(f(n)) then Written(net, d, rs[0]) else net, d, f, n + 1, rs[1..])
  }

  /** The requests a device sends are writes of the network. */
  lemma {:induction false} RequestsExtendRun(trace: seq<Net>, d: string, f: Faults, n: nat, rs: seq<Request>) returns (longer: seq<Net>)
    requires IsNetRun(trace) && d in trace[|trace| - 1].replicas
    requires forall r | r in rs :: OwnRequest(d, {}, r)
    ensures |trace| <= |longer| && longer[..|trace|] == trace && IsNetRun(longer)
    ensures longer[|longer| - 1] == Applied(trace[|trace| - 1], d, f, n, rs)
    decreases |rs|
  {
    hide OwnRequest, Written;
    longer := trace;
    if rs != [] {
      var r, net := rs[0], trace[|trace| - 1];
      assert r in rs && forall t | t in rs[1..] :: t in rs;
      if TakesEffect(f(n)) && (r.Put? || r.Delete?) {
        assert Write(net, Written(net, d, r), d, r);
        ExtendNet(trace, Written(net, d, r));
        longer := trace + [Written(net, d, r)];
      } else {
        ReadsChangeNothing(net, d, r);
      }
      longer := RequestsExtendRun(longer, d, f, n + 1, rs[1..]);
    }
  }

  lemma ReadsChangeNothing(net: Net, d: string, r: Request)
    requires d in net.replicas
    ensures !r.Put? && !r.Delete? ==> Written(net, d, r) == net
  {}

  /** One request, seen in the replicas. */
  lemma WrittenIsSeen(net: Net, d: string, r: Request)
    requires d in net.replicas
    ensures var net' := Written(net, d, r);
            && Visible(net'.replicas[d]) == Apply(Visible(net.replicas[d]), r)
            && forall x | x in net.replicas && x != d :: net'.replicas[x] == net.replicas[x]
  {
    if r.Put? || r.Delete? {
      VisibleWrite(net.replicas[d], r.key, Cell(net.clock + 1, if r.Put? then Some(r.value) else None));
    }
  }

  /** A sequence of requests does to the device's replica what it does to a table, and nothing to the others. */
  lemma {:induction false} AppliedIsSeen(net: Net, d: string, f: Faults, n: nat, rs: seq<Request>)
    requires d in net.replicas
    ensures var net' := Applied(net, d, f, n, rs);
            && Visible(net'.replicas[d]) == Replay(f, Visible(net.replicas[d]), n, rs)
            && forall x | x in net.replicas && x != d :: net'.replicas[x] == net.replicas[x]
    decreases |rs|
  {
    hide Written, Visible, Apply;
    if rs != [] {
      WrittenIsSeen(net, d, rs[0]);
      AppliedIsSeen(if TakesEffect(f(n)) then Written(net, d, rs[0]) else net, d, f, n + 1, rs[1..]);
    }
  }

  /** None of the identifiers occurs in a name published so far. */
  ghost predicate NamesClean(net: Net, ids: set<string>) {
    forall p | p in net.published :: Clean(ids, p.1.bundleName)
  }

  lemma {:induction false} AppliedKeepsClean(net: Net, d: string, ids: set<string>, f: Faults, n: nat, rs: seq<Request>)
    requires d in net.replicas && NamesClean(net, ids)
    requires forall r | r in rs :: OwnRequest(d, ids, r)
    ensures NamesClean(Applied(net, d, f, n, rs), ids)
    decreases |rs|
  {
    if rs != [] {
      assert rs[0] in rs && forall t | t in rs[1..] :: t in rs;
      AppliedKeepsClean(if TakesEffect(f(n)) then Written(net, d, rs[0]) else net, d, ids, f, n + 1, rs[1..]);
    }
  }

  lemma ExtendNet(trace: seq<Net>, net: Net)
    requires IsNetRun(trace) && NextNet(trace[|trace| - 1], net)
    ensures IsNetRun(trace + [net])
  {
    var longer := trace + [net];
    forall i | 0 <= i < |longer| - 1 ensures NextNet(longer[i], longer[i + 1]) {
      if i < |trace| - 1 {
        assert NextNet(trace[i], trace[i + 1]);
      }
    }
  }

  /** The requests sent between two states of a connection. */
  function SentBetween(kv: Kv, kv': Kv): seq<Request> {
    if |kv.log| <= |kv'.log| then kv'.log[|kv.log|..] else []
  }

  lemma FewerIdentifiers(d: string, ids: set<string>, r: Request)
    requires OwnRequest(d, ids, r)
    ensures OwnRequest(d, {}, r)
  {}

  /**
   Handling an event is a continuation of the run: after any run, under any faults, what
   an event does to the table of its device is what some writes of the network do to that
   device's replica, and no other replica changes.
   */
  lemma EventContinuesRun(trace: seq<Net>, d: string, ids: set<string>, f: Faults, run: Run, env: Env, event: Event, es: seq<Entry>)
    returns (longer: seq<Net>)
    requires IsNetRun(trace) && d in trace[|trace| - 1].replicas
    requires forall p | p in trace[|trace| - 1].published :: !Contains(p.1.bundleName, d)
    requires run.kv.entries == Visible(trace[|trace| - 1].replicas[d])
    requires env.localUdid == Some(d) && IsScan(es, run.kv.entries) && CleanEnv(ids, env)
    ensures |trace| <= |longer| && longer[..|trace|] == trace && IsNetRun(longer)
    ensures var net, net' := trace[|trace| - 1], longer[|longer| - 1];
            var run' := EventStep(f, run, env, event, es);
            && net' == Applied(net, d, f, |run.kv.log|, SentBetween(run.kv, run'.kv))
            && Visible(net'.replicas[d]) == run'.kv.entries
            && (forall x | x in net.replicas && x != d :: net'.replicas[x] == net.replicas[x])
            && (NamesClean(net, ids) ==> NamesClean(net', ids))
  {
    assert trace != [];
    hide IsNetRun, EventStep, Visible, LocalWF, IsScan, OwnRequest, CleanEnv, NamesClean;
    ReplicasAreWellFormed(trace, |trace| - 1, d);
    EventsSendOwn(f, run, env, event, es, d, ids);
    var net, n := trace[|trace| - 1], |run.kv.log|;
    var rs := SentBetween(run.kv, EventStep(f, run, env, event, es).kv);
    forall r | r in rs ensures OwnRequest(d, {}, r) {
      FewerIdentifiers(d, ids, r);
    }
    longer := RequestsExtendRun(trace, d, f, n, rs);
    AppliedIsSeen(net, d, f, n, rs);
    if NamesClean(net, ids) {
      AppliedKeepsClean(net, d, ids, f, n, rs);
    }
  }

  // ---------------------------------------------------------------------------
  // A fleet of devices that handle events and synchronise
  // ---------------------------------------------------------------------------

  /** A device handles an event with its own replica as the store, under any faults. */
  ghost predicate Handles(net: Net, net': Net, d: string, f: Faults, kv: Kv, env: Env, event: Event, es: seq<Entry>) {
    && d in net.replicas && kv.entries == Visible(net.replicas[d])
    && env.localUdid == Some(d) && CleanEnv(net.replicas.Keys, env) && IsScan(es, kv.entries)
    && net' == Applied(net, d, f, |kv.log|, SentBetween(kv, EventStep(f, Run(kv, true), env, event, es).kv))
  }

  ghost predicate NextFleet(net: Net, net': Net) {
    || (exists d, f, kv, env, event, es :: Handles(net, net', d, f, kv, env, event, es))
    || (exists reader, owner, ks :: Exchange(net, net', reader, owner, ks))
  }

  ghost predicate IsFleetRun(trace: seq<Net>) {
    && trace != []
    && InitNet(trace[0])
    && forall i | 0 <= i < |trace| - 1 :: NextFleet(trace[i], trace[i + 1])
  }

  /** One step of a fleet, with a run of the network behind it. */
  lemma FleetStep(run: seq<Net>, net: Net, net': Net) returns (longer: seq<Net>)
    requires IsNetRun(run) && run[|run| - 1] == net && NamesClean(net, net.replicas.Keys) && NextFleet(net, net')
    ensures IsNetRun(longer) && longer[|longer| - 1] == net' && NamesClean(net', net'.replicas.Keys)
  {
    hide IsNetRun, NextNet, EventStep, Visible, IsScan, CleanEnv;
    if reader, owner, ks :| Exchange(net, net', reader, owner, ks) {
      assert NextNet(net, net') by {
        ExchangeIsStep(net, net', reader, owner, ks);
      }
      ExtendNet(run, net');
      longer := run + [net'];
      assert net'.replicas.Keys == net.replicas.Keys;
    } else {
      var d, f, kv, env, event, es :| Handles(net, net', d, f, kv, env, event, es);
      longer := EventContinuesRun(run, d, net.replicas.Keys, f, Run(kv, true), env, event, es);
    }
  }

  lemma ExchangeIsStep(net: Net, net': Net, reader: string, owner: string, ks: set<string>)
    requires Exchange(net, net', reader, owner, ks)
    ensures NextNet(net, net')
  {}

  /** Every state a fleet reaches is one the network reaches, and its published names stay clean. */
  lemma {:induction false} FleetIsNetwork(trace: seq<Net>, i: nat) returns (run: seq<Net>)
    requires IsFleetRun(trace) && i < |trace|
    ensures run != [] && IsNetRun(run) && run[|run| - 1] == trace[i] && NamesClean(trace[i], trace[i].replicas.Keys)
  {
    if i == 0 {
      run := [trace[0]];
    } else {
      run := FleetIsNetwork(trace, i - 1);
      assert NextFleet(trace[i - 1], trace[i - 1 + 1]);
      run := FleetStep(run, trace[i - 1], trace[i]);
    }
  }

  /**
   However often and in whatever order the devices of a fleet handle events, under any
   faults, and synchronise, completely or in part: what a device shows under another's
   identifier that device once published under that name, and no device's own scan can be
   misled.
   */
  lemma FleetIsSafe(trace: seq<Net>, i: nat, holder: string, owner: string, n: string)
    requires IsFleetRun(trace) && i < |trace|
    requires holder in trace[i].replicas && owner in trace[i].replicas
    ensures var shown := Visible(trace[i].replicas[holder]);
            var key := DeviceAndNameToKey(owner, n);
            && LocalWF(shown, holder)
            && (key in shown ==>
                  shown[key].Json? && shown[key].info.bundleName == n && (owner, shown[key].info) in trace[i].published)
  {
    hide IsFleetRun, IsNetRun, Visible, LocalWF;
    var run := FleetIsNetwork(trace, i);
    EveryEntryWasPublished(run, |run| - 1, holder, owner, n);
    ReplicasAreWellFormed(run, |run| - 1, holder);
  }

  /** An event handled in a fleet leaves its device with the table the event step computes, and the others as they were. */
  lemma FleetEventIsSeen(trace: seq<Net>, i: nat, net': Net, d: string, f: Faults, kv: Kv, env: Env, event: Event, es: seq<Entry>)
    requires IsFleetRun(trace) && i < |trace| && Handles(trace[i], net', d, f, kv, env, event, es)
    ensures Visible(net'.replicas[d]) == EventStep(f, Run(kv, true), env, event, es).kv.entries
    ensures forall x | x in trace[i].replicas && x != d :: net'.replicas[x] == trace[i].replicas[x]
  {
    hide IsFleetRun, IsNetRun, EventStep, Visible, IsScan, CleanEnv;
    var run := FleetIsNetwork(trace, i);
    var longer := EventContinuesRun(run, d, trace[i].replicas.Keys, f, Run(kv, true), env, event, es);
  }

  /**
   A lookup right after a successful synchronisation returns the owner's own entry: what
   the owner's replica held before the synchronisation, and nothing if it held nothing.
   */
  lemma LookupReturnsOwnersEntry(trace: seq<Net>, i: nat, reader: string, owner: string,
                                 f: Faults, kv: Kv, env: SyncEnv, n: string)
    requires IsNetRun(trace) && i + 1 < |trace| && Sync(trace[i], trace[i + 1], reader, owner)
    requires env.peerUdid == Some(owner) && Completes(env, owner)
    requires kv.entries == Visible(trace[i].replicas[reader]) && env.incoming == Visible(trace[i + 1].replicas[reader])
    requires f(|kv.log|).Done? || (f(|kv.log|).Lost? && f(|kv.log| + 1).Done?)
    ensures var own := Visible(trace[i].replicas[owner]);
            var key := DeviceAndNameToKey(owner, n);
            if key in own then own[key].Json? && LookupStep(f, kv, env, n).0 == Some(own[key].info)
            else LookupStep(f, kv, env, n).0 == None
    ensures LookupStep(f, kv, env, n).1.entries == Visible(trace[i + 1].replicas[reader])
  {
    hide IsNetRun, Completes, LookupStep, Merge;
    var net, net' := trace[i], trace[i + 1];
    NetRunInv(trace, i);
    SyncCopiesOwner(net, net', reader, owner);
    var key := DeviceAndNameToKey(owner, n);
    KeyParts(owner, n);
    if key in net.replicas[owner] {
      assert Reflects(net, key, net.replicas[owner][key]);
    }
    SyncedReplica(kv, env, net, net', reader, owner);
    LookupAnswers(f, kv, env, owner, n);
  }

  /** With a completed synchronisation and an answered read, a lookup is a look into the synchronised table. */
  lemma LookupAnswers(f: Faults, kv: Kv, env: SyncEnv, owner: string, n: string)
    requires env.peerUdid == Some(owner) && Completes(env, owner)
    requires f(|kv.log|).Done? || (f(|kv.log|).Lost? && f(|kv.log| + 1).Done?)
    ensures var synced := Synced(kv, env, owner).entries;
            var key := DeviceAndNameToKey(owner, n);
            var (info, kv') := LookupStep(f, kv, env, n);
            && (key !in synced ==> info == None && kv'.entries == synced)
            && (key in synced && synced[key].Json? ==> info == Some(synced[key].info) && kv'.entries == synced)
  {}

  lemma SyncedReplica(kv: Kv, env: SyncEnv, net: Net, net': Net, reader: string, owner: string)
    requires NetInv(net) && Sync(net, net', reader, owner) && Completes(env, owner)
    requires kv.entries == Visible(net.replicas[reader]) && env.incoming == Visible(net'.replicas[reader])
    ensures Synced(kv, env, owner).entries == Visible(net'.replicas[reader])
  {
    SyncCopiesOwner(net, net', reader, owner);
    var s := Synced(kv, env, owner).entries;
    assert s == ReplaceUnder(kv.entries, owner, env.incoming);
    forall k ensures Same(s, Visible(net'.replicas[reader]), k) {
      assert (owner <= k) || !(owner <= k);
    }
    SameEverywhere(s, Visible(net'.replicas[reader]));
  }
}
