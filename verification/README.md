# Distributed bundle service: verified model

The distributed bundle service tells devices of one network about each other's installed
bundles. This project models its core in Dafny and proves what that core promises.

* **The distributed table** (`Strings`, `Bundles`, `KvStore`, `TableSteps`, `SyncCallback`,
  `DistributedDataStorage`, `Reconcile`, `Lookup`, `Monitor`, `Replicas`). Each device publishes its
  installed bundles under keys `udid_bundleName`. Package events patch single keys; a user switch
  runs an incremental reconcile; other devices read after a synchronisation. The class
  `DistributedDataStorage` is proved to compute the step functions of `TableSteps`, for every
  pattern of refused and lost requests. `Reconcile` compares the reconcile with a full rebuild.
  `Monitor` is the machine of bundle manager, event queue and table; `Replicas` is a network of
  devices.
* **The client's cached proxy** (`ClientLifecycle`). Any number of threads get and reset the proxy
  while remotes start and die and death notices are delivered late, under three mutexes.
* **Icons** (`Base64`). The encoder loop on 32-bit integers against section 4 of RFC 4648.
* **The wire protocol** (`Parcels`, `Rpc`, `HostAndProxy`, `AbilityQuery`). Proxy, parcel and host
  composed are transparent, and a batch query is followed through them.

`dafny verify dfyconfig.toml` checks everything.

## Where the code does less than one might expect

* The Base64 loop stops three bytes early (`i < srcLen - 3`) and its `else` branch handles two
  bytes, so for a length that is a multiple of three the last byte of the icon is lost
  (`Base64.EncodesWholeInputIff`, `Base64.ThirdByteLost`).
* A save event maps an unknown active user to the start user, a removal does not, so without an
  active user a removed bundle stays in the table (`Monitor.InstallThenRemoveIsCleanIff`,
  `Monitor.EntryOutlivesBundle`).
* A reconcile trusts equal update times (`Reconcile.ReconcileIsRebuild`,
  `Monitor.UpdateStaysHidden`) and takes every key that contains the own identifier for its own
  (`Reconcile.ForeignEntryDeletedIff`, `Reconcile.ForeignEntryLost`).
* A remote that dies between its lookup and the registration of the death recipient is cached for
  good (`ClientLifecycle.NoPermanentlyStaleProxy`,
  `ClientLifecycle.StaleProxyAfterLateRegistration`).
* Singleton bundles are published by events but never by a reconcile; they are among the bundles a
  reconcile can pass over (`Reconcile.MissedExactly`).

## Model

| member | source | states |
|---|---|---|
| `Monitor.EveryReachableStateIsConsistent` | services/dbms/include/distributed_monitor.h:32-53 | Quiescent consistency in every reachable state of bundle manager, FIFO event queue and table, exactly. Any bundle may be installed, updated (also under an unchanged update time) and removed for any user, users switch, peers are synchronised with, events are handled arbitrarily late. With no switch and no event about a bundle pending for the active user, the bundle has exactly the converted present info under its key, or no decodable entry if it is gone, if and only if an event has spoken about it since the last switch or the reconcile of that switch did not pass over it while the table differed; one that is gone never has an entry |
| `Monitor.BehaviourInv` | services/dbms/include/distributed_monitor.h:32-53 | The inductive invariant behind it, for all behaviours: the last pending removal of a bundle is true, the last pending switch is to the active user, the own keys fit their contents |
| `Monitor.HandlePackageInv` | services/dbms/src/distributed_data_storage.cpp:73-170 | Handling an added, changed or removed event, even one that is out of date, keeps the invariant |
| `Monitor.HandleSwitchInv` | services/dbms/src/distributed_data_storage.cpp:461-495 | Handling a user switch by an incremental reconcile keeps the exact invariant, whatever update times say about contents |
| `Monitor.ReceiveInv` | services/dbms/src/distributed_data_storage.cpp:312-359 | A synchronisation, which changes keys other than the own ones in any way, keeps the invariant |
| `Monitor.PackageEffect` | services/dbms/src/distributed_data_storage.cpp:73-170 | With successful requests an event about one bundle files the installed bundle under its key, field by field, or clears that key, by what is installed when it is handled; an event for another user changes nothing |
| `Monitor.SaveUnderFaults` | services/dbms/src/distributed_data_storage.cpp:73-104 | An added or changed event, for every user, lookup outcome and fault pattern: what is sent, when it is sent again, what the table is afterwards and when that counts as success, with the published fields named one by one |
| `Monitor.RemovalUnderFaults` | services/dbms/src/distributed_data_storage.cpp:135-170 | The same for a removal event: one delete with one retry exactly for the active user, nothing otherwise |
| `Monitor.SwitchUnderFaults` | services/dbms/include/distributed_monitor.h:37-52 | A user switch reconciles for the new user and sends nothing at all when the bundle manager, its listing or the own identifier is missing; an unknown event sends nothing |
| `Monitor.GoneBundleIsWithdrawnIff` | services/dbms/src/distributed_data_storage.cpp:80-98 | A save event about a bundle that is gone withdraws its entry if and only if there is an active user: the save falls back to the start user, the removal it delegates to does not |
| `Monitor.InstallThenRemoveIsCleanIff` | services/dbms/src/distributed_data_storage.cpp:142-146 | Install and uninstall of a bundle, both events handled with success, leave no entry if and only if there is an active user; without one the entry outlives the bundle |
| `Monitor.EntryOutlivesBundle` | services/dbms/src/distributed_data_storage.cpp:142-146 | That case at concrete values |
| `Monitor.UpdateStaysHidden` | services/dbms/src/distributed_data_storage.cpp:485-490 | A whole behaviour with an empty queue in which the table is wrong about an installed bundle: its application was disabled under an unchanged update time while the service was down |
| `Monitor.DistributedMonitor.OnReceiveEvent` | services/dbms/include/distributed_monitor.h:32-53 | The dispatcher changes the store exactly as the step of the event says, also when handling the event opens the connection, or not at all without a connection |
| `Reconcile.ReconcileIsRebuild` | services/dbms/src/distributed_data_storage.cpp:461-541 | The incremental reconcile, when its requests succeed, leaves exactly the table of a full rebuild, if and only if an equal update time never hides different contents |
| `Reconcile.RebuildMeaning` | services/dbms/src/distributed_data_storage.cpp:461-541 | What that table is: every listed bundle that is no singleton filed with its present info, field by field, every decodable own entry names a listed bundle, entries of listed singletons and all foreign entries untouched |
| `Reconcile.RebuildElsewhere` | services/dbms/src/distributed_data_storage.cpp:519-539 | At every other key the rebuild keeps what was there, undecodable texts included, except decodable entries taken for own ones whose bundle is not listed, and invents nothing |
| `Reconcile.FirstFiledWins` | services/dbms/src/distributed_data_storage.cpp:535 | Of several entries that name a bundle the first in scan order is collected |
| `Reconcile.ReconcileUnderFaults` | services/dbms/src/distributed_data_storage.cpp:461-541 | Under every fault pattern and for every table, keys without the own identifier are never touched, and if the own keys fit their contents each key ends with its old or its rebuilt value |
| `Reconcile.ReconcileMisses` | services/dbms/src/distributed_data_storage.cpp:461-541 | What a successful reconcile achieves on any table whose own keys fit, misleading foreign entries included: a listed bundle has its present info if and only if the reconcile did not pass over it while the table differed, and bundles not listed have no decodable entry |
| `Reconcile.MissedExactly` | services/dbms/src/distributed_data_storage.cpp:481-490 | On a well-formed store, for every scan order, the bundles passed over wrongly are exactly those the table is wrong about that are singletons or filed with their present update time |
| `Reconcile.ReconcileHeals` | services/dbms/src/distributed_data_storage.cpp:461-541 | A reconcile that met any faults followed by one that meets none gives the table the rebuild of the original one |
| `Reconcile.ReconcileRequests` | services/dbms/src/distributed_data_storage.cpp:461-541 | The exact requests of a reconcile under every fault pattern: the scan, one delete for each doomed entry in scan order, one put for each bundle that needs it in listing order, repeated after a loss; it succeeds if and only if scan and deletes are answered at once and each put finally is |
| `Reconcile.PutsPublish` | services/dbms/src/distributed_data_storage.cpp:481-494 | A put is among them if and only if it files a bundle that needs it, under its key and with its fields one by one |
| `Reconcile.ReconcileOnlyReadsIff` | services/dbms/src/distributed_data_storage.cpp:481-494 | A reconcile sends no put and no delete if and only if nothing is to be deleted and every non-singleton is filed with its update time |
| `Reconcile.SecondReconcileOnlyReads` | services/dbms/src/distributed_data_storage.cpp:481-494 | After a successful reconcile a second one of the same listing only reads |
| `Reconcile.FailedScanRewritesAll` | services/dbms/src/distributed_data_storage.cpp:497-518 | If the entry scan fails nothing is deleted, only puts follow, and if they succeed every listed non-singleton is rewritten |
| `TableSteps.FailedLookupSendsNothing` | services/dbms/src/distributed_data_storage.cpp:464-473 | Without a bundle manager, its listing or the own identifier a reconcile sends nothing |
| `TableSteps.SaveMeaning` | services/dbms/src/distributed_data_storage.cpp:73-104 | A save in all its branches, over the faults: which user it is checked against, what it puts or deletes, when nothing is sent |
| `TableSteps.PublishMeaning` | services/dbms/src/distributed_data_storage.cpp:106-133 | Publishing is one put with one retry under the own key |
| `TableSteps.DeleteMeaning` | services/dbms/src/distributed_data_storage.cpp:135-170 | Withdrawing is one delete with one retry, for the active user only |
| `TableSteps.SyncSucceedsIff` | services/dbms/src/distributed_data_storage.cpp:312-359 | A synchronisation counts as successful if and only if the identifiers are known and not the own one, the store accepts it, and the first completion that mentions the peer says SUCCESS |
| `Reconcile.ReconcileShape` | services/dbms/src/distributed_data_storage.cpp:461-541 | Under every fault pattern a key is left alone, or deleted because its bundle is gone, or written with a listed bundle |
| `Reconcile.CollectedExactly` | services/dbms/src/distributed_data_storage.cpp:519-540 | On a well-formed store the collected old infos are, for every scan order, exactly the filed infos of the listed bundles |
| `Reconcile.SkippedWrites` | services/dbms/src/distributed_data_storage.cpp:485-490 | The writes skipped, compared with a rebuild, are exactly those of non-singletons filed with the current update time |
| `Reconcile.ForeignEntryDeletedIff` | services/dbms/src/distributed_data_storage.cpp:519-535 | With no condition on the rest of the table, another device's entry survives a reconcile unchanged, under any faults, unless its bundle's name contains the own identifier and is not listed; and then a successful reconcile deletes it |
| `Reconcile.ForeignEntryLost` | services/dbms/src/distributed_data_storage.cpp:519-535 | That case at concrete values |
| `Strings.OwnershipScan` | services/dbms/src/distributed_data_storage.cpp:521-523 | The substring test finds a key if and only if it is the device's own or the bundle name contains the identifier |
| `Strings.KeyInjective` | services/dbms/src/distributed_data_storage.cpp:280-285 | Two keys are equal if and only if device and bundle name are, for identifiers of one length or without separator |
| `Strings.KeyCollision` | services/dbms/src/distributed_data_storage.cpp:280-285 | Without that condition keys collide: a concrete pair |
| `Strings.PrefixSelectsDevice` | services/dbms/src/distributed_data_storage.cpp:334-335 | The key-prefix query selects exactly the keys of that device |
| `KvStore.RetryHasSingleEffect` | services/dbms/src/distributed_data_storage.cpp:117-132 | Retry once, exactly: a write is sent again if and only if the first was lost, reported as done if and only if the store finally answered so, and has then taken effect once; otherwise once or not at all, by what the two requests did; only its own key changes |
| `KvStore.SingleKvStore.Send` | services/dbms/src/distributed_data_storage.cpp:122-126 | The contract of one store request: done, refused, or lost with or without effect |
| `KvStore.SingleKvStore.Scan` | services/dbms/src/distributed_data_storage.cpp:512-518 | The contract of a scan: every entry exactly once, in an order the store chooses |
| `DistributedDataStorageModel.DistributedDataStorage.GetKvStore` | services/dbms/src/distributed_data_storage.cpp:361-380 | One attempt to open the store, which may claim success without a store |
| `DistributedDataStorageModel.DistributedDataStorage.CheckKvStore` | services/dbms/src/distributed_data_storage.cpp:287-310 | An existing connection is kept; otherwise attempts stop at the first success, fail only after 600, and the answer is whether there is a connection |
| `DistributedDataStorageModel.DistributedDataStorage.InnerSaveStorageDistributeInfo` | services/dbms/src/distributed_data_storage.cpp:106-133 | One put of the info under the own key, sent again exactly after a loss, reported as done exactly if finally answered so, with the table it leaves in either case; nothing without connection or identifier |
| `DistributedDataStorageModel.DistributedDataStorage.DeleteStorageDistributeInfo` | services/dbms/src/distributed_data_storage.cpp:135-170 | The same for the delete of a bundle of the active user; nothing for another user or without identifier |
| `DistributedDataStorageModel.DistributedDataStorage.SaveStorageDistributeInfo` | services/dbms/src/distributed_data_storage.cpp:73-104 | Puts the present info of a bundle, field by field, or deletes its key if the bundle manager does not know it and there is an active user; nothing for another user or without bundle manager or identifier |
| `DistributedDataStorageModel.DistributedDataStorage.GetAllOldDistributionBundleInfo` | services/dbms/src/distributed_data_storage.cpp:497-541 | The scan loop: deletes own entries of bundles that are gone, collects the others, first one wins |
| `DistributedDataStorageModel.DistributedDataStorage.UpdateDistributedData` | services/dbms/src/distributed_data_storage.cpp:461-495 | The reconcile as run on the store equals the step function the theorems are about, for the scan order the store chose, and leaves the store alone when bundle manager, listing or identifier is missing |
| `DistributedDataStorageModel.DistributedDataStorage.SyncAndCompleted` | services/dbms/src/distributed_data_storage.cpp:312-359 | Succeeds if and only if the identifiers are known and not the own one, the store accepts the sync, and the first completion about the peer says SUCCESS; replaces what is under the prefix if and only if the sync starts |
| `DistributedDataStorageModel.DistributedDataStorage.GetStorageDistributeInfo` | services/dbms/src/distributed_data_storage.cpp:172-215 | The lookup of one remote bundle after a sync; an undecodable value is deleted and reported as failure |
| `DistributedDataStorageModel.DistributedDataStorage.GetDistributedBundleName` | services/dbms/src/distributed_data_storage.cpp:217-268 | The lookup by token after a sync, with its error codes |
| `Bundles.PublishesExactly` | services/dbms/src/distributed_data_storage.cpp:423-459 | The converted info is the one and only info with each field of the bundle in its place and the abilities grouped |
| `Bundles.ModulesIsGrouping` | services/dbms/src/distributed_data_storage.cpp:433-454 | Ability grouping is a stable partition: module names strictly increasing, no empty group, each group describing by name, permissions, kind and enabled flag the input abilities of that module in input order |
| `Bundles.AbilitiesInExactly` | services/dbms/src/distributed_data_storage.cpp:434-448 | Where each input ability ends up: behind exactly the earlier ones of its module |
| `Bundles.ModulesConserveAbilities` | services/dbms/src/distributed_data_storage.cpp:433-454 | The multiset of abilities is conserved |
| `Bundles.GroupingUnique` | services/dbms/src/distributed_data_storage.cpp:433-454 | No other list of groups has these properties |
| `Bundles.ModuleMap.Add` | services/dbms/src/distributed_data_storage.cpp:440-447 | Find-or-emplace in the ordered map, in place, equals insertion of the ability at its place |
| `Bundles.ConvertToDistributedBundleInfo` | services/dbms/src/distributed_data_storage.cpp:423-459 | The conversion loops put every field of the bundle in its place, one by one, and group its abilities |
| `SyncCallback.FirstMatch` | services/dbms/src/distributed_data_storage.cpp:553-570 | The verdict is that of the first completion mentioning the device; none if no completion does |
| `SyncCallback.FirstMatchAppend` | services/dbms/src/distributed_data_storage.cpp:553-571 | A further completion changes the verdict only if there was none |
| `SyncCallback.DistributedDataStorageCallback.SyncCompleted` | services/dbms/src/distributed_data_storage.cpp:553-571 | The promise is fulfilled at most once over any sequence of callbacks |
| `SyncCallback.DistributedDataStorageCallback.GetResultCode` | services/dbms/src/distributed_data_storage.cpp:578-588 | The status of the first matching completion, or TIME_OUT |
| `SyncCallback.AwaitSync` | services/dbms/src/distributed_data_storage.cpp:337-352 | Any sequence of callbacks during the wait gives the first matching status or TIME_OUT |
| `Lookup.TokenLookupInvertsPublishing` | services/dbms/src/distributed_data_storage.cpp:217-268 | After a successful sync and scan, with the token carried by at most one bundle of the device: a name is returned exactly when the synchronised partition holds it with that token, not-exist exactly when no name is held |
| `Lookup.TokenLookupCodes` | services/dbms/src/distributed_data_storage.cpp:217-268 | Every code by its guard: unknown device, empty identifier, incomplete sync, failed scan; a name or not-exist only when all are passed |
| `Lookup.FirstCarrier` | services/dbms/src/distributed_data_storage.cpp:253-264 | The first entry in scan order that carries the token decides |
| `Lookup.LookupExactly` | services/dbms/src/distributed_data_storage.cpp:172-215 | Every outcome of the lookup of one bundle, with what is sent: nothing before a completed sync; then one read with one retry; the info, or nothing there, or one delete of a text that is no info |
| `Lookup.TokenLookupExact` | services/dbms/src/distributed_data_storage.cpp:253-267 | For every scan order, not-exist is reported exactly when no info taken for the device's carries the token, and a reported name is one that does |
| `Lookup.TokenLookupStaysInPartition` | services/dbms/src/distributed_data_storage.cpp:256-258 | Among well-named entries those that count are the ones of the device's own partition |
| `Lookup.LookupReads` | services/dbms/src/distributed_data_storage.cpp:191-214 | A lookup that returns an info returns what the sync delivered under that key and leaves the table as the sync left it; outside the peer's prefix no lookup changes anything |
| `Replicas.EveryEntryWasPublished` | services/dbms/src/distributed_data_storage.cpp:106-133 | In every run of any number of devices that write and (completely or partly) synchronise, an entry shown under a device's identifier was once published by that device under that name |
| `Replicas.LookupReturnsOwnersEntry` | services/dbms/src/distributed_data_storage.cpp:172-215 | A lookup after a completed sync returns the owner's own entry, and nothing if the owner has none |
| `Replicas.EventContinuesRun` | services/dbms/src/distributed_data_storage.cpp:73-170 | Handling an event under any faults is a sequence of writes of the network to the device's own replica, which then shows what the event step computes; names free of given identifiers stay so |
| `Replicas.FleetIsSafe` | services/dbms/src/distributed_data_storage.cpp:73-170 | In every run of a fleet whose steps are events handled under any faults and synchronisations, complete or partial, in any order: an entry shown under a device's identifier was published by that device under that name, and no device's scan can be misled |
| `Replicas.FleetIsNetwork` | services/dbms/src/distributed_data_storage.cpp:73-170 | Every state of such a fleet is a state of the network, and published names stay free of every device's identifier |
| `Replicas.FleetEventIsSeen` | services/dbms/src/distributed_data_storage.cpp:73-170 | In a fleet an event leaves its device with the table the event step computes and the other devices as they were |
| `Replicas.EventsSendOwn` | services/dbms/src/distributed_data_storage.cpp:73-170 | Under all faults handling an event sends only reads and writes under the device's own keys, and these account for every change |
| `Replicas.ExchangeInv` | services/dbms/src/distributed_data_storage.cpp:334-345 | A sync, complete or interrupted, keeps the invariant that every cell is a past or present cell of its owner |
| `Replicas.SyncCopiesOwner` | services/dbms/src/distributed_data_storage.cpp:334-345 | Under last-writer-wins a completed sync leaves the reader with exactly the owner's cells under the prefix |
| `Replicas.ReplicasAreWellFormed` | services/dbms/src/distributed_data_storage.cpp:519-535 | No replica of a run can mislead the ownership scan, if no published name contains the identifier |
| `ClientLifecycle.AtMostOneRecipient` | interfaces/inner_api/src/distributed_bundle_mgr_client.cpp:135-172 | Over every interleaving at most one death recipient is registered, and it is the current one on the cached proxy |
| `ClientLifecycle.CachedProxyIsWatched` | interfaces/inner_api/src/distributed_bundle_mgr_client.cpp:144-172 | With no getter between lookup and registration, a cached proxy of a live remote has exactly the current recipient registered |
| `ClientLifecycle.DeathIsOutstanding` | interfaces/inner_api/src/distributed_bundle_mgr_death_recipient.cpp:23-31 | While the cached, registered remote is dead, its notice is undelivered or its reset has not happened yet |
| `ClientLifecycle.NoPermanentlyStaleProxy` | interfaces/inner_api/src/distributed_bundle_mgr_client.cpp:135-172 | In every state of every run in which nothing is on the way, the cached proxy is alive if and only if the last registration in the run found its remote alive, also when a late notice for an old remote cleared a newer one |
| `ClientLifecycle.TimelyRegistrationsSuffice` | interfaces/inner_api/src/distributed_bundle_mgr_client.cpp:159-171 | If every registration of a run finds its remote alive, no quiet state of the run has a stale proxy |
| `ClientLifecycle.QuietProxyIsRegistered` | interfaces/inner_api/src/distributed_bundle_mgr_client.cpp:135-172 | In a quiet state the cached proxy is alive if and only if its recipient is registered |
| `ClientLifecycle.StaleProxyAfterLateRegistration` | interfaces/inner_api/src/distributed_bundle_mgr_client.cpp:159-171 | The failing case, as a run: the remote dies between lookup and registration, and a dead proxy stays cached for good |
| `ClientLifecycle.RunInv` | interfaces/inner_api/src/distributed_bundle_mgr_client.cpp:135-210 | The inductive invariant over all threads, deaths and deliveries: mutexes are held where positions say, nothing is registered while a getter is mid-way |
| `ClientLifecycle.LocksAreOrdered` | interfaces/inner_api/src/distributed_bundle_mgr_client.cpp:33-50 | Mutexes are taken in one order, none is re-acquired, and nobody waits while holding an inner one |
| `ClientLifecycle.NoDeadlock` | interfaces/inner_api/src/distributed_bundle_mgr_client.cpp:135-210 | In every reachable state with an unfinished thread some thread can step |
| `ClientLifecycle.EveryStepIsProgress` | interfaces/inner_api/src/distributed_bundle_mgr_client.cpp:135-210 | Every step brings its own thread nearer to its end and no other thread further from it |
| `ClientLifecycle.GetterReturnsTheCached` | interfaces/inner_api/src/distributed_bundle_mgr_client.cpp:144-172 | In every run a getter returns what is cached at that moment, so nothing after any of its failures |
| `ClientLifecycle.GetterStep` | interfaces/inner_api/src/distributed_bundle_mgr_client.cpp:144-210 | Every point at which a getter ends, with its guard and result, and everything a step of it changes |
| `ClientLifecycle.DistributedBundleMgrClient.Reset` | interfaces/inner_api/src/distributed_bundle_mgr_client.cpp:135-142 | Removes the current recipient from the cached proxy and clears the cache |
| `ClientLifecycle.DistributedBundleMgrClient.Adopt` | interfaces/inner_api/src/distributed_bundle_mgr_client.cpp:182-188 | A found remote object becomes the cached proxy; without one the fields stay |
| `ClientLifecycle.DistributedBundleMgrClient.Register` | interfaces/inner_api/src/distributed_bundle_mgr_client.cpp:159-171 | A fresh recipient replaces the old one and is added to the cached proxy |
| `ClientLifecycle.DistributedBundleMgrClient.InitDeviceManager` | interfaces/inner_api/src/distributed_bundle_mgr_client.cpp:33-50 | Initialisation happens until it succeeded once, and reports whether it has |
| `ClientLifecycle.DistributedBundleMgrClient.Load` | interfaces/inner_api/src/distributed_bundle_mgr_client.cpp:174-210 | Without interference: the checked object, or after initialisation and with a trusted device the loaded one; without service manager, initialisation or device nothing is adopted |
| `ClientLifecycle.DistributedBundleMgrClient.GetDistributedBundleMgrProxy` | interfaces/inner_api/src/distributed_bundle_mgr_client.cpp:144-172 | Without interference: a cached proxy is returned untouched; otherwise the checked or loaded object is cached and returned with a fresh recipient; without service manager, initialisation or trusted device nothing is returned and nothing cached |
| `Base64.EncodeBase64` | services/dbms/src/distributed_bms.cpp:628-670 | Memory and arithmetic safety on 32-bit integers, and the exact output: the RFC 4648 section 4 encoding of the whole input, or of all but its last byte when the length is a multiple of three, then a NUL |
| `Base64.EncodesWholeInputIff` | services/dbms/src/distributed_bms.cpp:628-670 | The output encodes the whole input if and only if its length is no multiple of three; decoding returns the input, or the input without its last byte |
| `Base64.ThirdByteLost` | services/dbms/src/distributed_bms.cpp:638-666 | Three zero bytes: the encoding of all is AAAA, of the two that are covered AAA= |
| `Base64.DecodeInvertsRfc` | services/dbms/src/distributed_bms.cpp:628-670 | The reference encoding is inverted by the strict decoder on every byte string |
| `Base64.RfcInvertsDecode` | services/dbms/src/distributed_bms.cpp:628-670 | The strict decoder accepts nothing but encodings |
| `Base64.EncodeRound` | services/dbms/src/distributed_bms.cpp:638-650 | One round of the loop extends the encoding of the bytes read so far by three bytes |
| `Base64.EncodeLast` | services/dbms/src/distributed_bms.cpp:651-666 | The two ways to finish, as written: remainder one, and everything else |
| `Base64.IndicesAreSextets` | services/dbms/src/distributed_bms.cpp:639-649 | The table indices of a round, in the bit expressions of the encoder, are the four sextets of the 24-bit group of its bytes |
| `Base64.LastIndicesAreSextets` | services/dbms/src/distributed_bms.cpp:652-665 | The last index of either way to finish is the sextet of the group in which missing bytes are zero |
| `Base64.RoundExtendsRfc` | services/dbms/src/distributed_bms.cpp:639-649 | What a round writes extends the RFC encoding of the bytes read so far |
| `Base64.TailExtendsRfc` | services/dbms/src/distributed_bms.cpp:651-666 | What either way to finish writes extends the encoding by one or two bytes with padding |
| `Base64.TableIsAlphabet` | services/dbms/src/distributed_bms.cpp:62-68 | The table is the base 64 alphabet |
| `Base64.GetMediaBase64` | services/dbms/src/distributed_bms.cpp:502-512 | The data URI for a positive 64-bit length, refused otherwise; a length narrowed to 32 bits yields the encoding of the first bytes only; reading the result as a C string loses nothing |
| `Rpc.AbilityInfoIsTransparent` | interfaces/inner_api/src/distributed_bms_proxy.cpp:123-162 | For every service and all arguments, with or without ACL record and through the fallback code, the remote call gives the result and output of the direct one, as far as the request fits into a parcel |
| `Rpc.AbilityInfosIsTransparent` | interfaces/inner_api/src/distributed_bms_proxy.cpp:171-210 | The same for vectors: exactly ten elements at most, a longer vector gives the parcel error, outputs are appended to the caller's vector |
| `Rpc.RemoteAbilityInfoIsTransparent` | interfaces/inner_api/src/distributed_bms_proxy.cpp:41-72 | The same, behind the check of the element name |
| `Rpc.RemoteAbilityInfosIsTransparent` | interfaces/inner_api/src/distributed_bms_proxy.cpp:81-114 | The same for vectors, behind the check of every element name, the first failing one deciding |
| `Rpc.FirstIncompleteNameDecides` | interfaces/inner_api/src/distributed_bms_proxy.cpp:399-414 | The names of a vector pass the check if and only if bundle, ability and device are given in each; otherwise the first incomplete name decides, with the code of its first empty field |
| `Rpc.CodeOfName` | interfaces/inner_api/src/distributed_bms_proxy.cpp:399-414 | The three codes by the first empty field |
| `Rpc.StrangersAreTurnedAway` | services/dbms/src/distributed_bms_host.cpp:48-53 | A wrong or missing interface token, or an unknown code, is answered without the service |
| `Rpc.OlderCodesAreAliases` | services/dbms/src/distributed_bms_host.cpp:55-66 | The codes without locale are served like those with it |
| `Rpc.VectorIsReadIff` | services/dbms/src/distributed_bms_host.cpp:310-328 | A vector is read if and only if its size is from zero to ten and that many elements follow, and then exactly |
| `Rpc.UnreadableRequestsAreRefused` | services/dbms/src/distributed_bms_host.cpp:82-115 | A request whose element or vector cannot be read gets the parcel error and does not reach the service |
| `Rpc.UnreadableAclIsRefused` | services/dbms/src/distributed_bms_host.cpp:152-158 | So does one whose announced or mandatory ACL record cannot be read |
| `Rpc.UnreadableVectorAclIsRefused` | services/dbms/src/distributed_bms_host.cpp:193-199 | The same for vector requests |
| `Rpc.BrokenAclIsRefused` | interfaces/inner_api/src/distributed_bms_acl_info.cpp:24-43 | An ACL record without its mark, its user or its token identifier is refused |
| `Rpc.MissingInfoOnTheWire` | services/dbms/src/distributed_bms_host.cpp:223-227 | A bundle info that is not found is an invalid operation on the wire |
| `Rpc.UnreadableRepliesAreRefused` | interfaces/inner_api/src/distributed_bms_proxy.cpp:338-347 | A reply without its mark or its info is an error and leaves the output alone |
| `Rpc.AnnouncedInfosAreAppended` | interfaces/inner_api/src/distributed_bms_proxy.cpp:364-380 | Whatever number a reply announces: that many infos are appended, or those that are there with the parcel error |
| `Rpc.BundleInfoIsTransparent` | interfaces/inner_api/src/distributed_bms_proxy.cpp:212-235 | The same for the info of a distributed bundle |
| `Rpc.BundleNameIsTransparent` | interfaces/inner_api/src/distributed_bms_proxy.cpp:237-259 | The same for the bundle name by access token |
| `Rpc.RemoteVersionIsTransparent` | interfaces/inner_api/src/distributed_bms_proxy.cpp:261-284 | The same for a remote version code |
| `Rpc.VersionIsTransparent` | interfaces/inner_api/src/distributed_bms_proxy.cpp:286-309 | The same for a version code with a mandatory ACL record |
| `Rpc.VectorArrives` | services/dbms/src/distributed_bms_host.cpp:310-328 | The host reads back a written vector exactly, and refuses it exactly when it has more than ten elements |
| `Rpc.AbilitiesArrive` | interfaces/inner_api/src/distributed_bms_proxy.cpp:353-381 | The proxy appends exactly the infos the host wrote, for every number that fits |
| `Rpc.OptionalAclRoundTrip` | services/dbms/src/distributed_bms_host.cpp:144-158 | The optional ACL record is read back as it was written, absent or present |
| `Parcels.AclRoundTrip` | interfaces/inner_api/src/distributed_bms_acl_info.cpp:24-53 | Unmarshalling inverts marshalling of the ACL record in front of any further items |
| `Parcels.MessageParcel.WriteAcl` | interfaces/inner_api/src/distributed_bms_acl_info.cpp:45-53 | Marshalling step by step appends the flattened record, or fails when the parcel is full |
| `Parcels.MessageParcel.ReadAclFields` | interfaces/inner_api/src/distributed_bms_acl_info.cpp:24-32 | Reading the fields moves the cursor over exactly what the specification takes, and fails only at the two numbers |
| `HostAndProxy.DistributedBmsHost.OnRemoteRequest` | services/dbms/src/distributed_bms_host.cpp:43-80 | Token check, dispatch and handlers compute the specified answer; a wrong token and an unknown code have their own codes and leave the reply empty |
| `HostAndProxy.DistributedBmsHost.GetElements` | services/dbms/src/distributed_bms_host.cpp:310-328 | The bounded vector loop reads what the specification takes |
| `HostAndProxy.DistributedBmsHost.WriteAbilities` | services/dbms/src/distributed_bms_host.cpp:293-308 | The vector loop writes size and items, or fails when the parcel is full |
| `HostAndProxy.DistributedBmsProxy.SendRequest` | interfaces/inner_api/src/distributed_bms_proxy.cpp:383-397 | A transaction with the host behind the remote object, or an error without one |
| `HostAndProxy.DistributedBmsProxy.ReadAbilities` | interfaces/inner_api/src/distributed_bms_proxy.cpp:369-380 | The append loop over the reply; infos before an unreadable one stay appended |
| `HostAndProxy.DistributedBmsProxy.GetRemoteAbilityInfo` | interfaces/inner_api/src/distributed_bms_proxy.cpp:41-72 | Writing step by step with an early exit at each failed write: with a remote the call on the object gives result and output of the direct call, as far as the request fits into a parcel, behind the check of the name; without a remote its own error, the output untouched |
| `HostAndProxy.DistributedBmsProxy.GetRemoteAbilityInfos` | interfaces/inner_api/src/distributed_bms_proxy.cpp:81-114 | The loops that check, write and append: with a remote the call on the object is transparent for up to ten elements and answers the parcel error above; without a remote its own error, the output untouched |
| `HostAndProxy.DistributedBmsProxy.GetAbilityInfo` | interfaces/inner_api/src/distributed_bms_proxy.cpp:123-162 | With the optional ACL record and the fallback request: with a remote the call on the object gives result and output of the direct call, as far as the request fits into a parcel; without a remote its own error, the output untouched |
| `HostAndProxy.DistributedBmsProxy.GetAbilityInfos` | interfaces/inner_api/src/distributed_bms_proxy.cpp:171-210 | The same for vectors of up to ten elements, with the parcel error above; without a remote its own error, the output untouched |
| `HostAndProxy.DistributedBmsProxy.GetDistributedBundleInfo` | interfaces/inner_api/src/distributed_bms_proxy.cpp:212-235 | Step by step, with a flag for every failure: with a remote the call on the object gives result and output of the direct call, as far as the request fits into a parcel; without a remote its own error, the output untouched |
| `HostAndProxy.DistributedBmsProxy.GetDistributedBundleName` | interfaces/inner_api/src/distributed_bms_proxy.cpp:237-259 | Step by step: with a remote the call on the object gives result and output of the direct call, as far as the request fits into a parcel; without a remote its own error, the output untouched |
| `HostAndProxy.DistributedBmsProxy.GetRemoteBundleVersionCode` | interfaces/inner_api/src/distributed_bms_proxy.cpp:261-284 | Step by step: with a remote the call on the object gives result and output of the direct call, as far as the request fits into a parcel; without a remote its own error, the output untouched |
| `HostAndProxy.DistributedBmsProxy.GetBundleVersionCode` | interfaces/inner_api/src/distributed_bms_proxy.cpp:286-309 | Step by step, with the mandatory ACL record: with a remote the call on the object gives result and output of the direct call, as far as the request fits into a parcel; without a remote its own error, the output untouched |
| `AbilityQuery.BatchThroughTheWire` | services/dbms/src/distributed_bms.cpp:471-491 | Through proxy and host, for every caller and size: the parcel error for a batch too large, the permission code for a refused caller, the first failing guard's code, each with the client's vector unchanged; otherwise one info per element is appended, in order, with element, label and icon each in its place |
| `AbilityQuery.QueryFromExactly` | services/dbms/src/distributed_bms.cpp:480-490 | The loop stops at the first element that fails and has then collected exactly the ones before it |
| `AbilityQuery.OwnElement` | services/dbms/src/distributed_bms.cpp:404-406 | A successful answer carries the element that was asked for |
| `AbilityQuery.GetAbilityInfos` | services/dbms/src/distributed_bms.cpp:471-491 | A refused caller gets the permission code; otherwise one answer for each of the first elements, in order, with element, label and icon each in its place, and the code of the first failing guard of the first element that has one |
| `AbilityQuery.QueryOneAnswers` | services/dbms/src/distributed_bms.cpp:371-445 | One query guard by guard: each guard its own code, and when all are passed the element asked for, the label of the first ability in the language asked for, and its icon |

## Left out

- Permission, token and ACL checks, account and device-manager lookups: parameters with one arbitrary answer per call, so a user switch between the two account lookups of one save is not modelled.
- `DistributedBms::GetDistributedBundleInfo` (services/dbms/src/distributed_bms.cpp:514-526) returns its permission error code through a `bool`, that is as success; the service behind the host is arbitrary here, so this is not a statement of the model.
- Image decoding, scaling and the choice of the image type: the icon of an ability is an arbitrary answer; only its Base64 step is modelled.
- Internals of the key/value store, IPC and JSON libraries: a store request is done, refused or lost; scan order is arbitrary; a synchronisation is last-writer-wins per key; `FromJsonString` inverts `ToString` and rejects other texts; primitive parcel items are lossless; conversion between UTF-8 and UTF-16 is the identity.
- The key/value store's automatic merging of device identifiers into keys, conflict handlers other than last-writer-wins, and eviction are not part of this model.
- The macros `CONTAINER_SECURITY_VERIFY` and `READ_PARCEL_AND_RETURN_FALSE_IF_FAIL` are not part of this model: the first is taken never to refuse a vector that was written, the second to return false when the read fails.
- Numbers of error codes, `INVALID_USERID`, `START_USERID` and transaction codes come from other components; the model only uses which of them differ.
- Concurrency inside the storage object: events and lookups are handled one at a time, and the connection is not lost during one of them. The client's threads are interleaved in full.
- The storage constructor's two attempts to connect, the destructor, sleeps between attempts and time-outs: a wait is over at an arbitrary moment, which decides which completions have arrived.
- The client's failed allocations and a cast proxy without remote object: taken not to occur. A return releases both mutexes in one step.
- A death recipient added to a remote that is already dead is taken to be refused without notice.
- Behaviour of hosts that know only the older transaction codes: the fallback is proved against the host shown.
- Overloads without a locale argument only delegate and are not separate members; the proxy's calls `GetRemoteAbilityInfo` and so on inside the client only forward.
- `GetRemoteAbilityInfo` and `GetRemoteAbilityInfos` of the service, which call another device's service: behind the host they are arbitrary functions.
- Event reporting, logging, watchdog timers, service registration, language bindings, tests and build files.
- Base64.EncodeBase64: needs a positive length whose output size plus one fits a 32-bit signed integer; outside that the source's arithmetic and stores have no defined result.
- Base64.GetMediaBase64: excludes positive 64-bit lengths that narrow to a length outside that range, for the same reason; narrowing itself is modelled.
- Monitor.EveryReachableStateIsConsistent: takes the active user to be valid, the store connected, each event's requests finally successful, and the first table to file under an own key only infos of that bundle; what faults leave behind is stated by `Reconcile.ReconcileUnderFaults` and `Reconcile.ReconcileHeals`, and the missing user by `Monitor.InstallThenRemoveIsCleanIff`. An undecodable text under a key counts as no entry.
- Replicas.FleetIsSafe: takes the bundle managers to know no bundle whose name contains a device's identifier, the condition `Reconcile.ForeignEntryDeletedIff` shows necessary.
- Replicas.EventContinuesRun: takes published bundle names not to contain the device's own identifier, for the same reason; a fleet keeps this by itself.
- Rpc.AbilityInfosIsTransparent: takes parcels to hold fewer than two to the power of 31 items, so that a vector's size is not truncated.
- Bundles.ModuleMap.Add: the ordered map is an association list searched from the front, not a balanced tree.
