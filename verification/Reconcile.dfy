/**
 What the incremental reconcile achieves.  The reference is `Rebuild`: drop every entry
 of a bundle that is gone and write every listed bundle afresh.  The reconcile skips
 bundles filed with the current update time; the theorems say when that is the same,
 and what is left when requests fail on the way.
 */
module Reconcile {
  import opened Wrappers
  import opened Strings
  import opened Bundles
  import opened KvStore
  import opened TableSteps

  /** Two tables agree on a key. */
  predicate Same(s: Table, t: Table, k: string) {
    (k in s <==> k in t) && (k in s ==> s[k] == t[k])
  }

  ghost predicate UniqueNames(bundles: seq<BundleInfo>) {
    forall i, j | 0 <= i < j < |bundles| :: bundles[i].name != bundles[j].name
  }

  /** Every decodable entry the scan takes for its own sits under the key of its own bundle. */
  ghost predicate LocalWF(entries: Table, u: string) {
    forall k | k in entries && Contains(k, u) && entries[k].Json? ::
      k == DeviceAndNameToKey(u, entries[k].info.bundleName)
  }

  /** The weaker half of it: what sits under the key of an own bundle is an info of that bundle. */
  ghost predicate OwnKeysFit(entries: Table, u: string) {
    forall n ::
      var key := DeviceAndNameToKey(u, n);
      key in entries && entries[key].Json? ==> entries[key].info.bundleName == n
  }

  lemma LocalWFFits(entries: Table, u: string)
    requires LocalWF(entries, u)
    ensures OwnKeysFit(entries, u)
  {
    forall n ensures var key := DeviceAndNameToKey(u, n);
                     key in entries && entries[key].Json? ==> entries[key].info.bundleName == n
    {
      var key := DeviceAndNameToKey(u, n);
      OwnKey(u, n);
      if key in entries && entries[key].Json? {
        SameKey(u, n, entries[key].info.bundleName);
      }
    }
  }

  /** Equal update times mean equal contents, for the listed bundles and what is filed under them. */
  ghost predicate TimesDetermine(entries: Table, u: string, bundles: seq<BundleInfo>) {
    forall b | b in bundles && !b.singleton && Filed(entries, u, b) ::
      Publishes(entries[DeviceAndNameToKey(u, b.name)].info, b)
  }

  /** The table has the present info of the bundle, field by field. */
  ghost predicate AsPublished(entries: Table, u: string, b: BundleInfo) {
    var key := DeviceAndNameToKey(u, b.name);
    key in entries && entries[key].Json? && Publishes(entries[key].info, b)
  }

  predicate Filed(entries: Table, u: string, b: BundleInfo) {
    var key := DeviceAndNameToKey(u, b.name);
    key in entries && entries[key].Json? && entries[key].info.updateTime == b.updateTime
  }

  ghost function DoomedKeys(entries: Table, u: string, names: seq<string>): set<string> {
    set k | k in entries && Doomed(Entry(k, entries[k]), u, names)
  }

  function WritesOf(bundles: seq<BundleInfo>, u: string, known: OldInfos): Table {
    if bundles == [] then map[]
    else if NeedsPut(bundles[0], known) then
      map[DeviceAndNameToKey(u, bundles[0].name) := Json(Convert(bundles[0]))] + WritesOf(bundles[1..], u, known)
    else WritesOf(bundles[1..], u, known)
  }

  /** The full rebuild. */
  ghost function Rebuild(entries: Table, u: string, bundles: seq<BundleInfo>): Table {
    (entries - DoomedKeys(entries, u, Names(bundles))) + WritesOf(bundles, u, map[])
  }

  // ---------------------------------------------------------------------------
  // First phase
  // ---------------------------------------------------------------------------

  ghost function DoomedOf(es: seq<Entry>, u: string, names: seq<string>): set<string> {
    set e | e in es && Doomed(e, u, names) :: e.key
  }

  function CollectFrom(es: seq<Entry>, u: string, names: seq<string>, known: OldInfos): OldInfos {
    if es == [] then known
    else if Kept(es[0], u, names) then CollectFrom(es[1..], u, names, Emplace(known, es[0].value.info))
    else CollectFrom(es[1..], u, names, known)
  }

  lemma {:induction false} ScanPhase(f: Faults, run: Run, es: seq<Entry>, u: string, names: seq<string>, known: OldInfos)
    ensures var (known', run') := ScanFrom(f, run, es, u, names, known);
            && known' == CollectFrom(es, u, names, known)
            && (run'.ok ==> run.ok && run'.kv.entries == run.kv.entries - DoomedOf(es, u, names))
            && forall k :: Same(run'.kv.entries, run.kv.entries, k)
                        || (k in DoomedOf(es, u, names) && k !in run'.kv.entries)
    decreases |es|
  {
    if es == [] {
    } else {
      var next := if Doomed(es[0], u, names) then Once(f, run, Delete(es[0].key)) else run;
      var known' := if Kept(es[0], u, names) then Emplace(known, es[0].value.info) else known;
      ScanPhase(f, next, es[1..], u, names, known');
      assert DoomedOf(es, u, names)
          == DoomedOf(es[1..], u, names) + if Doomed(es[0], u, names) then {es[0].key} else {} by {
        assert forall e :: e in es <==> e == es[0] || e in es[1..];
      }
    }
  }

  /** A scan sends requests exactly when it meets a doomed entry. */
  lemma {:induction false} QuietScan(f: Faults, run: Run, es: seq<Entry>, u: string, names: seq<string>, known: OldInfos)
    ensures var run' := ScanFrom(f, run, es, u, names, known).1;
            && |run.kv.log| <= |run'.kv.log|
            && if forall e | e in es :: !Doomed(e, u, names) then run' == run else |run.kv.log| < |run'.kv.log|
    decreases |es|
  {
    if es != [] {
      assert es[0] in es && forall e :: e in es <==> e == es[0] || e in es[1..];
      if Doomed(es[0], u, names) {
        QuietScan(f, Once(f, run, Delete(es[0].key)), es[1..], u, names, known);
      } else {
        QuietScan(f, run, es[1..], u, names, if Kept(es[0], u, names) then Emplace(known, es[0].value.info) else known);
      }
    }
  }

  lemma {:induction false} Collected(es: seq<Entry>, u: string, names: seq<string>, known: OldInfos, n: string)
    ensures var c := CollectFrom(es, u, names, known);
            && (n in known ==> n in c && c[n] == known[n])
            && (n in c && n !in known ==>
                  exists e | e in es :: Kept(e, u, names) && e.value.info.bundleName == n && c[n] == e.value.info)
            && ((exists e | e in es :: Kept(e, u, names) && e.value.info.bundleName == n) ==> n in c)
    decreases |es|
  {
    if es != [] {
      var known' := if Kept(es[0], u, names) then Emplace(known, es[0].value.info) else known;
      Collected(es[1..], u, names, known', n);
      assert forall e :: e in es <==> e == es[0] || e in es[1..];
    }
  }

  /** Of several entries that name a bundle, the first in scan order is collected. */
  lemma {:induction false} FirstFiledWins(es: seq<Entry>, u: string, names: seq<string>, known: OldInfos, n: string)
    requires n in names && n !in known
    ensures var c := CollectFrom(es, u, names, known);
            n in c ==> exists i | 0 <= i < |es| ::
                         && FiledUnder(es[i], u, n) && c[n] == es[i].value.info
                         && forall j | 0 <= j < i :: !FiledUnder(es[j], u, n)
    decreases |es|
  {
    if es != [] {
      var known' := if Kept(es[0], u, names) then Emplace(known, es[0].value.info) else known;
      if FiledUnder(es[0], u, n) {
        Collected(es[1..], u, names, known', n);
      } else {
        FirstFiledWins(es[1..], u, names, known', n);
        var c := CollectFrom(es, u, names, known);
        if n in c {
          var i :| 0 <= i < |es[1..]| && FiledUnder(es[1..][i], u, n) && c[n] == es[1..][i].value.info
                   && forall j | 0 <= j < i :: !FiledUnder(es[1..][j], u, n);
          assert es[i + 1] == es[1..][i] && forall j | 0 < j <= i :: es[j] == es[1..][j - 1];
        }
      }
    }
  }

  predicate FiledUnder(e: Entry, u: string, n: string) {
    Contains(e.key, u) && e.value.Json? && e.value.info.bundleName == n
  }

  lemma OwnKey(u: string, n: string)
    ensures Contains(DeviceAndNameToKey(u, n), u)
  {
    assert OccursAt(DeviceAndNameToKey(u, n), u, 0);
  }

  lemma SameKey(u: string, n: string, n': string)
    requires DeviceAndNameToKey(u, n) == DeviceAndNameToKey(u, n')
    ensures n == n'
  {
    KeyInjective(u, n, u, n');
  }

  /** On a well-formed store the collected infos are the filed ones, whatever the scan order. */
  lemma CollectedExactly(entries: Table, es: seq<Entry>, u: string, names: seq<string>, n: string)
    requires LocalWF(entries, u) && IsScan(es, entries)
    ensures var c := CollectFrom(es, u, names, map[]);
            var key := DeviceAndNameToKey(u, n);
            && (n in c <==> n in names && key in entries && entries[key].Json?)
            && (n in c ==> c[n] == entries[key].info)
  {
    var key := DeviceAndNameToKey(u, n);
    Collected(es, u, names, map[], n);
    OwnKey(u, n);
    if n in names && key in entries && entries[key].Json? {
      SameKey(u, n, entries[key].info.bundleName);
      assert Kept(Entry(key, entries[key]), u, names);
    }
  }

  lemma DoomedOfScan(entries: Table, es: seq<Entry>, u: string, names: seq<string>)
    requires IsScan(es, entries)
    ensures DoomedOf(es, u, names) == DoomedKeys(entries, u, names)
  {
    forall k | k in DoomedOf(es, u, names) ensures k in DoomedKeys(entries, u, names) {
      var e :| e in es && Doomed(e, u, names) && e.key == k;
      assert e == Entry(k, entries[k]);
    }
    forall k | k in DoomedKeys(entries, u, names) ensures k in DoomedOf(es, u, names) {
      assert Entry(k, entries[k]) in es;
    }
  }

  // ---------------------------------------------------------------------------
  // Second phase
  // ---------------------------------------------------------------------------

  lemma {:induction false} WritesExactly(bundles: seq<BundleInfo>, u: string, known: OldInfos, k: string)
    requires UniqueNames(bundles)
    ensures var w := WritesOf(bundles, u, known);
            && (forall b | b in bundles && k == DeviceAndNameToKey(u, b.name) ::
                  (k in w <==> NeedsPut(b, known)) && (k in w ==> w[k] == Json(Convert(b))))
            && (k in w ==> exists b | b in bundles :: k == DeviceAndNameToKey(u, b.name))
    decreases |bundles|
  {
    if bundles != [] {
      WritesExactly(bundles[1..], u, known, k);
      assert forall b :: b in bundles <==> b == bundles[0] || b in bundles[1..];
      forall b | b in bundles[1..] && k == DeviceAndNameToKey(u, b.name) && k == DeviceAndNameToKey(u, bundles[0].name)
        ensures false
      {
        SameKey(u, b.name, bundles[0].name);
      }
    }
  }

  lemma {:induction false} PutPhase(f: Faults, run: Run, bundles: seq<BundleInfo>, u: string, known: OldInfos)
    requires UniqueNames(bundles)
    ensures var run' := PutFrom(f, run, bundles, Some(u), known);
            var w := WritesOf(bundles, u, known);
            && (run'.ok ==> run.ok && run'.kv.entries == run.kv.entries + w)
            && forall k :: Same(run'.kv.entries, run.kv.entries, k)
                        || (k in w && k in run'.kv.entries && run'.kv.entries[k] == w[k])
    decreases |bundles|
  {
    if bundles != [] {
      var b := bundles[0];
      var key := DeviceAndNameToKey(u, b.name);
      if NeedsPut(b, known) {
        RetryHasSingleEffect(f, run.kv, Put(key, Json(Convert(b))));
        var next := PublishStep(f, run, Some(u), Convert(b));
        PutPhase(f, next, bundles[1..], u, known);
        var w, w1 := WritesOf(bundles, u, known), WritesOf(bundles[1..], u, known);
        assert key !in w1 by {
          WritesExactly(bundles[1..], u, known, key);
          if key in w1 {
            var b' :| b' in bundles[1..] && key == DeviceAndNameToKey(u, b'.name);
            SameKey(u, b.name, b'.name);
          }
        }
        var end := PutFrom(f, next, bundles[1..], Some(u), known).kv.entries;
        forall k ensures Same(end, run.kv.entries, k) || (k in w && k in end && end[k] == w[k]) {
          assert Same(end, next.kv.entries, k) || (k in w1 && k in end && end[k] == w1[k]);
        }
        if next.ok {
          assert run.kv.entries[key := Json(Convert(b))] + w1 == run.kv.entries + w;
        }
      } else {
        PutPhase(f, run, bundles[1..], u, known);
      }
    }
  }

  /** The second loop sends requests exactly when a bundle needs one. */
  lemma {:induction false} QuietPuts(f: Faults, run: Run, bundles: seq<BundleInfo>, u: string, known: OldInfos)
    ensures var run' := PutFrom(f, run, bundles, Some(u), known);
            && |run.kv.log| <= |run'.kv.log|
            && if forall b | b in bundles :: !NeedsPut(b, known) then run' == run else |run.kv.log| < |run'.kv.log|
    decreases |bundles|
  {
    if bundles != [] {
      assert bundles[0] in bundles && forall b :: b in bundles <==> b == bundles[0] || b in bundles[1..];
      if NeedsPut(bundles[0], known) {
        var r := Put(DeviceAndNameToKey(u, bundles[0].name), Json(Convert(bundles[0])));
        RetryHasSingleEffect(f, run.kv, r);
        QuietPuts(f, Twice(f, run, r), bundles[1..], u, known);
      } else {
        QuietPuts(f, run, bundles[1..], u, known);
      }
    }
  }

  // ---------------------------------------------------------------------------
  // The whole reconcile
  // ---------------------------------------------------------------------------

  /** The lookups of a reconcile succeed: the identifier is `u`, the listing is `bundles`. */
  ghost predicate Looks(env: Env, userId: int, u: string, bundles: seq<BundleInfo>) {
    && env.localUdid == Some(u)
    && env.bundleMgr.Some? && userId in env.bundleMgr.value.listing
    && env.bundleMgr.value.listing[userId] == bundles
    && UniqueNames(bundles)
  }

  lemma ListedName(bundles: seq<BundleInfo>, b: BundleInfo)
    requires b in bundles
    ensures b.name in Names(bundles)
  {
    var i :| 0 <= i < |bundles| && bundles[i] == b;
    assert Names(bundles)[i] == b.name;
  }

  lemma NameIsListed(bundles: seq<BundleInfo>, n: string)
    requires n in Names(bundles)
    ensures exists b | b in bundles :: b.name == n
  {
    var i :| 0 <= i < |bundles| && Names(bundles)[i] == n;
    assert bundles[i] in bundles;
  }

  /** What happened to a key: nothing, deletion of a doomed entry, or the write of a listed bundle. */
  lemma ReconcileShape(f: Faults, run: Run, env: Env, userId: int, u: string, bundles: seq<BundleInfo>, es: seq<Entry>)
    requires Looks(env, userId, u, bundles) && IsScan(es, run.kv.entries)
    ensures var run' := UpdateStep(f, run, env, userId, es);
            var known := OldInfosStep(f, run, env, Names(bundles), es).0;
            var doomed := DoomedKeys(run.kv.entries, u, Names(bundles));
            var w := WritesOf(bundles, u, known);
            && known == (if ScanSucceeds(f, run) then CollectFrom(es, u, Names(bundles), map[]) else map[])
            && (run'.ok ==> run.ok && ScanSucceeds(f, run) && run'.kv.entries == run.kv.entries - doomed + w)
            && forall k :: Same(run'.kv.entries, run.kv.entries, k)
                        || (k in doomed && k !in run'.kv.entries)
                        || (k in w && k in run'.kv.entries && run'.kv.entries[k] == w[k])
  {
    var names := Names(bundles);
    var (known, run1) := OldInfosStep(f, run, env, names, es);
    var kv1 := Issue(f, run.kv, GetEntries).1;
    ScanPhase(f, Run(kv1, run.ok), es, u, names, map[]);
    DoomedOfScan(run.kv.entries, es, u, names);
    PutPhase(f, run1, bundles, u, known);
    var end := PutFrom(f, run1, bundles, Some(u), known).kv.entries;
    forall k ensures Same(end, run.kv.entries, k)
                  || (k in DoomedKeys(run.kv.entries, u, names) && k !in end)
                  || (k in WritesOf(bundles, u, known) && k in end && end[k] == WritesOf(bundles, u, known)[k])
    {
      assert Same(end, run1.kv.entries, k)
          || (k in WritesOf(bundles, u, known) && k in end && end[k] == WritesOf(bundles, u, known)[k]);
      assert Same(run1.kv.entries, run.kv.entries, k)
          || (k in DoomedKeys(run.kv.entries, u, names) && k !in run1.kv.entries);
    }
  }

  /** The entry scan, the first request of a reconcile, succeeds. */
  predicate ScanSucceeds(f: Faults, run: Run) {
    f(|run.kv.log|).Done?
  }

  /** A doomed own key is the key of a bundle that is not listed. */
  lemma FittingDoomedIsUnlisted(entries: Table, u: string, bundles: seq<BundleInfo>, b: BundleInfo)
    requires OwnKeysFit(entries, u) && b in bundles
    ensures DeviceAndNameToKey(u, b.name) !in DoomedKeys(entries, u, Names(bundles))
  {
    ListedName(bundles, b);
  }

  lemma DoomedIsUnlisted(entries: Table, u: string, bundles: seq<BundleInfo>, b: BundleInfo)
    requires LocalWF(entries, u) && b in bundles
    ensures DeviceAndNameToKey(u, b.name) !in DoomedKeys(entries, u, Names(bundles))
  {
    LocalWFFits(entries, u);
    FittingDoomedIsUnlisted(entries, u, bundles, b);
  }

  /** Which writes the incremental form skips, compared with the rebuild. */
  lemma SkippedWrites(entries: Table, es: seq<Entry>, u: string, bundles: seq<BundleInfo>, k: string)
    requires LocalWF(entries, u) && IsScan(es, entries) && UniqueNames(bundles)
    ensures var known := CollectFrom(es, u, Names(bundles), map[]);
            var w, all := WritesOf(bundles, u, known), WritesOf(bundles, u, map[]);
            && (k in w ==> k in all && w[k] == all[k])
            && (k in all && k !in w ==>
                  exists b | b in bundles :: !b.singleton && k == DeviceAndNameToKey(u, b.name)
                                             && Filed(entries, u, b) && all[k] == Json(Convert(b)))
            && (forall b | b in bundles && !b.singleton && k == DeviceAndNameToKey(u, b.name) && Filed(entries, u, b) ::
                  k in all && k !in w && all[k] == Json(Convert(b)))
  {
    var known := CollectFrom(es, u, Names(bundles), map[]);
    WritesExactly(bundles, u, known, k);
    WritesExactly(bundles, u, map[], k);
    forall b | b in bundles && k == DeviceAndNameToKey(u, b.name)
      ensures !b.singleton ==> (NeedsPut(b, known) <==> !Filed(entries, u, b))
    {
      ListedName(bundles, b);
      CollectedExactly(entries, es, u, Names(bundles), b.name);
    }
  }

  /**
   The incremental reconcile, when its requests succeed, leaves exactly the table of a
   full rebuild, if and only if an equal update time never hides different contents.
   */
  lemma ReconcileIsRebuild(f: Faults, run: Run, env: Env, userId: int, u: string, bundles: seq<BundleInfo>, es: seq<Entry>)
    requires Looks(env, userId, u, bundles) && IsScan(es, run.kv.entries) && LocalWF(run.kv.entries, u)
    requires UpdateStep(f, run, env, userId, es).ok
    ensures UpdateStep(f, run, env, userId, es).kv.entries == Rebuild(run.kv.entries, u, bundles)
       <==> TimesDetermine(run.kv.entries, u, bundles)
  {
    var E := run.kv.entries;
    var end := UpdateStep(f, run, env, userId, es).kv.entries;
    var known := CollectFrom(es, u, Names(bundles), map[]);
    var w, all := WritesOf(bundles, u, known), WritesOf(bundles, u, map[]);
    var kept := E - DoomedKeys(E, u, Names(bundles));
    ReconcileShape(f, run, env, userId, u, bundles, es);
    assert end == kept + w && Rebuild(E, u, bundles) == kept + all;
    if TimesDetermine(E, u, bundles) {
      forall k ensures Same(end, Rebuild(E, u, bundles), k) {
        SkippedWrites(E, es, u, bundles, k);
        if k in all && k !in w {
          var b :| b in bundles && !b.singleton && k == DeviceAndNameToKey(u, b.name)
                   && Filed(E, u, b) && all[k] == Json(Convert(b));
          PublishesExactly(E[k].info, b);
          DoomedIsUnlisted(E, u, bundles, b);
        }
      }
      SameEverywhere(end, Rebuild(E, u, bundles));
    } else {
      var b :| b in bundles && !b.singleton && Filed(E, u, b)
               && !Publishes(E[DeviceAndNameToKey(u, b.name)].info, b);
      var k := DeviceAndNameToKey(u, b.name);
      PublishesExactly(E[k].info, b);
      SkippedWrites(E, es, u, bundles, k);
      DoomedIsUnlisted(E, u, bundles, b);
      assert end[k] == E[k] != Rebuild(E, u, bundles)[k];
    }
  }

  lemma SameEverywhere(s: Table, t: Table)
    requires forall k :: Same(s, t, k)
    ensures s == t
  {
    assert forall k :: Same(s, t, k) ==> (k in s <==> k in t);
    assert s.Keys == t.Keys;
    forall k | k in s ensures s[k] == t[k] {
      assert Same(s, t, k);
    }
  }

  /** The rebuilt table, read off without its construction. */
  lemma RebuildMeaning(entries: Table, u: string, bundles: seq<BundleInfo>)
    requires LocalWF(entries, u) && UniqueNames(bundles)
    ensures var r := Rebuild(entries, u, bundles);
            && (forall b | b in bundles ::
                  var key := DeviceAndNameToKey(u, b.name);
                  if b.singleton then Same(r, entries, key) else AsPublished(r, u, b))
            && (forall k | k in r && Contains(k, u) && r[k].Json? :: r[k].info.bundleName in Names(bundles))
            && (forall k | !Contains(k, u) :: Same(r, entries, k))
            && LocalWF(r, u)
  {
    var r := Rebuild(entries, u, bundles);
    var all := WritesOf(bundles, u, map[]);
    forall b | b in bundles
      ensures var key := DeviceAndNameToKey(u, b.name);
              if b.singleton then Same(r, entries, key) else AsPublished(r, u, b)
    {
      var key := DeviceAndNameToKey(u, b.name);
      PublishesExactly(Convert(b), b);
      WritesExactly(bundles, u, map[], key);
      DoomedIsUnlisted(entries, u, bundles, b);
    }
    forall k
      ensures k in r && Contains(k, u) && r[k].Json? ==>
                r[k].info.bundleName in Names(bundles) && k == DeviceAndNameToKey(u, r[k].info.bundleName)
      ensures !Contains(k, u) ==> Same(r, entries, k)
    {
      WritesExactly(bundles, u, map[], k);
      if k in all {
        var b :| b in bundles && k == DeviceAndNameToKey(u, b.name);
        OwnKey(u, b.name);
        ListedName(bundles, b);
      }
    }
  }

  /**
   At every key but those of listed bundles that are no singletons, the rebuild keeps what
   was there, undecodable texts included, except decodable entries that the substring test
   takes for own ones and whose bundle is not listed; and it invents nothing.
   */
  lemma RebuildElsewhere(entries: Table, u: string, bundles: seq<BundleInfo>, k: string)
    requires UniqueNames(bundles)
    requires forall b | b in bundles && !b.singleton :: k != DeviceAndNameToKey(u, b.name)
    ensures var r := Rebuild(entries, u, bundles);
            && (k in r <==> k in entries && (Contains(k, u) && entries[k].Json? ==> entries[k].info.bundleName in Names(bundles)))
            && (k in r ==> r[k] == entries[k])
  {
    WritesExactly(bundles, u, map[], k);
  }

  /** Whatever was collected, a write is one of the rebuild's. */
  lemma WritesAreRebuilds(bundles: seq<BundleInfo>, u: string, known: OldInfos, k: string)
    requires UniqueNames(bundles) && k in WritesOf(bundles, u, known)
    ensures k in WritesOf(bundles, u, map[]) && WritesOf(bundles, u, map[])[k] == WritesOf(bundles, u, known)[k]
  {
    WritesExactly(bundles, u, known, k);
    WritesExactly(bundles, u, map[], k);
  }

  /**
   Under any faults and whatever the table holds, a reconcile never touches a key in which
   its own identifier does not occur; and if only the own keys fit their contents, it moves
   each key to its rebuilt value or not at all.
   */
  lemma ReconcileUnderFaults(f: Faults, run: Run, env: Env, userId: int, u: string, bundles: seq<BundleInfo>, es: seq<Entry>, k: string)
    requires Looks(env, userId, u, bundles) && IsScan(es, run.kv.entries)
    ensures var end := UpdateStep(f, run, env, userId, es).kv.entries;
            && (!Contains(k, u) ==> Same(end, run.kv.entries, k))
            && (OwnKeysFit(run.kv.entries, u) ==>
                  Same(end, run.kv.entries, k) || Same(end, Rebuild(run.kv.entries, u, bundles), k))
  {
    var E := run.kv.entries;
    var known := OldInfosStep(f, run, env, Names(bundles), es).0;
    ReconcileShape(f, run, env, userId, u, bundles, es);
    if k in WritesOf(bundles, u, known) {
      WritesAreRebuilds(bundles, u, known, k);
    }
    WritesExactly(bundles, u, map[], k);
    if k in WritesOf(bundles, u, map[]) {
      var b :| b in bundles && k == DeviceAndNameToKey(u, b.name);
      OwnKey(u, b.name);
      if OwnKeysFit(E, u) {
        FittingDoomedIsUnlisted(E, u, bundles, b);
      }
    }
  }

  /** A reconcile that met faults is made good by a later one that meets none. */
  lemma ReconcileHeals(f: Faults, run: Run, env: Env, userId: int, u: string, bundles: seq<BundleInfo>, es: seq<Entry>,
                       g: Faults, env': Env, es': seq<Entry>)
    requires Looks(env, userId, u, bundles) && IsScan(es, run.kv.entries) && LocalWF(run.kv.entries, u)
    requires TimesDetermine(run.kv.entries, u, bundles)
    requires var mid := UpdateStep(f, run, env, userId, es);
             && Looks(env', userId, u, bundles) && IsScan(es', mid.kv.entries)
             && UpdateStep(g, Run(mid.kv, true), env', userId, es').ok
    ensures var mid := UpdateStep(f, run, env, userId, es);
            && LocalWF(mid.kv.entries, u) && TimesDetermine(mid.kv.entries, u, bundles)
            && UpdateStep(g, Run(mid.kv, true), env', userId, es').kv.entries == Rebuild(run.kv.entries, u, bundles)
  {
    var E, mid := run.kv.entries, UpdateStep(f, run, env, userId, es).kv.entries;
    var R := Rebuild(E, u, bundles);
    RebuildMeaning(E, u, bundles);
    LocalWFFits(E, u);
    forall k ensures Same(mid, E, k) || Same(mid, R, k) {
      ReconcileUnderFaults(f, run, env, userId, u, bundles, es, k);
    }
    BetweenIsWellFormed(E, mid, u, bundles);
    ReconcileIsRebuild(g, Run(UpdateStep(f, run, env, userId, es).kv, true), env', userId, u, bundles, es');
  }

  /** Every table between a store and its rebuild is well-formed and has the same rebuild. */
  lemma BetweenIsWellFormed(E: Table, mid: Table, u: string, bundles: seq<BundleInfo>)
    requires LocalWF(E, u) && UniqueNames(bundles) && TimesDetermine(E, u, bundles)
    requires forall k :: Same(mid, E, k) || Same(mid, Rebuild(E, u, bundles), k)
    ensures LocalWF(mid, u) && TimesDetermine(mid, u, bundles)
    ensures Rebuild(mid, u, bundles) == Rebuild(E, u, bundles)
  {
    var R := Rebuild(E, u, bundles);
    RebuildMeaning(E, u, bundles);
    forall k | k in mid && Contains(k, u) && mid[k].Json?
      ensures k == DeviceAndNameToKey(u, mid[k].info.bundleName)
    {
      assert Same(mid, E, k) || Same(mid, R, k);
    }
    forall b | b in bundles && !b.singleton && Filed(mid, u, b)
      ensures Publishes(mid[DeviceAndNameToKey(u, b.name)].info, b)
    {
      var key := DeviceAndNameToKey(u, b.name);
      assert Same(mid, E, key) || Same(mid, R, key);
    }
    assert DoomedKeys(R, u, Names(bundles)) == {};
    forall k ensures Same(Rebuild(mid, u, bundles), R, k) {
      assert Same(mid, E, k) || Same(mid, R, k);
      WritesExactly(bundles, u, map[], k);
    }
    SameEverywhere(Rebuild(mid, u, bundles), R);
  }

  /** Nothing to delete, and every bundle that is no singleton is filed with its update time. */
  ghost predicate UpToDate(entries: Table, u: string, bundles: seq<BundleInfo>) {
    && DoomedKeys(entries, u, Names(bundles)) == {}
    && forall b | b in bundles && !b.singleton :: Filed(entries, u, b)
  }

  /** A reconcile sends no put and no delete if and only if the table is up to date. */
  lemma ReconcileOnlyReadsIff(f: Faults, run: Run, env: Env, userId: int, u: string, bundles: seq<BundleInfo>, es: seq<Entry>)
    requires Looks(env, userId, u, bundles) && IsScan(es, run.kv.entries) && LocalWF(run.kv.entries, u)
    requires ScanSucceeds(f, run)
    ensures var run' := UpdateStep(f, run, env, userId, es);
            && (run'.kv.log == run.kv.log + [GetEntries] <==> UpToDate(run.kv.entries, u, bundles))
            && (UpToDate(run.kv.entries, u, bundles) ==> run' == run.(kv := run.kv.(log := run.kv.log + [GetEntries])))
  {
    var E, names := run.kv.entries, Names(bundles);
    var run1 := Run(Issue(f, run.kv, GetEntries).1, run.ok);
    var (known, run2) := OldInfosStep(f, run, env, names, es);
    QuietScan(f, run1, es, u, names, map[]);
    ScanPhase(f, run1, es, u, names, map[]);
    QuietPuts(f, run2, bundles, u, known);
    DoomedOfScan(E, es, u, names);
    assert (forall e | e in es :: !Doomed(e, u, names)) <==> DoomedKeys(E, u, names) == {} by {
      forall e | e in es && Doomed(e, u, names) ensures e.key in DoomedOf(es, u, names) {}
    }
    forall b | b in bundles ensures NeedsPut(b, known) <==> !b.singleton && !Filed(E, u, b) {
      ListedName(bundles, b);
      CollectedExactly(E, es, u, names, b.name);
    }
  }

  /**
   A reconcile brings the table up to date, whether or not update times determine contents:
   after one that succeeded, another of the same listing only reads.
   */
  lemma SecondReconcileOnlyReads(f: Faults, run: Run, env: Env, userId: int, u: string, bundles: seq<BundleInfo>, es: seq<Entry>,
                                 g: Faults, env': Env, es': seq<Entry>)
    requires Looks(env, userId, u, bundles) && IsScan(es, run.kv.entries) && LocalWF(run.kv.entries, u)
    requires UpdateStep(f, run, env, userId, es).ok
    requires var mid := UpdateStep(f, run, env, userId, es).kv;
             Looks(env', userId, u, bundles) && IsScan(es', mid.entries) && ScanSucceeds(g, Run(mid, true))
    ensures var mid := UpdateStep(f, run, env, userId, es).kv;
            UpdateStep(g, Run(mid, true), env', userId, es') == Run(mid.(log := mid.log + [GetEntries]), true)
  {
    var E, mid := run.kv.entries, UpdateStep(f, run, env, userId, es).kv;
    var known := CollectFrom(es, u, Names(bundles), map[]);
    var w := WritesOf(bundles, u, known);
    ReconcileShape(f, run, env, userId, u, bundles, es);
    forall k | k in mid.entries && Contains(k, u) && mid.entries[k].Json?
      ensures k == DeviceAndNameToKey(u, mid.entries[k].info.bundleName)
      ensures !Doomed(Entry(k, mid.entries[k]), u, Names(bundles))
    {
      WritesExactly(bundles, u, known, k);
      if k in w {
        var b :| b in bundles && k == DeviceAndNameToKey(u, b.name);
        ListedName(bundles, b);
      }
    }
    forall b | b in bundles && !b.singleton ensures Filed(mid.entries, u, b) {
      var k := DeviceAndNameToKey(u, b.name);
      WritesExactly(bundles, u, known, k);
      SkippedWrites(E, es, u, bundles, k);
      ListedName(bundles, b);
      CollectedExactly(E, es, u, Names(bundles), b.name);
      DoomedIsUnlisted(E, u, bundles, b);
    }
    ReconcileOnlyReadsIff(g, Run(mid, true), env', userId, u, bundles, es');
  }

  predicate OnlyPuts(requests: seq<Request>) {
    forall r | r in requests :: r.Put?
  }

  lemma OnlyPutsConcat(a: seq<Request>, b: seq<Request>, c: seq<Request>)
    requires a <= b <= c && OnlyPuts(b[|a|..]) && OnlyPuts(c[|b|..])
    ensures OnlyPuts(c[|a|..])
  {
    assert c[|a|..] == b[|a|..] + c[|b|..];
  }

  lemma PublishOnlyPuts(f: Faults, run: Run, udid: Option<string>, info: DistributedBundleInfo)
    ensures var log := PublishStep(f, run, udid, info).kv.log;
            run.kv.log <= log && OnlyPuts(log[|run.kv.log|..])
  {
    if udid.Some? {
      RetryHasSingleEffect(f, run.kv, Put(DeviceAndNameToKey(udid.value, info.bundleName), Json(info)));
    }
  }

  lemma {:induction false} PutsOnlyPut(f: Faults, run: Run, bundles: seq<BundleInfo>, udid: Option<string>, known: OldInfos)
    ensures var log := PutFrom(f, run, bundles, udid, known).kv.log;
            run.kv.log <= log && OnlyPuts(log[|run.kv.log|..])
    decreases |bundles|
  {
    if bundles != [] {
      hide PublishStep, OnlyPuts;
      if NeedsPut(bundles[0], known) {
        var next := PublishStep(f, run, udid, Convert(bundles[0]));
        PublishOnlyPuts(f, run, udid, Convert(bundles[0]));
        PutsOnlyPut(f, next, bundles[1..], udid, known);
        OnlyPutsConcat(run.kv.log, next.kv.log, PutFrom(f, next, bundles[1..], udid, known).kv.log);
      } else {
        PutsOnlyPut(f, run, bundles[1..], udid, known);
      }
    }
  }

  /**
   If the entry scan fails, nothing is deleted and, as far as the puts succeed, every
   listed bundle that is no singleton is written again: a rebuild without its deletions.
   */
  lemma FailedScanRewritesAll(f: Faults, run: Run, env: Env, userId: int, u: string, bundles: seq<BundleInfo>, es: seq<Entry>)
    requires Looks(env, userId, u, bundles) && !ScanSucceeds(f, run)
    ensures var start := Issue(f, run.kv, GetEntries).1;
            var end := UpdateStep(f, run, env, userId, es).kv;
            && !UpdateStep(f, run, env, userId, es).ok
            && start.entries == run.kv.entries
            && start.log <= end.log && OnlyPuts(end.log[|start.log|..])
            && (PutFrom(f, Run(start, true), bundles, Some(u), map[]).ok ==>
                  end.entries == run.kv.entries + WritesOf(bundles, u, map[]))
  {
    var start := Issue(f, run.kv, GetEntries).1;
    PutsOnlyPut(f, Run(start, false), bundles, Some(u), map[]);
    PutPhase(f, Run(start, true), bundles, u, map[]);
    PutPhase(f, Run(start, false), bundles, u, map[]);
    FlagIsPassive(f, start, bundles, Some(u), map[]);
  }

  lemma {:induction false} FlagIsPassive(f: Faults, kv: Kv, bundles: seq<BundleInfo>, udid: Option<string>, known: OldInfos)
    ensures PutFrom(f, Run(kv, false), bundles, udid, known).kv == PutFrom(f, Run(kv, true), bundles, udid, known).kv
    ensures !PutFrom(f, Run(kv, false), bundles, udid, known).ok
    decreases |bundles|
  {
    if bundles != [] {
      if NeedsPut(bundles[0], known) {
        var good := PublishStep(f, Run(kv, true), udid, Convert(bundles[0]));
        FlagIsPassive(f, good.kv, bundles[1..], udid, known);
      } else {
        FlagIsPassive(f, kv, bundles[1..], udid, known);
      }
    }
  }

  /** No write of a device goes to a key of another device. */
  lemma WritesAreOwn(bundles: seq<BundleInfo>, u: string, known: OldInfos, d: string, n: string)
    requires UniqueNames(bundles) && |d| == |u| && d != u
    ensures DeviceAndNameToKey(d, n) !in WritesOf(bundles, u, known)
  {
    var key := DeviceAndNameToKey(d, n);
    WritesExactly(bundles, u, known, key);
    if key in WritesOf(bundles, u, known) {
      var b :| b in bundles && key == DeviceAndNameToKey(u, b.name);
      KeyInjective(d, n, u, b.name);
    }
  }

  /**
   The scan's ownership test on another device's key, with no condition on the rest of the
   table: under any faults that device's entry survives a reconcile unchanged unless the
   name of its bundle contains this device's identifier and is not listed here; and then,
   when the requests succeed, it is deleted.
   */
  lemma ForeignEntryDeletedIff(f: Faults, run: Run, env: Env, userId: int, u: string, bundles: seq<BundleInfo>, es: seq<Entry>,
                               d: string, n: string)
    requires Looks(env, userId, u, bundles) && IsScan(es, run.kv.entries)
    requires IsUdid(u) && |d| == |u| && d != u
    requires DeviceAndNameToKey(d, n) in run.kv.entries && run.kv.entries[DeviceAndNameToKey(d, n)].Json?
    requires run.kv.entries[DeviceAndNameToKey(d, n)].info.bundleName == n
    ensures var run' := UpdateStep(f, run, env, userId, es);
            var key := DeviceAndNameToKey(d, n);
            && (!(Contains(n, u) && n !in Names(bundles)) ==> Same(run'.kv.entries, run.kv.entries, key))
            && (run'.ok ==> (key !in run'.kv.entries <==> Contains(n, u) && n !in Names(bundles)))
  {
    var key := DeviceAndNameToKey(d, n);
    ReconcileShape(f, run, env, userId, u, bundles, es);
    WritesAreOwn(bundles, u, OldInfosStep(f, run, env, Names(bundles), es).0, d, n);
    OwnershipScan(d, n, u);
  }

  /** A failing case: device "a" deletes the entry that device "b" published for a bundle named "a". */
  lemma ForeignEntryLost()
    ensures var info := DistributedBundleInfo("a", 1, 1, "1.0", 1, 1, "app", [], true, 7, 1);
            var entries: Table := map["b_a" := Json(info)];
            var env := Env(START_USERID, Some("a"), Some(BundleMgr(map[], map[START_USERID := []])));
            var run := UpdateStep(_ => Done, Run(Kv(entries, []), true), env, START_USERID, [Entry("b_a", Json(info))]);
            DeviceAndNameToKey("b", "a") == "b_a" && run.ok && run.kv.entries == map[]
  {
    var info := DistributedBundleInfo("a", 1, 1, "1.0", 1, 1, "app", [], true, 7, 1);
    assert OccursAt("b_a", "a", 2);
    assert [Entry("b_a", Json(info))][1..] == [];
  }

  // ---------------------------------------------------------------------------
  // What a reconcile sends
  // ---------------------------------------------------------------------------

  /** One delete for each doomed entry, in scan order. */
  function DeletesOf(es: seq<Entry>, u: string, names: seq<string>): seq<Request> {
    if es == [] then []
    else (if Doomed(es[0], u, names) then [Delete(es[0].key)] else []) + DeletesOf(es[1..], u, names)
  }

  /** One put for each bundle that needs it, in listing order. */
  function PutsOf(bundles: seq<BundleInfo>, u: string, known: OldInfos): seq<Request> {
    if bundles == [] then []
    else
      (if NeedsPut(bundles[0], known) then [Put(DeviceAndNameToKey(u, bundles[0].name), Json(Convert(bundles[0])))] else [])
      + PutsOf(bundles[1..], u, known)
  }

  /** What is sent for one request, the n-th of the connection, that is repeated after a loss. */
  function WithRetry(f: Faults, n: nat, r: Request): seq<Request> {
    if f(n).Lost? then [r, r] else [r]
  }

  function WithRetries(f: Faults, n: nat, rs: seq<Request>): seq<Request>
    decreases |rs|
  {
    if rs == [] then []
    else WithRetry(f, n, rs[0]) + WithRetries(f, n + |WithRetry(f, n, rs[0])|, rs[1..])
  }

  /** Each of k requests sent once is answered with success. */
  predicate EachDone(f: Faults, n: nat, k: nat)
    decreases k
  {
    k == 0 || (f(n).Done? && EachDone(f, n + 1, k - 1))
  }

  /** Each of k requests with one retry is finally answered with success. */
  predicate EachFinallyDone(f: Faults, n: nat, k: nat)
    decreases k
  {
    k == 0 || (FinallyDone(f, n) && EachFinallyDone(f, if f(n).Lost? then n + 2 else n + 1, k - 1))
  }

  lemma {:induction false} ScanRequests(f: Faults, run: Run, es: seq<Entry>, u: string, names: seq<string>, known: OldInfos)
    ensures var run' := ScanFrom(f, run, es, u, names, known).1;
            var deletes := DeletesOf(es, u, names);
            && run'.kv.log == run.kv.log + deletes
            && (run'.ok <==> run.ok && EachDone(f, |run.kv.log|, |deletes|))
    decreases |es|
  {
    if es != [] {
      if Doomed(es[0], u, names) {
        var next := Once(f, run, Delete(es[0].key));
        ScanRequests(f, next, es[1..], u, names, known);
      } else {
        ScanRequests(f, run, es[1..], u, names, if Kept(es[0], u, names) then Emplace(known, es[0].value.info) else known);
        assert DeletesOf(es, u, names) == DeletesOf(es[1..], u, names);
      }
    }
  }

  lemma PublishRequests(f: Faults, run: Run, u: string, b: BundleInfo)
    ensures var run' := PublishStep(f, run, Some(u), Convert(b));
            var r := Put(DeviceAndNameToKey(u, b.name), Json(Convert(b)));
            && run'.kv.log == run.kv.log + WithRetry(f, |run.kv.log|, r)
            && run'.ok == (run.ok && FinallyDone(f, |run.kv.log|))
  {
    PublishMeaning(f, run, Some(u), Convert(b));
  }

  lemma PutsOfCons(bundles: seq<BundleInfo>, u: string, known: OldInfos)
    requires bundles != []
    ensures PutsOf(bundles, u, known) ==
              if NeedsPut(bundles[0], known)
              then [Put(DeviceAndNameToKey(u, bundles[0].name), Json(Convert(bundles[0])))] + PutsOf(bundles[1..], u, known)
              else PutsOf(bundles[1..], u, known)
  {}

  lemma RetriesCons(f: Faults, n: nat, r: Request, rest: seq<Request>)
    ensures WithRetries(f, n, [r] + rest) == WithRetry(f, n, r) + WithRetries(f, n + |WithRetry(f, n, r)|, rest)
    ensures EachFinallyDone(f, n, 1 + |rest|) <==> FinallyDone(f, n) && EachFinallyDone(f, n + |WithRetry(f, n, r)|, |rest|)
  {
    assert ([r] + rest)[1..] == rest;
  }

  lemma {:induction false} PutRequests(f: Faults, run: Run, bundles: seq<BundleInfo>, u: string, known: OldInfos)
    ensures var run' := PutFrom(f, run, bundles, Some(u), known);
            var puts := PutsOf(bundles, u, known);
            && run'.kv.log == run.kv.log + WithRetries(f, |run.kv.log|, puts)
            && (run'.ok <==> run.ok && EachFinallyDone(f, |run.kv.log|, |puts|))
    decreases |bundles|
  {
    if bundles != [] {
      PutsOfCons(bundles, u, known);
      var rest := PutsOf(bundles[1..], u, known);
      if NeedsPut(bundles[0], known) {
        var next := PublishStep(f, run, Some(u), Convert(bundles[0]));
        PublishRequests(f, run, u, bundles[0]);
        PutRequests(f, next, bundles[1..], u, known);
        hide PutsOf, PublishStep, WithRetry, WithRetries, EachFinallyDone, FinallyDone, Convert;
        RetriesCons(f, |run.kv.log|, Put(DeviceAndNameToKey(u, bundles[0].name), Json(Convert(bundles[0]))), rest);
      } else {
        hide PutsOf;
        PutRequests(f, run, bundles[1..], u, known);
      }
    }
  }

  /** What each of those puts says. */
  lemma {:induction false} PutsPublish(bundles: seq<BundleInfo>, u: string, known: OldInfos, r: Request)
    ensures r in PutsOf(bundles, u, known) <==>
              r.Put? && r.value.Json? && exists b | b in bundles ::
                NeedsPut(b, known) && r.key == DeviceAndNameToKey(u, b.name) && Publishes(r.value.info, b)
  {
    if bundles != [] {
      PutsPublish(bundles[1..], u, known, r);
      assert forall b :: b in bundles <==> b == bundles[0] || b in bundles[1..];
      PublishesExactly(Convert(bundles[0]), bundles[0]);
      if r.Put? && r.value.Json? {
        PublishesExactly(r.value.info, bundles[0]);
      }
      hide Publishes, Convert;
    }
  }

  /**
   The requests of a reconcile under any faults: the scan, one delete for each doomed entry,
   one put for each bundle that needs it, repeated after a loss.  It succeeds exactly when
   the scan and the deletes are answered at once and each put finally is.
   */
  lemma ReconcileRequests(f: Faults, run: Run, env: Env, userId: int, u: string, bundles: seq<BundleInfo>, es: seq<Entry>)
    requires Looks(env, userId, u, bundles)
    ensures var run' := UpdateStep(f, run, env, userId, es);
            var n := |run.kv.log| + 1;
            var deletes := if ScanSucceeds(f, run) then DeletesOf(es, u, Names(bundles)) else [];
            var puts := PutsOf(bundles, u, OldInfosStep(f, run, env, Names(bundles), es).0);
            && run'.kv.log == run.kv.log + [GetEntries] + deletes + WithRetries(f, n + |deletes|, puts)
            && (run'.ok <==> run.ok && ScanSucceeds(f, run)
                             && EachDone(f, n, |deletes|) && EachFinallyDone(f, n + |deletes|, |puts|))
  {
    var kv1 := Issue(f, run.kv, GetEntries).1;
    var (known, run1) := OldInfosStep(f, run, env, Names(bundles), es);
    ScanRequests(f, Run(kv1, run.ok), es, u, Names(bundles), map[]);
    PutRequests(f, run1, bundles, u, known);
    hide PutsOf, DeletesOf, WithRetries, EachDone, EachFinallyDone, PutFrom, ScanFrom, Names;
  }

  // ---------------------------------------------------------------------------
  // What a reconcile misses
  // ---------------------------------------------------------------------------

  /** The bundles the second loop passes over although the table says something else about them. */
  ghost function Missed(entries: Table, u: string, bundles: seq<BundleInfo>, known: OldInfos): set<string> {
    set b | b in bundles && !NeedsPut(b, known) && !AsPublished(entries, u, b) :: b.name
  }

  /**
   What a successful reconcile achieves on any table whose own keys fit their contents,
   whatever else the table holds: the listed bundles but the missed ones have their present
   info, no missed one has, and no other bundle has any.
   */
  lemma ReconcileMisses(f: Faults, run: Run, env: Env, userId: int, u: string, bundles: seq<BundleInfo>, es: seq<Entry>)
    requires Looks(env, userId, u, bundles) && IsScan(es, run.kv.entries) && OwnKeysFit(run.kv.entries, u)
    requires UpdateStep(f, run, env, userId, es).ok
    ensures var end := UpdateStep(f, run, env, userId, es).kv.entries;
            var missed := Missed(run.kv.entries, u, bundles, OldInfosStep(f, run, env, Names(bundles), es).0);
            && OwnKeysFit(end, u)
            && (forall b | b in bundles :: AsPublished(end, u, b) <==> b.name !in missed)
            && (forall n | n !in Names(bundles) ::
                  n !in missed && (DeviceAndNameToKey(u, n) in end ==> end[DeviceAndNameToKey(u, n)].Corrupt?))
  {
    var E := run.kv.entries;
    var end := UpdateStep(f, run, env, userId, es).kv.entries;
    var known := OldInfosStep(f, run, env, Names(bundles), es).0;
    var missed := Missed(E, u, bundles, known);
    ReconcileShape(f, run, env, userId, u, bundles, es);
    forall b | b in bundles ensures AsPublished(end, u, b) <==> b.name !in missed {
      WritesExactly(bundles, u, known, DeviceAndNameToKey(u, b.name));
      FittingDoomedIsUnlisted(E, u, bundles, b);
      NameIsUnique(bundles, b);
      PublishesExactly(Convert(b), b);
    }
    forall n
      ensures var key := DeviceAndNameToKey(u, n); key in end && end[key].Json? ==> end[key].info.bundleName == n
      ensures n !in Names(bundles) ==> n !in missed && (DeviceAndNameToKey(u, n) in end ==> end[DeviceAndNameToKey(u, n)].Corrupt?)
    {
      UnlistedAfter(E, end, u, bundles, known, n);
    }
  }

  lemma NameIsUnique(bundles: seq<BundleInfo>, b: BundleInfo)
    requires UniqueNames(bundles) && b in bundles
    ensures forall b' | b' in bundles && b'.name == b.name :: b' == b
  {}

  /** One own key after a successful reconcile. */
  lemma UnlistedAfter(E: Table, end: Table, u: string, bundles: seq<BundleInfo>, known: OldInfos, n: string)
    requires OwnKeysFit(E, u) && UniqueNames(bundles)
    requires end == E - DoomedKeys(E, u, Names(bundles)) + WritesOf(bundles, u, known)
    ensures var key := DeviceAndNameToKey(u, n); key in end && end[key].Json? ==> end[key].info.bundleName == n
    ensures n !in Names(bundles) ==>
              n !in Missed(E, u, bundles, known)
              && (DeviceAndNameToKey(u, n) in end ==> end[DeviceAndNameToKey(u, n)].Corrupt?)
  {
    var key := DeviceAndNameToKey(u, n);
    OwnKey(u, n);
    WritesExactly(bundles, u, known, key);
    if key in WritesOf(bundles, u, known) {
      var b :| b in bundles && key == DeviceAndNameToKey(u, b.name);
      SameKey(u, n, b.name);
      ListedName(bundles, b);
    }
    if n in Missed(E, u, bundles, known) {
      var b :| b in bundles && b.name == n;
      ListedName(bundles, b);
    }
  }

  /**
   On a well-formed store, for every scan order, the missed bundles are those the table is
   wrong about and that are singletons or filed with their present update time.
   */
  lemma MissedExactly(entries: Table, es: seq<Entry>, u: string, bundles: seq<BundleInfo>, b: BundleInfo)
    requires LocalWF(entries, u) && IsScan(es, entries) && UniqueNames(bundles) && b in bundles
    ensures b.name in Missed(entries, u, bundles, CollectFrom(es, u, Names(bundles), map[]))
       <==> !AsPublished(entries, u, b) && (b.singleton || Filed(entries, u, b))
  {
    ListedName(bundles, b);
    NameIsUnique(bundles, b);
    CollectedExactly(entries, es, u, Names(bundles), b.name);
  }
}
