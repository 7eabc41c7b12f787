/**
 Reading another device's part of the table: the lookup by access token inverts publishing.
 */
module Lookup {
  import opened Wrappers
  import opened Strings
  import opened KvStore
  import opened TableSteps

  /** The stored infos the scan takes for the device's own and that carry the token. */
  ghost predicate Holds(entries: Table, u: string, token: int, n: string) {
    exists k | k in entries :: CarriesToken(Entry(k, entries[k]), u, token) && entries[k].info.bundleName == n
  }

  ghost predicate TokensUnique(entries: Table, u: string) {
    forall k, k' | k in entries && k' in entries && Contains(k, u) && Contains(k', u)
                   && entries[k].Json? && entries[k'].Json?
                   && entries[k].info.accessTokenId == entries[k'].info.accessTokenId ::
      entries[k].info.bundleName == entries[k'].info.bundleName
  }

  /** The first entry in scan order that carries the token decides. */
  lemma {:induction false} FirstCarrier(es: seq<Entry>, u: string, token: int)
    ensures var r := NameForToken(es, u, token);
            && (r.NO_ERROR? ==> exists i | 0 <= i < |es| ::
                  && CarriesToken(es[i], u, token) && es[i].value.info.bundleName == r.bundleName
                  && forall j | 0 <= j < i :: !CarriesToken(es[j], u, token))
            && (!r.NO_ERROR? ==> r == BUNDLE_NOT_EXIST && forall e | e in es :: !CarriesToken(e, u, token))
  {
    if es != [] {
      FirstCarrier(es[1..], u, token);
      assert forall e :: e in es <==> e == es[0] || e in es[1..];
      var r := NameForToken(es, u, token);
      if r.NO_ERROR? && !CarriesToken(es[0], u, token) {
        var i :| 0 <= i < |es[1..]| && CarriesToken(es[1..][i], u, token) && es[1..][i].value.info.bundleName == r.bundleName
                 && forall j | 0 <= j < i :: !CarriesToken(es[1..][j], u, token);
        assert es[i + 1] == es[1..][i] && forall j | 0 < j <= i :: es[j] == es[1..][j - 1];
      }
    }
  }

  /**
   Whatever the order of the scan: not-exist is reported exactly when no stored info
   carries the token, and a reported name is one that does.  When tokens are unique the
   name is the only one.
   */
  lemma TokenLookupExact(es: seq<Entry>, entries: Table, u: string, token: int)
    requires IsScan(es, entries)
    ensures var r := NameForToken(es, u, token);
            && (r == BUNDLE_NOT_EXIST <==> forall n :: !Holds(entries, u, token, n))
            && (r.NO_ERROR? ==> Holds(entries, u, token, r.bundleName))
            && (r.NO_ERROR? || r == BUNDLE_NOT_EXIST)
            && (TokensUnique(entries, u) ==> forall n :: r == NO_ERROR(n) <==> Holds(entries, u, token, n))
  {
    var r := NameForToken(es, u, token);
    FirstCarrier(es, u, token);
    if r.NO_ERROR? {
      var i :| 0 <= i < |es| && CarriesToken(es[i], u, token) && es[i].value.info.bundleName == r.bundleName;
      var e := es[i];
      assert e == Entry(e.key, entries[e.key]);
      assert Holds(entries, u, token, r.bundleName);
    } else {
      forall n ensures !Holds(entries, u, token, n) {
        forall k | k in entries ensures !CarriesToken(Entry(k, entries[k]), u, token) {
          assert Entry(k, entries[k]) in es;
        }
      }
    }
  }

  /** The device's own entry for a bundle carries the token. */
  predicate PublishedUnder(entries: Table, u: string, token: int, n: string) {
    var key := DeviceAndNameToKey(u, n);
    key in entries && entries[key].Json? && entries[key].info.bundleName == n && entries[key].info.accessTokenId == token
  }

  /** Decodable entries sit under the key of some device and their own bundle, whose name does not contain `u`. */
  ghost predicate WellNamed(entries: Table, u: string) {
    forall k | k in entries && entries[k].Json? ::
      && !Contains(entries[k].info.bundleName, u)
      && exists d | |d| == |u| :: k == DeviceAndNameToKey(d, entries[k].info.bundleName)
  }

  /** Among well-named entries those that count are the ones of the device's own partition. */
  lemma TokenLookupStaysInPartition(entries: Table, u: string, token: int, n: string)
    requires IsUdid(u) && WellNamed(entries, u)
    ensures Holds(entries, u, token, n) <==> PublishedUnder(entries, u, token, n)
  {
    if Holds(entries, u, token, n) {
      var k :| k in entries && CarriesToken(Entry(k, entries[k]), u, token) && entries[k].info.bundleName == n;
      var d :| |d| == |u| && k == DeviceAndNameToKey(d, n);
      OwnershipScan(d, n, u);
    }
    if PublishedUnder(entries, u, token, n) {
      OwnershipScan(u, n, u);
      assert CarriesToken(Entry(DeviceAndNameToKey(u, n), entries[DeviceAndNameToKey(u, n)]), u, token);
    }
  }

  /**
   The lookup by token inverts publishing.  After a successful synchronisation and scan,
   with the token carried by at most one bundle of the device, a name is returned exactly
   when the device's synchronised partition holds it with that token, and not-exist
   exactly when the partition holds no such name.
   */
  lemma TokenLookupInvertsPublishing(f: Faults, kv: Kv, env: SyncEnv, u: string, token: int, es: seq<Entry>)
    requires env.peerUdid == Some(u) && IsUdid(u) && Completes(env, u) && f(|kv.log|).Done?
    requires IsScan(es, ReplaceUnder(kv.entries, u, env.incoming)) && WellNamed(ReplaceUnder(kv.entries, u, env.incoming), u)
    requires forall n, n' | PublishedUnder(env.incoming, u, token, n) && PublishedUnder(env.incoming, u, token, n') :: n == n'
    ensures var r := BundleNameStep(f, kv, env, token, es).0;
            && (forall n :: r == NO_ERROR(n) <==> PublishedUnder(env.incoming, u, token, n))
            && (r == BUNDLE_NOT_EXIST <==> forall n :: !PublishedUnder(env.incoming, u, token, n))
  {
    SyncSucceedsIff(env, u);
    var entries := ReplaceUnder(kv.entries, u, env.incoming);
    var r := NameForToken(es, u, token);
    assert r == BundleNameStep(f, kv, env, token, es).0;
    TokenLookupExact(es, entries, u, token);
    forall n ensures Holds(entries, u, token, n) <==> PublishedUnder(env.incoming, u, token, n) {
      TokenLookupStaysInPartition(entries, u, token, n);
      PrefixSelectsDevice(u, n, u);
    }
  }

  /** What a started synchronisation leaves in the table, whether or not it completes. */
  lemma SyncedEntries(kv: Kv, env: SyncEnv, u: string)
    ensures Synced(kv, env, u).log == kv.log
    ensures Completes(env, u) ==> Synced(kv, env, u).entries == ReplaceUnder(kv.entries, u, env.incoming)
  {}

  /**
   Every code of the lookup by token by its guard: an unknown device, then an empty
   identifier, an incomplete synchronisation or a failed scan; only when all of these are
   passed is there a name or is not-exist reported.  One request is sent, when the
   synchronisation completed.
   */
  lemma TokenLookupCodes(f: Faults, kv: Kv, env: SyncEnv, token: int, es: seq<Entry>)
    ensures var (r, kv') := BundleNameStep(f, kv, env, token, es);
            if env.peerUdid.None? then r == NO_UDID && kv' == kv
            else if env.peerUdid.value == "" then r == INTERNAL_ERROR && kv' == kv
            else if !Completes(env, env.peerUdid.value) then r == INTERNAL_ERROR && kv'.log == kv.log
            else
              && kv'.log == kv.log + [GetEntries]
              && kv'.entries == ReplaceUnder(kv.entries, env.peerUdid.value, env.incoming)
              && if f(|kv.log|).Done? then r.NO_ERROR? || r == BUNDLE_NOT_EXIST else r == INTERNAL_ERROR
  {
    if env.peerUdid.Some? {
      SyncSucceedsIff(env, env.peerUdid.value);
      SyncedEntries(kv, env, env.peerUdid.value);
      FirstCarrier(es, env.peerUdid.value, token);
      hide Synced, SyncSucceeds, Completes, NameForToken;
    }
  }

  /**
   Every outcome of the lookup of one bundle: without the peer's identifier or a completed
   synchronisation nothing is read; otherwise one read with one retry, and when it is finally
   answered the info under the key is returned, or nothing is there, or what is there is no
   info and one delete of the key is sent.
   */
  lemma LookupExactly(f: Faults, kv: Kv, env: SyncEnv, bundleName: string)
    ensures env.peerUdid.None? ==> LookupStep(f, kv, env, bundleName) == (None, kv)
    ensures env.peerUdid.Some? ==>
            var u := env.peerUdid.value;
            var (info, kv') := LookupStep(f, kv, env, bundleName);
            var key := DeviceAndNameToKey(u, bundleName);
            var table := ReplaceUnder(kv.entries, u, env.incoming);
            var n := |kv.log|;
            var gets := if f(n).Lost? then [Get(key), Get(key)] else [Get(key)];
            if !Completes(env, u) then info == None && kv'.log == kv.log
            else if !FinallyDone(f, n) || key !in table then
              info == None && kv'.log == kv.log + gets && kv'.entries == table
            else if table[key].Json? then
              info == Some(table[key].info) && kv'.log == kv.log + gets && kv'.entries == table
            else
              && info == None && kv'.log == kv.log + gets + [Delete(key)]
              && kv'.entries == if TakesEffect(f(n + |gets|)) then table - {key} else table
  {
    if env.peerUdid.Some? {
      var u := env.peerUdid.value;
      SyncSucceedsIff(env, u);
      SyncedEntries(kv, env, u);
      ReadOnce(f, Synced(kv, env, u), DeviceAndNameToKey(u, bundleName));
      hide Synced, SyncSucceeds, Completes, IssueTwice;
    }
  }

  lemma ReadOnce(f: Faults, kv: Kv, key: string)
    ensures var (status, kv') := IssueTwice(f, kv, Get(key));
            && kv'.entries == kv.entries
            && kv'.log == kv.log + (if f(|kv.log|).Lost? then [Get(key), Get(key)] else [Get(key)])
            && (status == SUCCESS <==> FinallyDone(f, |kv.log|) && key in kv.entries)
  {
    assert kv.log + [Get(key)] + [Get(key)] == kv.log + [Get(key), Get(key)];
  }

  /** Reading twice changes nothing, and a success means the key is there. */
  lemma GetReads(f: Faults, kv: Kv, key: string)
    ensures var (status, kv') := IssueTwice(f, kv, Get(key));
            kv'.entries == kv.entries && (status == SUCCESS ==> key in kv.entries)
  {}

  /** A lookup that returns an info leaves the table as the synchronisation left it. */
  lemma LookupReads(f: Faults, kv: Kv, env: SyncEnv, bundleName: string)
    ensures var (info, kv') := LookupStep(f, kv, env, bundleName);
            && (info.Some? ==>
                  && env.peerUdid.Some? && Completes(env, env.peerUdid.value)
                  && var key := DeviceAndNameToKey(env.peerUdid.value, bundleName);
                  && key in env.incoming && env.incoming[key] == Json(info.value)
                  && kv'.entries == ReplaceUnder(kv.entries, env.peerUdid.value, env.incoming))
            && forall k | env.peerUdid.None? || !(env.peerUdid.value <= k) ::
                 && (k in kv'.entries <==> k in kv.entries)
                 && (k in kv.entries ==> kv'.entries[k] == kv.entries[k])
  {
    if env.peerUdid.Some? {
      SyncSucceedsIff(env, env.peerUdid.value);
      var key := DeviceAndNameToKey(env.peerUdid.value, bundleName);
      assert env.peerUdid.value == key[..|env.peerUdid.value|];
      GetReads(f, Synced(kv, env, env.peerUdid.value), key);
      hide IssueTwice;
    }
  }
}
