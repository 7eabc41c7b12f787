/**
 The wire protocol between `DistributedBmsProxy` and `DistributedBmsHost`, as functions
 on item sequences: what the host answers to a request, what the proxy makes of an
 answer, and that together they are transparent.  `cap` bounds a parcel; a write beyond
 it fails.  The service behind the host is an arbitrary record of functions.
 */
module Rpc {
  import opened Wrappers
  import opened Bundles
  import opened Parcels

  const DESCRIPTOR := "ohos.appexecfwk.IDistributedbms"
  const MAX_SIZE := 10

  // Result codes.  NO_ERROR is zero and the others are not; their numbers come from other components.
  const NO_ERROR := 0
  const ERR_INVALID_STATE := 5
  const INVALID_OPERATION := 9
  const IPC_STUB_UNKNOW_TRANS_ERR := 305
  const ERR_PARCEL := 1001
  const ERR_FAILED_GET_REMOTE_PROXY := 1002
  const ERR_BUNDLE_NOT_EXIST := 1003
  const ERR_ABILITY_NOT_EXIST := 1004
  const ERR_DEVICE_ID_NOT_EXIST := 1005

  const GET_REMOTE_ABILITY_INFO := 0
  const GET_REMOTE_ABILITY_INFOS := 1
  const GET_ABILITY_INFO := 2
  const GET_ABILITY_INFOS := 3
  const GET_REMOTE_ABILITY_INFO_WITH_LOCALE := 4
  const GET_REMOTE_ABILITY_INFOS_WITH_LOCALE := 5
  const GET_ABILITY_INFO_WITH_LOCALE := 6
  const GET_ABILITY_INFOS_WITH_LOCALE := 7
  const GET_DISTRIBUTED_BUNDLE_INFO := 8
  const GET_DISTRIBUTED_BUNDLE_NAME := 9
  const GET_REMOTE_BUNDLE_VERSION_CODE := 10
  const GET_BUNDLE_VERSION_CODE := 11

  /** A service implementation: result code (or success flag) and output value of each operation. */
  datatype Service = Service(
    remoteAbilityInfo: (ElementName, string) -> (int, RemoteAbilityInfo),
    remoteAbilityInfos: (seq<ElementName>, string) -> (int, seq<RemoteAbilityInfo>),
    abilityInfo: (ElementName, string, Option<AclInfo>) -> (int, RemoteAbilityInfo),
    abilityInfos: (seq<ElementName>, string, Option<AclInfo>) -> (int, seq<RemoteAbilityInfo>),
    bundleInfo: (string, string) -> (bool, DistributedBundleInfo),
    bundleName: (string, int) -> (int, string),
    remoteVersion: (string, string) -> (int, int),
    version: (string, AclInfo) -> (int, int))

  // ---------------------------------------------------------------------------
  // Vectors
  // ---------------------------------------------------------------------------

  /** Conversion of a size to a 32-bit signed integer. */
  function ToInt32(n: nat): int {
    var m := n % 0x1_0000_0000;
    if m < 0x8000_0000 then m else m - 0x1_0000_0000
  }

  function ElementItems(es: seq<ElementName>): Items {
    seq(|es|, i requires 0 <= i < |es| => Element(es[i]))
  }

  function AbilityItems(infos: seq<RemoteAbilityInfo>): (ts: Items)
    ensures |ts| == |infos|
  {
    seq(|infos|, i requires 0 <= i < |infos| => Ability(infos[i]))
  }

  function TakeElements(ts: Items, n: int): (Option<seq<ElementName>>, Items)
    decreases n
  {
    if n <= 0 then (Some([]), ts)
    else
      var (e, ts1) := TakeElement(ts);
      if e.None? then (None, ts1)
      else
        var (es, ts2) := TakeElements(ts1, n - 1);
        (if es.None? then None else Some([e.value] + es.value), ts2)
  }

  /** The host's `GetParcelableInfos`, with its bound on the size. */
  function TakeElementVector(ts: Items): (Option<seq<ElementName>>, Items) {
    var (n, ts1) := TakeInt32(ts);
    if n > MAX_SIZE || n < 0 then (None, ts1) else TakeElements(ts1, n)
  }

  function TakeAbilities(ts: Items, n: int): (Option<seq<RemoteAbilityInfo>>, Items)
    decreases n
  {
    if n <= 0 then (Some([]), ts)
    else
      var (e, ts1) := TakeAbility(ts);
      if e.None? then (None, ts1)
      else
        var (es, ts2) := TakeAbilities(ts1, n - 1);
        (if es.None? then None else Some([e.value] + es.value), ts2)
  }

  lemma {:induction false} ElementsRoundTrip(es: seq<ElementName>, rest: Items)
    ensures TakeElements(ElementItems(es) + rest, |es|) == (Some(es), rest)
  {
    if es == [] {
      assert ElementItems(es) + rest == rest;
    } else {
      ElementsRoundTrip(es[1..], rest);
      assert (ElementItems(es) + rest)[1..] == ElementItems(es[1..]) + rest;
      assert es == [es[0]] + es[1..];
    }
  }

  lemma {:induction false} AbilitiesRoundTrip(infos: seq<RemoteAbilityInfo>, rest: Items)
    ensures TakeAbilities(AbilityItems(infos) + rest, |infos|) == (Some(infos), rest)
  {
    if infos == [] {
      assert AbilityItems(infos) + rest == rest;
    } else {
      AbilitiesRoundTrip(infos[1..], rest);
      assert (AbilityItems(infos) + rest)[1..] == AbilityItems(infos[1..]) + rest;
      assert infos == [infos[0]] + infos[1..];
    }
  }

  // ---------------------------------------------------------------------------
  // The host
  // ---------------------------------------------------------------------------

  /** A reply is sent only with result NO_ERROR, and only if it fits. */
  function Reply(cap: nat, ret: int, items: Items): (int, Items) {
    if ret != NO_ERROR then (ret, []) else if |items| > cap then (ERR_PARCEL, []) else (NO_ERROR, items)
  }

  function AbilityReply(cap: nat, answer: (int, RemoteAbilityInfo)): (int, Items) {
    Reply(cap, answer.0, [Bool(true), Ability(answer.1)])
  }

  function AbilitiesReply(cap: nat, answer: (int, seq<RemoteAbilityInfo>)): (int, Items) {
    Reply(cap, answer.0, [Bool(true), Int32(ToInt32(|answer.1|))] + AbilityItems(answer.1))
  }

  /** The optional ACL record: `Some(None)` if absent, `None` if announced but unreadable. */
  function TakeOptionalAcl(ts: Items): Option<Option<AclInfo>> {
    var (hasInfo, ts1) := TakeBool(ts);
    if !hasInfo then Some(None)
    else
      var info := TakeAcl(ts1).0;
      if info.None? then None else Some(info)
  }

  function HandleRemoteAbilityInfo(s: Service, cap: nat, ts: Items): (int, Items) {
    var (e, ts1) := TakeElement(ts);
    if e.None? then (ERR_PARCEL, []) else AbilityReply(cap, s.remoteAbilityInfo(e.value, TakeString(ts1).0))
  }

  function HandleRemoteAbilityInfos(s: Service, cap: nat, ts: Items): (int, Items) {
    var (es, ts1) := TakeElementVector(ts);
    if es.None? then (ERR_PARCEL, []) else AbilitiesReply(cap, s.remoteAbilityInfos(es.value, TakeString(ts1).0))
  }

  function HandleAbilityInfo(s: Service, cap: nat, ts: Items): (int, Items) {
    var (e, ts1) := TakeElement(ts);
    if e.None? then (ERR_PARCEL, [])
    else
      var (locale, ts2) := TakeString(ts1);
      var acl := TakeOptionalAcl(ts2);
      if acl.None? then (ERR_PARCEL, []) else AbilityReply(cap, s.abilityInfo(e.value, locale, acl.value))
  }

  function HandleAbilityInfos(s: Service, cap: nat, ts: Items): (int, Items) {
    var (es, ts1) := TakeElementVector(ts);
    if es.None? then (ERR_PARCEL, [])
    else
      var (locale, ts2) := TakeString(ts1);
      var acl := TakeOptionalAcl(ts2);
      if acl.None? then (ERR_PARCEL, []) else AbilitiesReply(cap, s.abilityInfos(es.value, locale, acl.value))
  }

  function HandleBundleInfo(s: Service, cap: nat, ts: Items): (int, Items) {
    var (networkId, ts1) := TakeString(ts);
    var (ok, info) := s.bundleInfo(networkId, TakeString(ts1).0);
    if !ok then (INVALID_OPERATION, []) else Reply(cap, NO_ERROR, [Bool(true), Bundle(info)])
  }

  function HandleBundleName(s: Service, cap: nat, ts: Items): (int, Items) {
    var (networkId, ts1) := TakeString(ts);
    var (ret, name) := s.bundleName(networkId, TakeUint32(ts1).0);
    Reply(cap, ret, [Str(name)])
  }

  function HandleRemoteVersion(s: Service, cap: nat, ts: Items): (int, Items) {
    var (deviceId, ts1) := TakeString(ts);
    var (ret, version) := s.remoteVersion(deviceId, TakeString(ts1).0);
    Reply(cap, ret, [Uint32(version)])
  }

  function HandleVersion(s: Service, cap: nat, ts: Items): (int, Items) {
    var (name, ts1) := TakeString(ts);
    var info := TakeAcl(ts1).0;
    if info.None? then (ERR_PARCEL, [])
    else
      var (ret, version) := s.version(name, info.value);
      Reply(cap, ret, [Uint32(version)])
  }

  /** `OnRemoteRequest`: the interface token, then the handler of the code. */
  function Respond(s: Service, cap: nat, code: int, data: Items): (int, Items) {
    if data == [] || data[0] != Token(DESCRIPTOR) then (ERR_INVALID_STATE, [])
    else
      var ts := data[1..];
      if code == GET_REMOTE_ABILITY_INFO || code == GET_REMOTE_ABILITY_INFO_WITH_LOCALE then
        HandleRemoteAbilityInfo(s, cap, ts)
      else if code == GET_REMOTE_ABILITY_INFOS || code == GET_REMOTE_ABILITY_INFOS_WITH_LOCALE then
        HandleRemoteAbilityInfos(s, cap, ts)
      else if code == GET_ABILITY_INFO || code == GET_ABILITY_INFO_WITH_LOCALE then HandleAbilityInfo(s, cap, ts)
      else if code == GET_ABILITY_INFOS || code == GET_ABILITY_INFOS_WITH_LOCALE then HandleAbilityInfos(s, cap, ts)
      else if code == GET_DISTRIBUTED_BUNDLE_INFO then HandleBundleInfo(s, cap, ts)
      else if code == GET_DISTRIBUTED_BUNDLE_NAME then HandleBundleName(s, cap, ts)
      else if code == GET_REMOTE_BUNDLE_VERSION_CODE then HandleRemoteVersion(s, cap, ts)
      else if code == GET_BUNDLE_VERSION_CODE then HandleVersion(s, cap, ts)
      else (IPC_STUB_UNKNOW_TRANS_ERR, [])
  }

  // ---------------------------------------------------------------------------
  // The proxy
  // ---------------------------------------------------------------------------

  /** Printing the request into a parcel, then the transaction; without a remote object there is none. */
  function Transact(remote: Option<Service>, cap: nat, code: int, request: Items): (int, Items) {
    if |request| > cap then (ERR_PARCEL, [])
    else if remote.None? then (ERR_FAILED_GET_REMOTE_PROXY, [])
    else Respond(remote.value, cap, code, request)
  }

  function ReadAbilityReply(answer: (int, Items), out: RemoteAbilityInfo): (int, RemoteAbilityInfo) {
    if answer.0 != NO_ERROR then (answer.0, out)
    else
      var (ok, ts) := TakeBool(answer.1);
      var info := TakeAbility(ts).0;
      if !ok || info.None? then (ERR_PARCEL, out) else (NO_ERROR, info.value)
  }

  /** The infos read before an unreadable one stay appended; see the loop of `GetParcelableInfos`. */
  function ReadAbilitiesReply(answer: (int, Items), out: seq<RemoteAbilityInfo>): (int, seq<RemoteAbilityInfo>) {
    if answer.0 != NO_ERROR then (answer.0, out)
    else
      var (ok, ts) := TakeBool(answer.1);
      if !ok then (ERR_PARCEL, out)
      else
        var (n, ts1) := TakeInt32(ts);
        AppendAbilities(ts1, n, out)
  }

  function AppendAbilities(ts: Items, n: int, out: seq<RemoteAbilityInfo>): (int, seq<RemoteAbilityInfo>)
    decreases n
  {
    if n <= 0 then (NO_ERROR, out)
    else
      var (info, ts1) := TakeAbility(ts);
      if info.None? then (ERR_PARCEL, out) else AppendAbilities(ts1, n - 1, out + [info.value])
  }

  function ReadBundleReply(answer: (int, Items), out: DistributedBundleInfo): (bool, DistributedBundleInfo) {
    if answer.0 != NO_ERROR then (false, out)
    else
      var (ok, ts) := TakeBool(answer.1);
      var info := TakeBundle(ts).0;
      if !ok || info.None? then (false, out) else (true, info.value)
  }

  function CheckElementName(e: ElementName): int {
    if e.bundleName == "" then ERR_BUNDLE_NOT_EXIST
    else if e.abilityName == "" then ERR_ABILITY_NOT_EXIST
    else if e.deviceId == "" then ERR_DEVICE_ID_NOT_EXIST
    else NO_ERROR
  }

  /** The check of the first element that fails it. */
  function CheckElementNames(es: seq<ElementName>): int {
    if es == [] then NO_ERROR
    else if CheckElementName(es[0]) != NO_ERROR then CheckElementName(es[0])
    else CheckElementNames(es[1..])
  }

  predicate IsComplete(e: ElementName) {
    e.bundleName != "" && e.abilityName != "" && e.deviceId != ""
  }

  /** The code of a name is that of its first empty field, in the order bundle, ability, device. */
  predicate IsCodeOf(e: ElementName, code: int) {
    && (e.bundleName == "" ==> code == ERR_BUNDLE_NOT_EXIST)
    && (e.bundleName != "" && e.abilityName == "" ==> code == ERR_ABILITY_NOT_EXIST)
    && (e.bundleName != "" && e.abilityName != "" && e.deviceId == "" ==> code == ERR_DEVICE_ID_NOT_EXIST)
    && (IsComplete(e) ==> code == NO_ERROR)
  }

  lemma CodeOfName(e: ElementName)
    ensures IsCodeOf(e, CheckElementName(e)) && (CheckElementName(e) == NO_ERROR <==> IsComplete(e))
  {}

  /** All names pass if and only if each is complete; otherwise the first incomplete one decides. */
  lemma {:induction false} FirstIncompleteNameDecides(es: seq<ElementName>)
    ensures CheckElementNames(es) == NO_ERROR <==> forall e | e in es :: IsComplete(e)
    ensures CheckElementNames(es) != NO_ERROR ==>
              exists i | 0 <= i < |es| :: IsCodeOf(es[i], CheckElementNames(es))
                                          && !IsComplete(es[i]) && forall j | 0 <= j < i :: IsComplete(es[j])
  {
    if es != [] {
      assert forall e :: e in es <==> e == es[0] || e in es[1..];
      FirstIncompleteNameDecides(es[1..]);
      CodeOfName(es[0]);
      if IsComplete(es[0]) && CheckElementNames(es) != NO_ERROR {
        var i :| 0 <= i < |es[1..]| && IsCodeOf(es[1..][i], CheckElementNames(es[1..]))
                 && !IsComplete(es[1..][i]) && forall j | 0 <= j < i :: IsComplete(es[1..][j]);
        assert es[i + 1] == es[1..][i] && forall j | 0 < j <= i :: es[j] == es[1..][j - 1];
      }
    }
  }

  function ElementRequest(e: ElementName, locale: string): Items {
    [Token(DESCRIPTOR), Element(e), Str(locale)]
  }

  function VectorRequest(es: seq<ElementName>, locale: string): Items {
    [Token(DESCRIPTOR), Int32(ToInt32(|es|))] + ElementItems(es) + [Str(locale)]
  }

  function ProxyRemoteAbilityInfo(remote: Option<Service>, cap: nat, e: ElementName, locale: string, out: RemoteAbilityInfo)
    : (int, RemoteAbilityInfo)
  {
    if CheckElementName(e) != NO_ERROR then (CheckElementName(e), out)
    else ReadAbilityReply(Transact(remote, cap, GET_REMOTE_ABILITY_INFO_WITH_LOCALE, ElementRequest(e, locale)), out)
  }

  function ProxyRemoteAbilityInfos(remote: Option<Service>, cap: nat, es: seq<ElementName>, locale: string, out: seq<RemoteAbilityInfo>)
    : (int, seq<RemoteAbilityInfo>)
  {
    if CheckElementNames(es) != NO_ERROR then (CheckElementNames(es), out)
    else ReadAbilitiesReply(Transact(remote, cap, GET_REMOTE_ABILITY_INFOS_WITH_LOCALE, VectorRequest(es, locale)), out)
  }

  /** With the fallback to the older code when the newer one is unknown to the host. */
  function ProxyAbilityInfo(remote: Option<Service>, cap: nat, e: ElementName, locale: string, acl: Option<AclInfo>, out: RemoteAbilityInfo)
    : (int, RemoteAbilityInfo)
  {
    var request := ElementRequest(e, locale) + OptionalAclItems(acl);
    var first := ReadAbilityReply(Transact(remote, cap, GET_ABILITY_INFO_WITH_LOCALE, request), out);
    if first.0 == IPC_STUB_UNKNOW_TRANS_ERR then
      ReadAbilityReply(Transact(remote, cap, GET_ABILITY_INFO, request), first.1)
    else first
  }

  function ProxyAbilityInfos(remote: Option<Service>, cap: nat, es: seq<ElementName>, locale: string, acl: Option<AclInfo>, out: seq<RemoteAbilityInfo>)
    : (int, seq<RemoteAbilityInfo>)
  {
    var request := VectorRequest(es, locale) + OptionalAclItems(acl);
    var first := ReadAbilitiesReply(Transact(remote, cap, GET_ABILITY_INFOS_WITH_LOCALE, request), out);
    if first.0 == IPC_STUB_UNKNOW_TRANS_ERR then
      ReadAbilitiesReply(Transact(remote, cap, GET_ABILITY_INFOS, request), first.1)
    else first
  }

  function ProxyBundleInfo(remote: Option<Service>, cap: nat, networkId: string, name: string, out: DistributedBundleInfo)
    : (bool, DistributedBundleInfo)
  {
    ReadBundleReply(Transact(remote, cap, GET_DISTRIBUTED_BUNDLE_INFO, [Token(DESCRIPTOR), Str(networkId), Str(name)]), out)
  }

  function ProxyBundleName(remote: Option<Service>, cap: nat, networkId: string, token: int, out: string): (int, string) {
    var answer := Transact(remote, cap, GET_DISTRIBUTED_BUNDLE_NAME, [Token(DESCRIPTOR), Str(networkId), Uint32(token)]);
    if answer.0 == NO_ERROR then (NO_ERROR, TakeString(answer.1).0) else (answer.0, out)
  }

  function ProxyRemoteVersion(remote: Option<Service>, cap: nat, deviceId: string, name: string, out: int): (int, int) {
    var answer := Transact(remote, cap, GET_REMOTE_BUNDLE_VERSION_CODE, [Token(DESCRIPTOR), Str(deviceId), Str(name)]);
    if answer.0 == NO_ERROR then (NO_ERROR, TakeUint32(answer.1).0) else (answer.0, out)
  }

  function ProxyVersion(remote: Option<Service>, cap: nat, name: string, acl: AclInfo, out: int): (int, int) {
    var answer := Transact(remote, cap, GET_BUNDLE_VERSION_CODE, [Token(DESCRIPTOR), Str(name)] + AclItems(acl));
    if answer.0 == NO_ERROR then (NO_ERROR, TakeUint32(answer.1).0) else (answer.0, out)
  }

  // ---------------------------------------------------------------------------
  // Refusals
  // ---------------------------------------------------------------------------

  /** A wrong or missing interface token, or an unknown code, is answered without the service. */
  lemma StrangersAreTurnedAway(s: Service, cap: nat, code: int, data: Items)
    ensures data == [] || data[0] != Token("ohos.appexecfwk.IDistributedbms") ==> Respond(s, cap, code, data) == (ERR_INVALID_STATE, [])
    ensures data != [] && data[0] == Token("ohos.appexecfwk.IDistributedbms") && !(0 <= code < 12) ==>
              Respond(s, cap, code, data) == (IPC_STUB_UNKNOW_TRANS_ERR, [])
  {}

  /** The older codes are served like the newer ones. */
  lemma OlderCodesAreAliases(s: Service, cap: nat, data: Items)
    ensures Respond(s, cap, GET_REMOTE_ABILITY_INFO, data) == Respond(s, cap, GET_REMOTE_ABILITY_INFO_WITH_LOCALE, data)
    ensures Respond(s, cap, GET_REMOTE_ABILITY_INFOS, data) == Respond(s, cap, GET_REMOTE_ABILITY_INFOS_WITH_LOCALE, data)
    ensures Respond(s, cap, GET_ABILITY_INFO, data) == Respond(s, cap, GET_ABILITY_INFO_WITH_LOCALE, data)
    ensures Respond(s, cap, GET_ABILITY_INFOS, data) == Respond(s, cap, GET_ABILITY_INFOS_WITH_LOCALE, data)
  {}

  lemma {:induction false} TakeElementsExactly(ts: Items, n: nat)
    ensures var (es, rest) := TakeElements(ts, n);
            && (es.Some? <==> n <= |ts| && forall i | 0 <= i < n :: ts[i].Element?)
            && (es.Some? ==> |es.value| == n && rest == ts[n..] && forall i | 0 <= i < n :: es.value[i] == ts[i].element)
  {
    if n > 0 && ts != [] && ts[0].Element? {
      TakeElementsExactly(ts[1..], n - 1);
      assert forall i | 0 < i < |ts| :: ts[i] == ts[1..][i - 1];
      if TakeElements(ts[1..], n - 1).0.Some? {
        assert ts[1..][n - 1..] == ts[n..];
      }
    }
  }

  /** A vector is read if and only if its size is from zero to ten and that many elements follow. */
  lemma VectorIsReadIff(n: int, ts: Items)
    ensures var (es, rest) := TakeElementVector([Int32(n)] + ts);
            && (es.Some? <==> 0 <= n <= 10 && n <= |ts| && forall i | 0 <= i < n :: ts[i].Element?)
            && (es.Some? ==> |es.value| == n && rest == ts[n..] && forall i | 0 <= i < n :: es.value[i] == ts[i].element)
  {
    assert ([Int32(n)] + ts)[1..] == ts;
    if 0 <= n <= 10 {
      TakeElementsExactly(ts, n);
    }
  }

  /** An ACL record without its user or its token identifier is refused. */
  lemma BrokenAclIsRefused(networkId: string, userId: int, accountId: string, ts: Items)
    ensures ts == [] || !ts[0].Present? ==> TakeAcl(ts).0 == None
    ensures ts == [] || !ts[0].Int32? ==> TakeAcl([Present, Str16(networkId)] + ts).0 == None
    ensures ts == [] || !ts[0].Uint64? ==> TakeAcl([Present, Str16(networkId), Int32(userId), Str16(accountId)] + ts).0 == None
  {
    var a := [Present, Str16(networkId)] + ts;
    assert a[1..] == [Str16(networkId)] + ts && a[1..][1..] == ts;
    var b := [Present, Str16(networkId), Int32(userId), Str16(accountId)] + ts;
    assert b[1..] == [Str16(networkId), Int32(userId), Str16(accountId)] + ts;
    assert b[1..][1..] == [Int32(userId), Str16(accountId)] + ts && b[1..][1..][1..] == [Str16(accountId)] + ts;
    assert b[1..][1..][1..][1..] == ts;
  }

  /** A request that cannot be read gets the parcel error and does not reach the service. */
  lemma UnreadableRequestsAreRefused(s: Service, cap: nat, ts: Items)
    ensures ts == [] || !ts[0].Element? ==>
              && Respond(s, cap, GET_REMOTE_ABILITY_INFO_WITH_LOCALE, [Token(DESCRIPTOR)] + ts) == (ERR_PARCEL, [])
              && Respond(s, cap, GET_ABILITY_INFO_WITH_LOCALE, [Token(DESCRIPTOR)] + ts) == (ERR_PARCEL, [])
    ensures TakeElementVector(ts).0.None? ==>
              && Respond(s, cap, GET_REMOTE_ABILITY_INFOS_WITH_LOCALE, [Token(DESCRIPTOR)] + ts) == (ERR_PARCEL, [])
              && Respond(s, cap, GET_ABILITY_INFOS_WITH_LOCALE, [Token(DESCRIPTOR)] + ts) == (ERR_PARCEL, [])
  {
    hide TakeElementVector, TakeAcl;
    assert ([Token(DESCRIPTOR)] + ts)[1..] == ts;
  }

  /** So does one whose ACL record, announced or mandatory, cannot be read. */
  lemma UnreadableAclIsRefused(s: Service, cap: nat, e: ElementName, text: string, ts: Items)
    requires TakeAcl(ts).0.None?
    ensures Respond(s, cap, GET_ABILITY_INFO_WITH_LOCALE, ElementRequest(e, text) + ([Bool(true)] + ts)) == (ERR_PARCEL, [])
    ensures Respond(s, cap, GET_BUNDLE_VERSION_CODE, [Token(DESCRIPTOR), Str(text)] + ts) == (ERR_PARCEL, [])
  {
    assert ([Bool(true)] + ts)[1..] == ts;
    assert TakeOptionalAcl([Bool(true)] + ts) == None;
    HostReadsElementRequest(s, cap, e, text, [Bool(true)] + ts);
    hide TakeAcl, TakeOptionalAcl, HandleAbilityInfo, ElementRequest;
    var b := [Token(DESCRIPTOR), Str(text)] + ts;
    assert b[1..] == [Str(text)] + ts && b[1..][1..] == ts;
  }

  /** A vector request whose announced ACL record cannot be read gets the parcel error as well. */
  lemma UnreadableVectorAclIsRefused(s: Service, cap: nat, es: seq<ElementName>, locale: string, ts: Items)
    requires |es| < cap < 0x8000_0000 && TakeAcl(ts).0.None?
    ensures Respond(s, cap, GET_ABILITY_INFOS_WITH_LOCALE, VectorRequest(es, locale) + [Bool(true)] + ts) == (ERR_PARCEL, [])
  {
    hide TakeElementVector, TakeAcl, ElementItems, AbilitiesReply;
    var data := VectorRequest(es, locale) + [Bool(true)] + ts;
    var rest := [Str(locale), Bool(true)] + ts;
    assert data[1..] == [Int32(ToInt32(|es|))] + ElementItems(es) + rest;
    assert rest[1..] == [Bool(true)] + ts && rest[1..][1..] == ts;
    VectorArrives(es, rest, cap);
  }

  /** A bundle info that is not found is an invalid operation on the wire. */
  lemma MissingInfoOnTheWire(s: Service, cap: nat, networkId: string, name: string)
    requires !s.bundleInfo(networkId, name).0
    ensures Respond(s, cap, GET_DISTRIBUTED_BUNDLE_INFO, [Token(DESCRIPTOR), Str(networkId), Str(name)]) == (INVALID_OPERATION, [])
  {
    var data := [Token(DESCRIPTOR), Str(networkId), Str(name)];
    assert data[1..] == [Str(networkId), Str(name)] && data[1..][1..] == [Str(name)];
  }

  /** A reply that lacks its mark or its info is a parcel error, or the flag false, and leaves the output alone. */
  lemma UnreadableRepliesAreRefused(ts: Items, ability: RemoteAbilityInfo, infos: seq<RemoteAbilityInfo>, bundle: DistributedBundleInfo)
    ensures ts == [] || ts[0] != Bool(true) ==>
              && ReadAbilityReply((NO_ERROR, ts), ability) == (ERR_PARCEL, ability)
              && ReadAbilitiesReply((NO_ERROR, ts), infos) == (ERR_PARCEL, infos)
              && ReadBundleReply((NO_ERROR, ts), bundle) == (false, bundle)
    ensures ts == [] || !ts[0].Ability? ==> ReadAbilityReply((NO_ERROR, [Bool(true)] + ts), ability) == (ERR_PARCEL, ability)
    ensures ts == [] || !ts[0].Bundle? ==> ReadBundleReply((NO_ERROR, [Bool(true)] + ts), bundle) == (false, bundle)
  {
    assert ([Bool(true)] + ts)[1..] == ts;
  }

  /** The infos in front of the first item that is none. */
  function LeadingAbilities(ts: Items): (infos: seq<RemoteAbilityInfo>)
    ensures |infos| <= |ts|
    ensures forall i | 0 <= i < |infos| :: ts[i] == Ability(infos[i])
    ensures |infos| < |ts| ==> !ts[|infos|].Ability?
  {
    if ts == [] || !ts[0].Ability? then []
    else
      var infos := LeadingAbilities(ts[1..]);
      assert forall i | 0 < i < |ts| :: ts[i] == ts[1..][i - 1];
      [ts[0].ability] + infos
  }

  lemma ConsAppend(out: seq<RemoteAbilityInfo>, info: RemoteAbilityInfo, rest: seq<RemoteAbilityInfo>, n: nat)
    requires 0 < n
    ensures out + [info] + rest == out + ([info] + rest)
    ensures n <= |rest| + 1 ==> out + [info] + rest[..n - 1] == out + ([info] + rest)[..n]
  {}

  /** A reply with fewer infos than announced is a parcel error, but those that were there stay appended. */
  lemma {:induction false} ShortReplyAppendsWhatIsThere(ts: Items, n: nat, out: seq<RemoteAbilityInfo>)
    ensures var there := LeadingAbilities(ts);
            AppendAbilities(ts, n, out) == if n <= |there| then (NO_ERROR, out + there[..n]) else (ERR_PARCEL, out + there)
    decreases n
  {
    if n == 0 {
      assert LeadingAbilities(ts)[..0] == [] && out + [] == out;
    } else if ts == [] || !ts[0].Ability? {
      assert out + [] == out;
    } else {
      var info, rest := ts[0].ability, LeadingAbilities(ts[1..]);
      ShortReplyAppendsWhatIsThere(ts[1..], n - 1, out + [info]);
      assert AppendAbilities(ts, n, out) == AppendAbilities(ts[1..], n - 1, out + [info]);
      assert LeadingAbilities(ts) == [info] + rest;
      hide LeadingAbilities, AppendAbilities;
      ConsAppend(out, info, rest, n);
    }
  }

  /** A reply that announces n infos, whatever n is. */
  lemma AnnouncedInfosAreAppended(n: int, ts: Items, out: seq<RemoteAbilityInfo>)
    ensures var there := LeadingAbilities(ts);
            ReadAbilitiesReply((NO_ERROR, [Bool(true), Int32(n)] + ts), out)
              == if n <= 0 then (NO_ERROR, out)
                 else if n <= |there| then (NO_ERROR, out + there[..n])
                 else (ERR_PARCEL, out + there)
  {
    hide LeadingAbilities;
    var reply := [Bool(true), Int32(n)] + ts;
    assert reply[1..] == [Int32(n)] + ts && reply[1..][1..] == ts;
    if n > 0 {
      ShortReplyAppendsWhatIsThere(ts, n, out);
    }
  }

  // ---------------------------------------------------------------------------
  // Transparency
  // ---------------------------------------------------------------------------

  /** A call on the implementation itself: the output counts only with NO_ERROR. */
  function Direct<T>(answer: (int, T), out: T): (int, T) {
    if answer.0 == NO_ERROR then answer else (answer.0, out)
  }

  /** ... as far as the request fits into a parcel. */
  function Sent<T>(cap: nat, size: nat, answer: (int, T), out: T): (int, T) {
    if size > cap then (ERR_PARCEL, out) else Direct(answer, out)
  }

  /** The same for a call that answers with a flag. */
  function SentFlag<T>(cap: nat, size: nat, answer: (bool, T), out: T): (bool, T) {
    if size > cap || !answer.0 then (false, out) else answer
  }

  /** A vector call: at most ten elements, and the reply must fit as well. */
  function SentVector(cap: nat, size: nat, es: seq<ElementName>, answer: (int, seq<RemoteAbilityInfo>), out: seq<RemoteAbilityInfo>)
    : (int, seq<RemoteAbilityInfo>)
  {
    if size > cap || |es| > 10 then (ERR_PARCEL, out)
    else if answer.0 != NO_ERROR then (answer.0, out)
    else if 2 + |answer.1| > cap then (ERR_PARCEL, out)
    else (NO_ERROR, out + answer.1)
  }

  lemma RemoteAbilityInfoIsTransparent(s: Service, cap: nat, e: ElementName, locale: string, out: RemoteAbilityInfo)
    ensures ProxyRemoteAbilityInfo(Some(s), cap, e, locale, out)
         == if CheckElementName(e) != NO_ERROR then (CheckElementName(e), out)
            else Sent(cap, 3, s.remoteAbilityInfo(e, locale), out)
  {
    assert ElementRequest(e, locale)[1..] == [Element(e), Str(locale)];
  }

  /** The host takes a printed element and locale apart again, in front of anything. */
  lemma HostReadsElementRequest(s: Service, cap: nat, e: ElementName, locale: string, rest: Items)
    ensures var request := ElementRequest(e, locale) + rest;
            && |request| == 3 + |rest|
            && request[0] == Token(DESCRIPTOR)
            && HandleAbilityInfo(s, cap, request[1..])
               == (var acl := TakeOptionalAcl(rest);
                   if acl.None? then (ERR_PARCEL, []) else AbilityReply(cap, s.abilityInfo(e, locale, acl.value)))
  {
    hide TakeOptionalAcl, AbilityReply;
    var request := ElementRequest(e, locale) + rest;
    assert request[1..] == [Element(e), Str(locale)] + rest;
    assert request[1..][1..] == [Str(locale)] + rest && request[1..][1..][1..] == rest;
  }

  lemma AbilityArrives(cap: nat, answer: (int, RemoteAbilityInfo), out: RemoteAbilityInfo)
    requires cap >= 2
    ensures ReadAbilityReply(AbilityReply(cap, answer), out) == Direct(answer, out)
  {}

  lemma AbilityInfoIsTransparent(s: Service, cap: nat, e: ElementName, locale: string, acl: Option<AclInfo>, out: RemoteAbilityInfo)
    ensures ProxyAbilityInfo(Some(s), cap, e, locale, acl, out)
         == Sent(cap, if acl.Some? then 10 else 4, s.abilityInfo(e, locale, acl), out)
  {
    OptionalAclRoundTrip(acl);
    assert |OptionalAclItems(acl)| == if acl.Some? then 7 else 1;
    hide OptionalAclItems, TakeOptionalAcl, HandleAbilityInfo, AbilityReply;
    HostReadsElementRequest(s, cap, e, locale, OptionalAclItems(acl));
    hide ElementRequest;
    if cap >= 4 {
      AbilityArrives(cap, s.abilityInfo(e, locale, acl), out);
    }
    assert ReadAbilityReply((ERR_PARCEL, []), out) == (ERR_PARCEL, out);
    hide ReadAbilityReply;
  }

  lemma OptionalAclRoundTrip(acl: Option<AclInfo>)
    ensures TakeOptionalAcl(OptionalAclItems(acl)) == Some(acl)
  {
    if acl.Some? {
      AclRoundTrip(acl.value, []);
      assert OptionalAclItems(acl)[1..] == AclItems(acl.value) + [];
    }
  }

  /** The host reads back a vector that fits exactly when it has at most ten elements. */
  lemma VectorArrives(es: seq<ElementName>, rest: Items, cap: nat)
    requires |es| < cap < 0x8000_0000
    ensures var taken := TakeElementVector([Int32(ToInt32(|es|))] + ElementItems(es) + rest);
            if |es| > 10 then taken.0 == None else taken == (Some(es), rest)
  {
    hide TakeElements, ElementItems;
    assert ToInt32(|es|) == |es|;
    hide ToInt32;
    var ts := [Int32(ToInt32(|es|))] + ElementItems(es) + rest;
    assert ts[1..] == ElementItems(es) + rest;
    ElementsRoundTrip(es, rest);
  }

  lemma {:induction false} AppendIsTake(infos: seq<RemoteAbilityInfo>, out: seq<RemoteAbilityInfo>)
    ensures AppendAbilities(AbilityItems(infos), |infos|, out) == (NO_ERROR, out + infos)
    decreases |infos|
  {
    if infos == [] {
      assert out + infos == out;
    } else {
      AppendIsTake(infos[1..], out + [infos[0]]);
      assert AbilityItems(infos)[1..] == AbilityItems(infos[1..]);
      assert out + [infos[0]] + infos[1..] == out + infos;
    }
  }

  lemma AbilitiesArrive(cap: nat, answer: (int, seq<RemoteAbilityInfo>), out: seq<RemoteAbilityInfo>)
    requires cap < 0x8000_0000
    ensures ReadAbilitiesReply(AbilitiesReply(cap, answer), out)
         == if answer.0 != NO_ERROR then (answer.0, out)
            else if 2 + |answer.1| > cap then (ERR_PARCEL, out)
            else (NO_ERROR, out + answer.1)
  {
    hide AbilityItems, AppendAbilities;
    var ts := [Bool(true), Int32(ToInt32(|answer.1|))] + AbilityItems(answer.1);
    AppendIsTake(answer.1, out);
    if |ts| <= cap {
      assert ToInt32(|answer.1|) == |answer.1|;
      assert ts[1..][1..] == AbilityItems(answer.1);
    }
  }

  /** The host takes a printed vector request apart again, in front of anything, if it has at most ten elements. */
  lemma HostReadsVectorRequest(cap: nat, es: seq<ElementName>, locale: string, rest: Items)
    requires cap < 0x8000_0000
    ensures |VectorRequest(es, locale) + rest| == 3 + |es| + |rest|
    ensures |es| < cap ==>
              var request := VectorRequest(es, locale) + rest;
              && request[0] == Token(DESCRIPTOR)
              && var taken := TakeElementVector(request[1..]);
                 if |es| > 10 then taken.0 == None else taken == (Some(es), [Str(locale)] + rest)
  {
    hide TakeElementVector, ToInt32;
    var request := VectorRequest(es, locale) + rest;
    assert request[1..] == [Int32(ToInt32(|es|))] + ElementItems(es) + ([Str(locale)] + rest);
    if |es| < cap {
      VectorArrives(es, [Str(locale)] + rest, cap);
    }
  }

  lemma RemoteAbilityInfosIsTransparent(s: Service, cap: nat, es: seq<ElementName>, locale: string, out: seq<RemoteAbilityInfo>)
    requires cap < 0x8000_0000
    ensures ProxyRemoteAbilityInfos(Some(s), cap, es, locale, out)
         == if CheckElementNames(es) != NO_ERROR then (CheckElementNames(es), out)
            else SentVector(cap, 3 + |es|, es, s.remoteAbilityInfos(es, locale), out)
  {
    hide AbilitiesReply, ReadAbilitiesReply, TakeElementVector, VectorRequest;
    HostReadsVectorRequest(cap, es, locale, []);
    assert VectorRequest(es, locale) + [] == VectorRequest(es, locale);
    AbilitiesArrive(cap, s.remoteAbilityInfos(es, locale), out);
    ErrorsPassThrough(ERR_PARCEL, out);
  }

  lemma ErrorsPassThrough(ret: int, out: seq<RemoteAbilityInfo>)
    requires ret != NO_ERROR
    ensures forall ts: Items :: ReadAbilitiesReply((ret, ts), out) == (ret, out)
  {}

  lemma AbilityInfosIsTransparent(s: Service, cap: nat, es: seq<ElementName>, locale: string, acl: Option<AclInfo>, out: seq<RemoteAbilityInfo>)
    requires cap < 0x8000_0000
    ensures ProxyAbilityInfos(Some(s), cap, es, locale, acl, out)
         == SentVector(cap, |es| + if acl.Some? then 10 else 4, es, s.abilityInfos(es, locale, acl), out)
  {
    assert |OptionalAclItems(acl)| == if acl.Some? then 7 else 1;
    hide AbilitiesReply, ReadAbilitiesReply, TakeElementVector, OptionalAclItems, TakeOptionalAcl, VectorRequest;
    HostReadsVectorRequest(cap, es, locale, OptionalAclItems(acl));
    assert ([Str(locale)] + OptionalAclItems(acl))[1..] == OptionalAclItems(acl);
    OptionalAclRoundTrip(acl);
    AbilitiesArrive(cap, s.abilityInfos(es, locale, acl), out);
    ErrorsPassThrough(ERR_PARCEL, out);
  }

  lemma BundleInfoIsTransparent(s: Service, cap: nat, networkId: string, name: string, out: DistributedBundleInfo)
    ensures ProxyBundleInfo(Some(s), cap, networkId, name, out)
         == SentFlag(cap, 3, s.bundleInfo(networkId, name), out)
  {
    var request := [Token(DESCRIPTOR), Str(networkId), Str(name)];
    assert request[1..] == [Str(networkId), Str(name)] && request[1..][1..] == [Str(name)];
  }

  lemma BundleNameIsTransparent(s: Service, cap: nat, networkId: string, token: int, out: string)
    ensures ProxyBundleName(Some(s), cap, networkId, token, out) == Sent(cap, 3, s.bundleName(networkId, token), out)
  {
    var request := [Token(DESCRIPTOR), Str(networkId), Uint32(token)];
    assert request[1..] == [Str(networkId), Uint32(token)] && request[1..][1..] == [Uint32(token)];
  }

  lemma RemoteVersionIsTransparent(s: Service, cap: nat, deviceId: string, name: string, out: int)
    ensures ProxyRemoteVersion(Some(s), cap, deviceId, name, out) == Sent(cap, 3, s.remoteVersion(deviceId, name), out)
  {
    var request := [Token(DESCRIPTOR), Str(deviceId), Str(name)];
    assert request[1..] == [Str(deviceId), Str(name)] && request[1..][1..] == [Str(name)];
  }

  lemma VersionIsTransparent(s: Service, cap: nat, name: string, acl: AclInfo, out: int)
    ensures ProxyVersion(Some(s), cap, name, acl, out) == Sent(cap, 8, s.version(name, acl), out)
  {
    var request := [Token(DESCRIPTOR), Str(name)] + AclItems(acl);
    assert request[1..] == [Str(name)] + AclItems(acl) && request[1..][1..] == AclItems(acl) + [];
    AclRoundTrip(acl, []);
    assert |AclItems(acl)| == 6;
    hide AclItems, TakeAcl;
  }
}
