/**
 `DistributedBmsHost` and `DistributedBmsProxy` as objects that move parcel cursors and
 write items one after the other.  Each method is proved to compute the function of
 `Rpc` with the corresponding name.
 */
module HostAndProxy {
  import opened Wrappers
  import opened Bundles
  import opened Parcels
  import opened Rpc

  /** A result code with the reply it stands for; the reply counts only with NO_ERROR. */
  predicate Matches(ret: int, items: Items, spec: (int, Items)) {
    ret == spec.0 && (ret == NO_ERROR ==> items == spec.1)
  }

  class DistributedBmsHost {
    const service: Service

    constructor (service: Service)
      ensures this.service == service
    {
      this.service := service;
    }

    method WriteAbilityReply(answer: (int, RemoteAbilityInfo), reply: MessageParcel) returns (ret: int)
      requires reply.Valid() && reply.items == []
      modifies reply
      ensures reply.Valid() && reply.cursor == old(reply.cursor)
      ensures Matches(ret, reply.items, AbilityReply(reply.capacity, answer))
    {
      if answer.0 != NO_ERROR {
        return answer.0;
      }
      var ok := reply.Write(Bool(true));
      if !ok {
        return ERR_PARCEL;
      }
      ok := reply.Write(Ability(answer.1));
      return if ok then NO_ERROR else ERR_PARCEL;
    }

    /** `WriteParcelableVector` of the host. */
    method WriteAbilities(infos: seq<RemoteAbilityInfo>, reply: MessageParcel) returns (ok: bool)
      requires reply.Valid()
      modifies reply
      ensures reply.Valid() && reply.cursor == old(reply.cursor)
      ensures ok == (old(|reply.items|) + 1 + |infos| <= reply.capacity)
      ensures ok ==> reply.items == old(reply.items) + [Int32(ToInt32(|infos|))] + AbilityItems(infos)
    {
      ok := reply.Write(Int32(ToInt32(|infos|)));
      if !ok {
        return false;
      }
      ghost var start := reply.items;
      for i := 0 to |infos|
        invariant reply.Valid() && reply.cursor == old(reply.cursor)
        invariant reply.items == start + AbilityItems(infos)[..i]
      {
        ok := reply.Write(Ability(infos[i]));
        if !ok {
          return false;
        }
        assert AbilityItems(infos)[..i + 1] == AbilityItems(infos)[..i] + [Ability(infos[i])];
      }
      assert AbilityItems(infos)[..|infos|] == AbilityItems(infos);
      return true;
    }

    method WriteAbilitiesReply(answer: (int, seq<RemoteAbilityInfo>), reply: MessageParcel) returns (ret: int)
      requires reply.Valid() && reply.items == []
      modifies reply
      ensures reply.Valid() && reply.cursor == old(reply.cursor)
      ensures Matches(ret, reply.items, AbilitiesReply(reply.capacity, answer))
    {
      if answer.0 != NO_ERROR {
        return answer.0;
      }
      var ok := reply.Write(Bool(true));
      if !ok {
        return ERR_PARCEL;
      }
      ok := WriteAbilities(answer.1, reply);
      return if ok then NO_ERROR else ERR_PARCEL;
    }

    method WriteSingle(ret0: int, item: Item, reply: MessageParcel) returns (ret: int)
      requires reply.Valid() && reply.items == []
      modifies reply
      ensures reply.Valid() && reply.cursor == old(reply.cursor)
      ensures Matches(ret, reply.items, Reply(reply.capacity, ret0, [item]))
    {
      if ret0 != NO_ERROR {
        return ret0;
      }
      var ok := reply.Write(item);
      return if ok then NO_ERROR else ERR_PARCEL;
    }

    /** `GetParcelableInfos` of the host: a bounded size, then that many elements. */
    method GetElements(data: MessageParcel) returns (es: Option<seq<ElementName>>)
      requires data.Valid()
      modifies data`cursor
      ensures data.Valid() && (es, data.Unread()) == TakeElementVector(old(data.Unread()))
    {
      var infoSize := data.ReadInt32();
      if infoSize > MAX_SIZE || infoSize < 0 {
        return None;
      }
      ghost var start := data.Unread();
      var infos := [];
      var i := 0;
      PrependNothing(TakeElements(start, infoSize));
      while i < infoSize
        invariant 0 <= i <= infoSize && data.Valid()
        invariant TakeElements(start, infoSize) == Prepend(infos, TakeElements(data.Unread(), infoSize - i))
      {
        var info := data.ReadElement();
        if info.None? {
          return None;
        }
        PrependAssociates(infos, info.value, TakeElements(data.Unread(), infoSize - i - 1));
        infos := infos + [info.value];
        i := i + 1;
      }
      assert infos + [] == infos;
      return Some(infos);
    }

    method ReadOptionalAcl(data: MessageParcel) returns (acl: Option<Option<AclInfo>>)
      requires data.Valid()
      modifies data`cursor
      ensures data.Valid() && acl == TakeOptionalAcl(old(data.Unread()))
    {
      var hasInfo := data.ReadBool();
      if !hasInfo {
        return Some(None);
      }
      var info := data.ReadAcl();
      return if info.None? then None else Some(info);
    }

    method HandleGetRemoteAbilityInfo(data: MessageParcel, reply: MessageParcel) returns (ret: int)
      requires data.Valid() && reply.Valid() && data != reply && reply.items == []
      modifies data`cursor, reply
      ensures reply.Valid() && reply.cursor == old(reply.cursor)
      ensures Matches(ret, reply.items, HandleRemoteAbilityInfo(service, reply.capacity, old(data.Unread())))
    {
      var elementName := data.ReadElement();
      if elementName.None? {
        return ERR_PARCEL;
      }
      var localeInfo := data.ReadString();
      ret := WriteAbilityReply(service.remoteAbilityInfo(elementName.value, localeInfo), reply);
    }

    method HandleGetRemoteAbilityInfos(data: MessageParcel, reply: MessageParcel) returns (ret: int)
      requires data.Valid() && reply.Valid() && data != reply && reply.items == []
      modifies data`cursor, reply
      ensures reply.Valid() && reply.cursor == old(reply.cursor)
      ensures Matches(ret, reply.items, HandleRemoteAbilityInfos(service, reply.capacity, old(data.Unread())))
    {
      var elementNames := GetElements(data);
      if elementNames.None? {
        return ERR_PARCEL;
      }
      var localeInfo := data.ReadString();
      ret := WriteAbilitiesReply(service.remoteAbilityInfos(elementNames.value, localeInfo), reply);
    }

    method HandleGetAbilityInfo(data: MessageParcel, reply: MessageParcel) returns (ret: int)
      requires data.Valid() && reply.Valid() && data != reply && reply.items == []
      modifies data`cursor, reply
      ensures reply.Valid() && reply.cursor == old(reply.cursor)
      ensures Matches(ret, reply.items, HandleAbilityInfo(service, reply.capacity, old(data.Unread())))
    {
      var elementName := data.ReadElement();
      if elementName.None? {
        return ERR_PARCEL;
      }
      var localeInfo := data.ReadString();
      var info := ReadOptionalAcl(data);
      if info.None? {
        return ERR_PARCEL;
      }
      ret := WriteAbilityReply(service.abilityInfo(elementName.value, localeInfo, info.value), reply);
    }

    method HandleGetAbilityInfos(data: MessageParcel, reply: MessageParcel) returns (ret: int)
      requires data.Valid() && reply.Valid() && data != reply && reply.items == []
      modifies data`cursor, reply
      ensures reply.Valid() && reply.cursor == old(reply.cursor)
      ensures Matches(ret, reply.items, HandleAbilityInfos(service, reply.capacity, old(data.Unread())))
    {
      var elementNames := GetElements(data);
      if elementNames.None? {
        return ERR_PARCEL;
      }
      var localeInfo := data.ReadString();
      var info := ReadOptionalAcl(data);
      if info.None? {
        return ERR_PARCEL;
      }
      ret := WriteAbilitiesReply(service.abilityInfos(elementNames.value, localeInfo, info.value), reply);
    }

    method HandleGetDistributedBundleInfo(data: MessageParcel, reply: MessageParcel) returns (ret: int)
      requires data.Valid() && reply.Valid() && data != reply && reply.items == []
      modifies data`cursor, reply
      ensures reply.Valid() && reply.cursor == old(reply.cursor)
      ensures Matches(ret, reply.items, HandleBundleInfo(service, reply.capacity, old(data.Unread())))
    {
      var networkId := data.ReadString();
      var bundleName := data.ReadString();
      var (found, info) := service.bundleInfo(networkId, bundleName);
      if !found {
        return INVALID_OPERATION;
      }
      var ok := reply.Write(Bool(true));
      if !ok {
        return ERR_PARCEL;
      }
      ok := reply.Write(Bundle(info));
      return if ok then NO_ERROR else ERR_PARCEL;
    }

    method HandleGetDistributedBundleName(data: MessageParcel, reply: MessageParcel) returns (ret: int)
      requires data.Valid() && reply.Valid() && data != reply && reply.items == []
      modifies data`cursor, reply
      ensures reply.Valid() && reply.cursor == old(reply.cursor)
      ensures Matches(ret, reply.items, HandleBundleName(service, reply.capacity, old(data.Unread())))
    {
      var networkId := data.ReadString();
      var accessTokenId := data.ReadUint32();
      var (code, name) := service.bundleName(networkId, accessTokenId);
      ret := WriteSingle(code, Str(name), reply);
    }

    method HandleGetRemoteBundleVersionCode(data: MessageParcel, reply: MessageParcel) returns (ret: int)
      requires data.Valid() && reply.Valid() && data != reply && reply.items == []
      modifies data`cursor, reply
      ensures reply.Valid() && reply.cursor == old(reply.cursor)
      ensures Matches(ret, reply.items, HandleRemoteVersion(service, reply.capacity, old(data.Unread())))
    {
      var deviceId := data.ReadString();
      var bundleName := data.ReadString();
      var (code, version) := service.remoteVersion(deviceId, bundleName);
      ret := WriteSingle(code, Uint32(version), reply);
    }

    method HandleGetBundleVersionCode(data: MessageParcel, reply: MessageParcel) returns (ret: int)
      requires data.Valid() && reply.Valid() && data != reply && reply.items == []
      modifies data`cursor, reply
      ensures reply.Valid() && reply.cursor == old(reply.cursor)
      ensures Matches(ret, reply.items, HandleVersion(service, reply.capacity, old(data.Unread())))
    {
      var bundleName := data.ReadString();
      var info := data.ReadAcl();
      if info.None? {
        return ERR_PARCEL;
      }
      var (code, version) := service.version(bundleName, info.value);
      ret := WriteSingle(code, Uint32(version), reply);
    }

    method OnRemoteRequest(code: int, data: MessageParcel, reply: MessageParcel) returns (ret: int)
      requires data.Valid() && reply.Valid() && data != reply && reply.items == [] && data.cursor == 0
      modifies data`cursor, reply
      ensures reply.Valid() && reply.cursor == old(reply.cursor)
      ensures Matches(ret, reply.items, Respond(service, reply.capacity, code, old(data.items)))
      ensures |old(data.items)| == 0 || old(data.items)[0] != Token("ohos.appexecfwk.IDistributedbms") ==>
                ret == ERR_INVALID_STATE && reply.items == []
      ensures |old(data.items)| > 0 && old(data.items)[0] == Token("ohos.appexecfwk.IDistributedbms") && !(0 <= code < 12) ==>
                ret == IPC_STUB_UNKNOW_TRANS_ERR && reply.items == []
    {
      hide HandleRemoteAbilityInfo, HandleRemoteAbilityInfos, HandleAbilityInfo, HandleAbilityInfos;
      hide HandleBundleInfo, HandleBundleName, HandleRemoteVersion, HandleVersion;
      if |data.items| == 0 || data.items[0] != Token(DESCRIPTOR) {
        return ERR_INVALID_STATE;
      }
      data.cursor := 1;
      if code == GET_REMOTE_ABILITY_INFO || code == GET_REMOTE_ABILITY_INFO_WITH_LOCALE {
        ret := HandleGetRemoteAbilityInfo(data, reply);
      } else if code == GET_REMOTE_ABILITY_INFOS || code == GET_REMOTE_ABILITY_INFOS_WITH_LOCALE {
        ret := HandleGetRemoteAbilityInfos(data, reply);
      } else if code == GET_ABILITY_INFO || code == GET_ABILITY_INFO_WITH_LOCALE {
        ret := HandleGetAbilityInfo(data, reply);
      } else if code == GET_ABILITY_INFOS || code == GET_ABILITY_INFOS_WITH_LOCALE {
        ret := HandleGetAbilityInfos(data, reply);
      } else if code == GET_DISTRIBUTED_BUNDLE_INFO {
        ret := HandleGetDistributedBundleInfo(data, reply);
      } else if code == GET_DISTRIBUTED_BUNDLE_NAME {
        ret := HandleGetDistributedBundleName(data, reply);
      } else if code == GET_REMOTE_BUNDLE_VERSION_CODE {
        ret := HandleGetRemoteBundleVersionCode(data, reply);
      } else if code == GET_BUNDLE_VERSION_CODE {
        ret := HandleGetBundleVersionCode(data, reply);
      } else {
        ret := IPC_STUB_UNKNOW_TRANS_ERR;
      }
    }
  }

  function Prepend(front: seq<ElementName>, r: (Option<seq<ElementName>>, Items)): (Option<seq<ElementName>>, Items) {
    (if r.0.None? then None else Some(front + r.0.value), r.1)
  }

  lemma PrependNothing(r: (Option<seq<ElementName>>, Items))
    ensures Prepend([], r) == r
  {
    if r.0.Some? {
      assert [] + r.0.value == r.0.value;
    }
  }

  lemma PrependAssociates(front: seq<ElementName>, e: ElementName, r: (Option<seq<ElementName>>, Items))
    ensures Prepend(front, Prepend([e], r)) == Prepend(front + [e], r)
  {
    if r.0.Some? {
      assert front + ([e] + r.0.value) == front + [e] + r.0.value;
    }
  }

  class DistributedBmsProxy {
    const remote: DistributedBmsHost?
    const capacity: nat

    constructor (remote: DistributedBmsHost?, capacity: nat)
      ensures this.remote == remote && this.capacity == capacity
    {
      this.remote, this.capacity := remote, capacity;
    }

    function Remote(): Option<Service> {
      if remote == null then None else Some(remote.service)
    }

    method SendRequest(code: int, data: MessageParcel, reply: MessageParcel) returns (ret: int)
      requires data.Valid() && reply.Valid() && data != reply && reply.items == [] && reply.cursor == 0
      requires data.capacity == reply.capacity == capacity
      modifies reply
      ensures reply.Valid() && reply.cursor == 0
      ensures Matches(ret, reply.items, Transact(Remote(), capacity, code, data.items))
    {
      if remote == null {
        return ERR_FAILED_GET_REMOTE_PROXY;
      }
      var received := new MessageParcel.Received(data);
      ret := remote.OnRemoteRequest(code, received, reply);
    }

    /** `WriteParcelableVector` of the proxy. */
    method WriteElements(es: seq<ElementName>, data: MessageParcel) returns (ok: bool)
      requires data.Valid()
      modifies data
      ensures data.Valid() && data.cursor == old(data.cursor)
      ensures ok == (old(|data.items|) + 1 + |es| <= data.capacity)
      ensures ok ==> data.items == old(data.items) + [Int32(ToInt32(|es|))] + ElementItems(es)
    {
      ok := data.Write(Int32(ToInt32(|es|)));
      if !ok {
        return false;
      }
      ghost var start := data.items;
      for i := 0 to |es|
        invariant data.Valid() && data.cursor == old(data.cursor)
        invariant data.items == start + ElementItems(es)[..i]
      {
        ok := data.Write(Element(es[i]));
        if !ok {
          return false;
        }
        assert ElementItems(es)[..i + 1] == ElementItems(es)[..i] + [Element(es[i])];
      }
      assert ElementItems(es)[..|es|] == ElementItems(es);
      return true;
    }

    /** The flag, and the record if there is one. */
    method WriteOptionalAcl(info: Option<AclInfo>, data: MessageParcel) returns (ok: bool)
      requires data.Valid()
      modifies data
      ensures data.Valid() && data.cursor == old(data.cursor)
      ensures ok == (old(|data.items|) + |OptionalAclItems(info)| <= data.capacity)
      ensures ok ==> data.items == old(data.items) + OptionalAclItems(info)
    {
      ok := data.Write(Bool(info.Some?));
      if ok && info.Some? {
        ok := data.WriteAcl(info.value);
      }
    }

    method GetAbilityReply(code: int, data: MessageParcel, out: RemoteAbilityInfo) returns (ret: int, info: RemoteAbilityInfo)
      requires data.Valid() && data.capacity == capacity
      ensures (ret, info) == ReadAbilityReply(Transact(Remote(), capacity, code, data.items), out)
    {
      var reply := new MessageParcel(capacity);
      ret := SendRequest(code, data, reply);
      if ret != NO_ERROR {
        return ret, out;
      }
      var ok := reply.ReadBool();
      if !ok {
        return ERR_PARCEL, out;
      }
      var read := reply.ReadAbility();
      if read.None? {
        return ERR_PARCEL, out;
      }
      return NO_ERROR, read.value;
    }

    /** The loop of the proxy's `GetParcelableInfos`; the infos are appended to what the caller passed in. */
    method ReadAbilities(reply: MessageParcel, infoSize: int, out: seq<RemoteAbilityInfo>) returns (ret: int, infos: seq<RemoteAbilityInfo>)
      requires reply.Valid()
      modifies reply`cursor
      ensures (ret, infos) == AppendAbilities(old(reply.Unread()), infoSize, out)
    {
      infos := out;
      ghost var start := reply.Unread();
      var i := 0;
      while i < infoSize
        invariant 0 <= i && reply.Valid()
        invariant infoSize <= 0 ==> i == 0
        invariant AppendAbilities(start, infoSize, out) == AppendAbilities(reply.Unread(), infoSize - i, infos)
      {
        var info := reply.ReadAbility();
        if info.None? {
          return ERR_PARCEL, infos;
        }
        infos := infos + [info.value];
        i := i + 1;
      }
      ret := NO_ERROR;
    }

    method GetAbilitiesReply(code: int, data: MessageParcel, out: seq<RemoteAbilityInfo>) returns (ret: int, infos: seq<RemoteAbilityInfo>)
      requires data.Valid() && data.capacity == capacity
      ensures (ret, infos) == ReadAbilitiesReply(Transact(Remote(), capacity, code, data.items), out)
    {
      hide Transact, AppendAbilities;
      var reply := new MessageParcel(capacity);
      ret := SendRequest(code, data, reply);
      if ret != NO_ERROR {
        return ret, out;
      }
      var ok := reply.ReadBool();
      if !ok {
        return ERR_PARCEL, out;
      }
      var infoSize := reply.ReadInt32();
      ret, infos := ReadAbilities(reply, infoSize, out);
    }

    method CheckNames(es: seq<ElementName>) returns (ret: int)
      ensures ret == CheckElementNames(es)
    {
      for i := 0 to |es|
        invariant CheckElementNames(es) == CheckElementNames(es[i..])
      {
        assert es[i..][1..] == es[i + 1..];
        if CheckElementName(es[i]) != NO_ERROR {
          return CheckElementName(es[i]);
        }
      }
      return NO_ERROR;
    }

    method GetRemoteAbilityInfo(e: ElementName, locale: string, out: RemoteAbilityInfo) returns (ret: int, info: RemoteAbilityInfo)
      ensures (ret, info) == ProxyRemoteAbilityInfo(Remote(), capacity, e, locale, out)
      ensures remote == null ==>
                (ret, info) == (if CheckElementName(e) != NO_ERROR then CheckElementName(e) else if capacity < 3 then ERR_PARCEL else ERR_FAILED_GET_REMOTE_PROXY, out)
      ensures remote != null ==>
               (ret, info) == if CheckElementName(e) != NO_ERROR then (CheckElementName(e), out)
                 else Sent(capacity, 3, remote.service.remoteAbilityInfo(e, locale), out)
    {
      hide Sent, SentVector, SentFlag;
      if remote != null {
        RemoteAbilityInfoIsTransparent(remote.service, capacity, e, locale, out);
      }
      if CheckElementName(e) != NO_ERROR {
        return CheckElementName(e), out;
      }
      var data := new MessageParcel(capacity);
      var ok := data.Write(Token(DESCRIPTOR));
      if !ok {
        return ERR_PARCEL, out;
      }
      ok := data.Write(Element(e));
      if !ok {
        return ERR_PARCEL, out;
      }
      ok := data.Write(Str(locale));
      if !ok {
        return ERR_PARCEL, out;
      }
      ret, info := GetAbilityReply(GET_REMOTE_ABILITY_INFO_WITH_LOCALE, data, out);
    }

    /** Token, elements and locale of a vector request. */
    method WriteVectorRequest(es: seq<ElementName>, locale: string, data: MessageParcel) returns (ok: bool)
      requires data.Valid() && data.items == []
      modifies data
      ensures data.Valid() && data.cursor == old(data.cursor)
      ensures ok == (|VectorRequest(es, locale)| <= data.capacity)
      ensures ok ==> data.items == VectorRequest(es, locale)
    {
      ok := data.Write(Token(DESCRIPTOR));
      if !ok {
        return false;
      }
      ok := WriteElements(es, data);
      if !ok {
        return false;
      }
      ok := data.Write(Str(locale));
    }

    method GetRemoteAbilityInfos(es: seq<ElementName>, locale: string, out: seq<RemoteAbilityInfo>) returns (ret: int, infos: seq<RemoteAbilityInfo>)
      ensures (ret, infos) == ProxyRemoteAbilityInfos(Remote(), capacity, es, locale, out)
      ensures remote == null ==>
                (ret, infos) == (if CheckElementNames(es) != NO_ERROR then CheckElementNames(es) else if capacity < 3 + |es| then ERR_PARCEL else ERR_FAILED_GET_REMOTE_PROXY, out)
      ensures remote != null && capacity < 0x8000_0000 ==>
               (ret, infos) == if CheckElementNames(es) != NO_ERROR then (CheckElementNames(es), out)
                 else SentVector(capacity, 3 + |es|, es, remote.service.remoteAbilityInfos(es, locale), out)
    {
      hide Sent, SentVector, SentFlag;
      if remote != null && capacity < 0x8000_0000 {
        RemoteAbilityInfosIsTransparent(remote.service, capacity, es, locale, out);
      }
      hide VectorRequest;
      var checkRet := CheckNames(es);
      if checkRet != NO_ERROR {
        return checkRet, out;
      }
      var data := new MessageParcel(capacity);
      var ok := WriteVectorRequest(es, locale, data);
      if !ok {
        return ERR_PARCEL, out;
      }
      ret, infos := GetAbilitiesReply(GET_REMOTE_ABILITY_INFOS_WITH_LOCALE, data, out);
    }

    method GetAbilityInfo(e: ElementName, locale: string, acl: Option<AclInfo>, out: RemoteAbilityInfo) returns (ret: int, info: RemoteAbilityInfo)
      ensures (ret, info) == ProxyAbilityInfo(Remote(), capacity, e, locale, acl, out)
      ensures remote == null ==>
                (ret, info) == (if capacity < (if acl.Some? then 10 else 4) then ERR_PARCEL else ERR_FAILED_GET_REMOTE_PROXY, out)
      ensures remote != null ==>
               (ret, info) == Sent(capacity, if acl.Some? then 10 else 4, remote.service.abilityInfo(e, locale, acl), out)
    {
      hide Sent, SentVector, SentFlag;
      if remote != null {
        AbilityInfoIsTransparent(remote.service, capacity, e, locale, acl, out);
      }
      hide OptionalAclItems;
      ghost var request := ElementRequest(e, locale) + OptionalAclItems(acl);
      var data := new MessageParcel(capacity);
      var ok := data.Write(Token(DESCRIPTOR));
      if !ok {
        return ERR_PARCEL, out;
      }
      ok := data.Write(Element(e));
      if !ok {
        return ERR_PARCEL, out;
      }
      ok := data.Write(Str(locale));
      if !ok {
        return ERR_PARCEL, out;
      }
      assert data.items == ElementRequest(e, locale);
      ok := WriteOptionalAcl(acl, data);
      if !ok {
        return ERR_PARCEL, out;
      }
      ret, info := GetAbilityReply(GET_ABILITY_INFO_WITH_LOCALE, data, out);
      if ret == IPC_STUB_UNKNOW_TRANS_ERR {
        ret, info := GetAbilityReply(GET_ABILITY_INFO, data, info);
      }
    }

    method GetAbilityInfos(es: seq<ElementName>, locale: string, acl: Option<AclInfo>, out: seq<RemoteAbilityInfo>) returns (ret: int, infos: seq<RemoteAbilityInfo>)
      ensures (ret, infos) == ProxyAbilityInfos(Remote(), capacity, es, locale, acl, out)
      ensures remote == null ==>
                (ret, infos) == (if capacity < |es| + (if acl.Some? then 10 else 4) then ERR_PARCEL else ERR_FAILED_GET_REMOTE_PROXY, out)
      ensures remote != null && capacity < 0x8000_0000 ==>
               (ret, infos) == SentVector(capacity, |es| + if acl.Some? then 10 else 4, es, remote.service.abilityInfos(es, locale, acl), out)
    {
      hide Sent, SentVector, SentFlag;
      if remote != null && capacity < 0x8000_0000 {
        AbilityInfosIsTransparent(remote.service, capacity, es, locale, acl, out);
      }
      hide OptionalAclItems, VectorRequest;
      var data := new MessageParcel(capacity);
      var ok := WriteVectorRequest(es, locale, data);
      if !ok {
        return ERR_PARCEL, out;
      }
      ok := WriteOptionalAcl(acl, data);
      if !ok {
        return ERR_PARCEL, out;
      }
      ret, infos := GetAbilitiesReply(GET_ABILITY_INFOS_WITH_LOCALE, data, out);
      if ret == IPC_STUB_UNKNOW_TRANS_ERR {
        ret, infos := GetAbilitiesReply(GET_ABILITY_INFOS, data, infos);
      }
    }

    method GetDistributedBundleInfo(networkId: string, name: string, out: DistributedBundleInfo) returns (found: bool, info: DistributedBundleInfo)
      ensures (found, info) == ProxyBundleInfo(Remote(), capacity, networkId, name, out)
      ensures remote == null ==>
                (found, info) == (false, out)
      ensures remote != null ==>
               (found, info) == SentFlag(capacity, 3, remote.service.bundleInfo(networkId, name), out)
    {
      hide Sent, SentVector, SentFlag, Respond;
      if remote != null {
        BundleInfoIsTransparent(remote.service, capacity, networkId, name, out);
      }
      var data := new MessageParcel(capacity);
      var ok := data.Write(Token(DESCRIPTOR));
      if !ok {
        return false, out;
      }
      ok := data.Write(Str(networkId));
      if !ok {
        return false, out;
      }
      ok := data.Write(Str(name));
      if !ok {
        return false, out;
      }
      assert data.items == [Token(DESCRIPTOR), Str(networkId), Str(name)];
      var reply := new MessageParcel(capacity);
      var ret := SendRequest(GET_DISTRIBUTED_BUNDLE_INFO, data, reply);
      if ret != NO_ERROR {
        return false, out;
      }
      ok := reply.ReadBool();
      if !ok {
        return false, out;
      }
      var read := reply.ReadBundle();
      if read.None? {
        return false, out;
      }
      return true, read.value;
    }

    method GetDistributedBundleName(networkId: string, token: int, out: string) returns (ret: int, name: string)
      ensures (ret, name) == ProxyBundleName(Remote(), capacity, networkId, token, out)
      ensures remote == null ==>
                (ret, name) == (if capacity < 3 then ERR_PARCEL else ERR_FAILED_GET_REMOTE_PROXY, out)
      ensures remote != null ==>
               (ret, name) == Sent(capacity, 3, remote.service.bundleName(networkId, token), out)
    {
      hide Sent, SentVector, SentFlag, Respond;
      if remote != null {
        BundleNameIsTransparent(remote.service, capacity, networkId, token, out);
      }
      var data := new MessageParcel(capacity);
      var ok := data.Write(Token(DESCRIPTOR));
      if !ok {
        return ERR_PARCEL, out;
      }
      ok := data.Write(Str(networkId));
      if !ok {
        return ERR_PARCEL, out;
      }
      ok := data.Write(Uint32(token));
      if !ok {
        return ERR_PARCEL, out;
      }
      assert data.items == [Token(DESCRIPTOR), Str(networkId), Uint32(token)];
      var reply := new MessageParcel(capacity);
      ret := SendRequest(GET_DISTRIBUTED_BUNDLE_NAME, data, reply);
      name := out;
      if ret == NO_ERROR {
        name := reply.ReadString();
      }
    }

    method GetRemoteBundleVersionCode(deviceId: string, bundleName: string, out: int) returns (ret: int, version: int)
      ensures (ret, version) == ProxyRemoteVersion(Remote(), capacity, deviceId, bundleName, out)
      ensures remote == null ==>
                (ret, version) == (if capacity < 3 then ERR_PARCEL else ERR_FAILED_GET_REMOTE_PROXY, out)
      ensures remote != null ==>
               (ret, version) == Sent(capacity, 3, remote.service.remoteVersion(deviceId, bundleName), out)
    {
      hide Sent, SentVector, SentFlag, Respond;
      if remote != null {
        RemoteVersionIsTransparent(remote.service, capacity, deviceId, bundleName, out);
      }
      var data := new MessageParcel(capacity);
      var ok := data.Write(Token(DESCRIPTOR));
      if !ok {
        return ERR_PARCEL, out;
      }
      ok := data.Write(Str(deviceId));
      if !ok {
        return ERR_PARCEL, out;
      }
      ok := data.Write(Str(bundleName));
      if !ok {
        return ERR_PARCEL, out;
      }
      assert data.items == [Token(DESCRIPTOR), Str(deviceId), Str(bundleName)];
      var reply := new MessageParcel(capacity);
      ret := SendRequest(GET_REMOTE_BUNDLE_VERSION_CODE, data, reply);
      version := out;
      if ret == NO_ERROR {
        version := reply.ReadUint32();
      }
    }

    method GetBundleVersionCode(bundleName: string, info: AclInfo, out: int) returns (ret: int, version: int)
      ensures (ret, version) == ProxyVersion(Remote(), capacity, bundleName, info, out)
      ensures remote == null ==>
                (ret, version) == (if capacity < 8 then ERR_PARCEL else ERR_FAILED_GET_REMOTE_PROXY, out)
      ensures remote != null ==>
               (ret, version) == Sent(capacity, 8, remote.service.version(bundleName, info), out)
    {
      assert |AclItems(info)| == 6;
      hide Sent, SentVector, SentFlag, Respond, AclItems;
      if remote != null {
        VersionIsTransparent(remote.service, capacity, bundleName, info, out);
      }
      var data := new MessageParcel(capacity);
      var ok := data.Write(Token(DESCRIPTOR));
      if !ok {
        return ERR_PARCEL, out;
      }
      ok := data.Write(Str(bundleName));
      if !ok {
        return ERR_PARCEL, out;
      }
      assert data.items == [Token(DESCRIPTOR), Str(bundleName)];
      ok := data.WriteAcl(info);
      if !ok {
        return ERR_PARCEL, out;
      }
      var reply := new MessageParcel(capacity);
      ret := SendRequest(GET_BUNDLE_VERSION_CODE, data, reply);
      version := out;
      if ret == NO_ERROR {
        version := reply.ReadUint32();
      }
    }
  }
}
