/**
 Parcels: a bounded sequence of typed items with a read cursor.  Primitive items are
 lossless; a read of the wrong type, or past the end, yields the default and consumes
 nothing.  The ACL record is flattened into primitives by its own marshalling code.
 */
module Parcels {
  import opened Wrappers
  import opened Bundles

  datatype ElementName = ElementName(deviceId: string, bundleName: string, moduleName: string, abilityName: string)

  datatype RemoteAbilityInfo = RemoteAbilityInfo(elementName: ElementName, abilityLabel: string, icon: string)

  datatype AclInfo = AclInfo(networkId: string, userId: int, accountId: string, tokenId: int, pkgName: string)

  datatype Item =
    | Token(descriptor: string)
    | Int32(i: int)
    | Uint32(u: int)
    | Uint64(w: int)
    | Bool(b: bool)
    | Str(s: string)
    | Str16(s16: string)
    | Present                       // the mark in front of a parcelable that is not null
    | Element(element: ElementName)
    | Ability(ability: RemoteAbilityInfo)
    | Bundle(bundle: DistributedBundleInfo)

  type Items = seq<Item>

  function TakeInt32(ts: Items): (int, Items) {
    if ts != [] && ts[0].Int32? then (ts[0].i, ts[1..]) else (0, ts)
  }

  function TakeUint32(ts: Items): (int, Items) {
    if ts != [] && ts[0].Uint32? then (ts[0].u, ts[1..]) else (0, ts)
  }

  function TakeBool(ts: Items): (bool, Items) {
    if ts != [] && ts[0].Bool? then (ts[0].b, ts[1..]) else (false, ts)
  }

  function TakeString(ts: Items): (string, Items) {
    if ts != [] && ts[0].Str? then (ts[0].s, ts[1..]) else ("", ts)
  }

  function TakeString16(ts: Items): (string, Items) {
    if ts != [] && ts[0].Str16? then (ts[0].s16, ts[1..]) else ("", ts)
  }

  function TakeElement(ts: Items): (Option<ElementName>, Items) {
    if ts != [] && ts[0].Element? then (Some(ts[0].element), ts[1..]) else (None, ts)
  }

  function TakeAbility(ts: Items): (Option<RemoteAbilityInfo>, Items) {
    if ts != [] && ts[0].Ability? then (Some(ts[0].ability), ts[1..]) else (None, ts)
  }

  function TakeBundle(ts: Items): (Option<DistributedBundleInfo>, Items) {
    if ts != [] && ts[0].Bundle? then (Some(ts[0].bundle), ts[1..]) else (None, ts)
  }

  /** The reads that report failure instead of yielding a default. */
  function TryInt32(ts: Items): (Option<int>, Items) {
    if ts != [] && ts[0].Int32? then (Some(ts[0].i), ts[1..]) else (None, ts)
  }

  function TryUint64(ts: Items): (Option<int>, Items) {
    if ts != [] && ts[0].Uint64? then (Some(ts[0].w), ts[1..]) else (None, ts)
  }

  /** `ReadFromParcel` of the ACL record: only the two numbers can make it fail. */
  function TakeAclFields(ts: Items): (Option<AclInfo>, Items) {
    var (networkId, ts1) := TakeString16(ts);
    var (userId, ts2) := TryInt32(ts1);
    if userId.None? then (None, ts2)
    else
      var (accountId, ts3) := TakeString16(ts2);
      var (tokenId, ts4) := TryUint64(ts3);
      if tokenId.None? then (None, ts4)
      else
        var (pkgName, ts5) := TakeString16(ts4);
        (Some(AclInfo(networkId, userId.value, accountId, tokenId.value, pkgName)), ts5)
  }

  function TakeAcl(ts: Items): (Option<AclInfo>, Items) {
    if ts != [] && ts[0].Present? then TakeAclFields(ts[1..]) else (None, ts)
  }

  /** `WriteParcelable` of the ACL record. */
  function AclItems(info: AclInfo): Items {
    [Present, Str16(info.networkId), Int32(info.userId), Str16(info.accountId), Uint64(info.tokenId), Str16(info.pkgName)]
  }

  function OptionalAclItems(info: Option<AclInfo>): Items {
    [Bool(info.Some?)] + if info.Some? then AclItems(info.value) else []
  }

  /** Unmarshalling inverts marshalling in front of any further items. */
  lemma AclRoundTrip(info: AclInfo, rest: Items)
    ensures TakeAcl(AclItems(info) + rest) == (Some(info), rest)
  {
    var ts := AclItems(info) + rest;
    assert ts[1..][1..] == ts[2..] && ts[2..][1..] == ts[3..];
    assert ts[3..][1..] == ts[4..] && ts[4..][1..] == ts[5..] && ts[5..][1..] == ts[6..] == rest;
  }

  class MessageParcel {
    var items: Items
    var cursor: nat
    const capacity: nat

    ghost predicate Valid()
      reads this
    {
      cursor <= |items| <= capacity
    }

    function Unread(): Items
      requires cursor <= |items|
      reads this
    {
      items[cursor..]
    }

    constructor (capacity: nat)
      ensures Valid() && items == [] && cursor == 0 && this.capacity == capacity
    {
      this.capacity := capacity;
      items, cursor := [], 0;
    }

    /** What the other side receives: the items, unread. */
    constructor Received(sent: MessageParcel)
      requires sent.Valid()
      ensures Valid() && items == sent.items && cursor == 0
    {
      capacity := sent.capacity;
      items, cursor := sent.items, 0;
    }

    method Write(t: Item) returns (ok: bool)
      requires Valid()
      modifies this
      ensures Valid() && cursor == old(cursor)
      ensures ok == (old(|items|) < capacity)
      ensures items == if ok then old(items) + [t] else old(items)
    {
      if |items| >= capacity {
        return false;
      }
      items := items + [t];
      return true;
    }

    method WriteAcl(info: AclInfo) returns (ok: bool)
      requires Valid()
      modifies this
      ensures Valid() && cursor == old(cursor)
      ensures ok == (old(|items|) + 6 <= capacity)
      ensures ok ==> items == old(items) + AclItems(info)
      ensures ok ==> items == old(items) + [Present, Str16(info.networkId), Int32(info.userId), Str16(info.accountId),
                                            Uint64(info.tokenId), Str16(info.pkgName)]
    {
      ok := Write(Present);
      if !ok {
        return false;
      }
      ok := Write(Str16(info.networkId));
      if !ok {
        return false;
      }
      ok := Write(Int32(info.userId));
      if !ok {
        return false;
      }
      ok := Write(Str16(info.accountId));
      if !ok {
        return false;
      }
      ok := Write(Uint64(info.tokenId));
      if !ok {
        return false;
      }
      ok := Write(Str16(info.pkgName));
    }

    method ReadInt32() returns (v: int)
      requires Valid()
      modifies this`cursor
      ensures Valid() && (v, Unread()) == TakeInt32(old(Unread()))
    {
      v := 0;
      if cursor < |items| && items[cursor].Int32? {
        v := items[cursor].i;
        cursor := cursor + 1;
      }
    }

    method ReadUint32() returns (v: int)
      requires Valid()
      modifies this`cursor
      ensures Valid() && (v, Unread()) == TakeUint32(old(Unread()))
    {
      v := 0;
      if cursor < |items| && items[cursor].Uint32? {
        v := items[cursor].u;
        cursor := cursor + 1;
      }
    }

    method ReadBool() returns (v: bool)
      requires Valid()
      modifies this`cursor
      ensures Valid() && (v, Unread()) == TakeBool(old(Unread()))
    {
      v := false;
      if cursor < |items| && items[cursor].Bool? {
        v := items[cursor].b;
        cursor := cursor + 1;
      }
    }

    method ReadString() returns (v: string)
      requires Valid()
      modifies this`cursor
      ensures Valid() && (v, Unread()) == TakeString(old(Unread()))
    {
      v := "";
      if cursor < |items| && items[cursor].Str? {
        v := items[cursor].s;
        cursor := cursor + 1;
      }
    }

    method ReadString16() returns (v: string)
      requires Valid()
      modifies this`cursor
      ensures Valid() && (v, Unread()) == TakeString16(old(Unread()))
    {
      v := "";
      if cursor < |items| && items[cursor].Str16? {
        v := items[cursor].s16;
        cursor := cursor + 1;
      }
    }

    method ReadElement() returns (v: Option<ElementName>)
      requires Valid()
      modifies this`cursor
      ensures Valid() && (v, Unread()) == TakeElement(old(Unread()))
    {
      v := None;
      if cursor < |items| && items[cursor].Element? {
        v := Some(items[cursor].element);
        cursor := cursor + 1;
      }
    }

    method ReadAbility() returns (v: Option<RemoteAbilityInfo>)
      requires Valid()
      modifies this`cursor
      ensures Valid() && (v, Unread()) == TakeAbility(old(Unread()))
    {
      v := None;
      if cursor < |items| && items[cursor].Ability? {
        v := Some(items[cursor].ability);
        cursor := cursor + 1;
      }
    }

    method ReadBundle() returns (v: Option<DistributedBundleInfo>)
      requires Valid()
      modifies this`cursor
      ensures Valid() && (v, Unread()) == TakeBundle(old(Unread()))
    {
      v := None;
      if cursor < |items| && items[cursor].Bundle? {
        v := Some(items[cursor].bundle);
        cursor := cursor + 1;
      }
    }

    method TryReadInt32() returns (v: Option<int>)
      requires Valid()
      modifies this`cursor
      ensures Valid() && (v, Unread()) == TryInt32(old(Unread()))
    {
      v := None;
      if cursor < |items| && items[cursor].Int32? {
        v := Some(items[cursor].i);
        cursor := cursor + 1;
      }
    }

    method TryReadUint64() returns (v: Option<int>)
      requires Valid()
      modifies this`cursor
      ensures Valid() && (v, Unread()) == TryUint64(old(Unread()))
    {
      v := None;
      if cursor < |items| && items[cursor].Uint64? {
        v := Some(items[cursor].w);
        cursor := cursor + 1;
      }
    }

    /** `ReadFromParcel` of the ACL record. */
    method ReadAclFields() returns (v: Option<AclInfo>)
      requires Valid()
      modifies this`cursor
      ensures Valid() && (v, Unread()) == TakeAclFields(old(Unread()))
    {
      hide TakeString16, TryInt32, TryUint64;
      var networkId := ReadString16();
      var userId := TryReadInt32();
      if userId.None? {
        return None;
      }
      var accountId := ReadString16();
      var tokenId := TryReadUint64();
      if tokenId.None? {
        return None;
      }
      var pkgName := ReadString16();
      return Some(AclInfo(networkId, userId.value, accountId, tokenId.value, pkgName));
    }

    /** `ReadParcelable<DistributedBmsAclInfo>`. */
    method ReadAcl() returns (v: Option<AclInfo>)
      requires Valid()
      modifies this`cursor
      ensures Valid() && (v, Unread()) == TakeAcl(old(Unread()))
    {
      hide TakeAclFields;
      if cursor == |items| || !items[cursor].Present? {
        return None;
      }
      cursor := cursor + 1;
      v := ReadAclFields();
    }
  }
}
