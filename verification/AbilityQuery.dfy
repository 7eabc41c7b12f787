/**
 The ability query of the service, one element or a batch, and what a remote client gets
 from a batch through proxy and host.  Permission checks, bundle manager, account and
 image services are arbitrary functions with one answer per call.
 */
module AbilityQuery {
  import opened Wrappers
  import opened Bundles
  import TableSteps
  import opened Parcels
  import opened Rpc

  const ERR_PERMISSION_DENIED := 1006
  const ERR_FAILED_SERVICE_DIED := 1007
  const ERR_INVALID_USER_ID := 1008
  const ERR_FAILED_GET_ABILITY_INFO := 1009

  datatype Oracles = Oracles(
    permitted: Option<AclInfo> -> bool,
    hasBundleMgr: bool,
    activeUser: int,
    query: ElementName -> (int, seq<AbilityInfo>),
    labelOf: (AbilityInfo, string) -> string,
    icon: AbilityInfo -> (int, string))

  /** `GetAbilityInfo`; the info counts only with result NO_ERROR. */
  function QueryOne(o: Oracles, e: ElementName, locale: string, acl: Option<AclInfo>): (int, RemoteAbilityInfo) {
    var blank := RemoteAbilityInfo(ElementName("", "", "", ""), "", "");
    if !o.permitted(acl) then (ERR_PERMISSION_DENIED, blank)
    else if !o.hasBundleMgr then (ERR_FAILED_SERVICE_DIED, blank)
    else if o.activeUser == TableSteps.INVALID_USERID then (ERR_INVALID_USER_ID, blank)
    else
      var (ret, abilityInfos) := o.query(e);
      if ret != NO_ERROR then (ret, blank)
      else if abilityInfos == [] then (ERR_FAILED_GET_ABILITY_INFO, blank)
      else
        var text := o.labelOf(abilityInfos[0], locale);
        if text == "" then (ERR_FAILED_GET_ABILITY_INFO, blank)
        else
          var (iconRet, icon) := o.icon(abilityInfos[0]);
          (iconRet, RemoteAbilityInfo(e, text, icon))
  }

  /**
   An answer to one query, guard by guard: each guard has its own code, in this order, and
   when all are passed the info holds the element asked for, the label of the first ability
   found in the language asked for, and its icon.
   */
  ghost predicate IsAnswer(o: Oracles, e: ElementName, locale: string, acl: Option<AclInfo>, ret: int, info: RemoteAbilityInfo) {
    var (code, found) := o.query(e);
    var served := o.permitted(acl) && o.hasBundleMgr && o.activeUser != TableSteps.INVALID_USERID;
    && (!o.permitted(acl) ==> ret == ERR_PERMISSION_DENIED)
    && (o.permitted(acl) && !o.hasBundleMgr ==> ret == ERR_FAILED_SERVICE_DIED)
    && (o.permitted(acl) && o.hasBundleMgr && o.activeUser == TableSteps.INVALID_USERID ==> ret == ERR_INVALID_USER_ID)
    && (served && code != NO_ERROR ==> ret == code)
    && (served && code == NO_ERROR && found == [] ==> ret == ERR_FAILED_GET_ABILITY_INFO)
    && (served && code == NO_ERROR && found != [] && o.labelOf(found[0], locale) == "" ==> ret == ERR_FAILED_GET_ABILITY_INFO)
    && (served && code == NO_ERROR && found != [] && o.labelOf(found[0], locale) != "" ==>
          && ret == o.icon(found[0]).0
          && info.elementName == e
          && info.abilityLabel == o.labelOf(found[0], locale)
          && info.icon == o.icon(found[0]).1)
  }

  lemma QueryOneAnswers(o: Oracles, e: ElementName, locale: string, acl: Option<AclInfo>)
    ensures var (ret, info) := QueryOne(o, e, locale, acl); IsAnswer(o, e, locale, acl, ret, info)
  {}

  /** The code of an answer is determined, and with NO_ERROR so is the info. */
  lemma AnswerUnique(o: Oracles, e: ElementName, locale: string, acl: Option<AclInfo>,
                     ret: int, info: RemoteAbilityInfo, ret': int, info': RemoteAbilityInfo)
    requires IsAnswer(o, e, locale, acl, ret, info) && IsAnswer(o, e, locale, acl, ret', info')
    ensures ret == ret' && (ret == NO_ERROR ==> info == info')
  {}

  /**
   A batch: one answer with NO_ERROR for each of the first elements, in order, and if those
   are not all, the code of an answer with an error to the next one.
   */
  ghost predicate IsBatch(o: Oracles, es: seq<ElementName>, locale: string, acl: Option<AclInfo>, ret: int, infos: seq<RemoteAbilityInfo>) {
    && |infos| <= |es|
    && (forall i | 0 <= i < |infos| :: IsAnswer(o, es[i], locale, acl, NO_ERROR, infos[i]))
    && (ret == NO_ERROR <==> |infos| == |es|)
    && (ret != NO_ERROR ==> exists info :: IsAnswer(o, es[|infos|], locale, acl, ret, info))
  }

  function QueryFrom(o: Oracles, es: seq<ElementName>, locale: string, acl: Option<AclInfo>, out: seq<RemoteAbilityInfo>)
    : (int, seq<RemoteAbilityInfo>)
    decreases |es|
  {
    if es == [] then (NO_ERROR, out)
    else
      var (ret, info) := QueryOne(o, es[0], locale, acl);
      if ret != NO_ERROR then (ret, out) else QueryFrom(o, es[1..], locale, acl, out + [info])
  }

  function QueryBatch(o: Oracles, es: seq<ElementName>, locale: string, acl: Option<AclInfo>): (int, seq<RemoteAbilityInfo>) {
    if !o.permitted(acl) then (ERR_PERMISSION_DENIED, []) else QueryFrom(o, es, locale, acl, [])
  }

  /** `GetAbilityInfos`: the loop of the service. */
  method GetAbilityInfos(o: Oracles, es: seq<ElementName>, locale: string, acl: Option<AclInfo>)
    returns (ret: int, infos: seq<RemoteAbilityInfo>)
    ensures (ret, infos) == QueryBatch(o, es, locale, acl)
    ensures if o.permitted(acl) then IsBatch(o, es, locale, acl, ret, infos) else ret == ERR_PERMISSION_DENIED && infos == []
  {
    if o.permitted(acl) {
      BatchAnswers(o, es, locale, acl);
    }
    infos := [];
    if !o.permitted(acl) {
      return ERR_PERMISSION_DENIED, infos;
    }
    for i := 0 to |es|
      invariant QueryFrom(o, es, locale, acl, []) == QueryFrom(o, es[i..], locale, acl, infos)
    {
      assert es[i..][1..] == es[i + 1..];
      var (result, info) := QueryOne(o, es[i], locale, acl);
      if result != NO_ERROR {
        return result, infos;
      }
      infos := infos + [info];
    }
    ret := NO_ERROR;
  }

  /** The number of elements at the front that can be answered. */
  function Answered(o: Oracles, es: seq<ElementName>, locale: string, acl: Option<AclInfo>): (k: nat)
    ensures k <= |es|
    ensures forall i | 0 <= i < k :: QueryOne(o, es[i], locale, acl).0 == NO_ERROR
    ensures k < |es| ==> QueryOne(o, es[k], locale, acl).0 != NO_ERROR
  {
    if es == [] || QueryOne(o, es[0], locale, acl).0 != NO_ERROR then 0
    else 1 + Answered(o, es[1..], locale, acl)
  }

  /** The loop stops at the first element that fails and has then collected the ones before it. */
  lemma {:induction false} QueryFromExactly(o: Oracles, es: seq<ElementName>, locale: string, acl: Option<AclInfo>, out: seq<RemoteAbilityInfo>)
    ensures var (ret, infos) := QueryFrom(o, es, locale, acl, out);
            var k := Answered(o, es, locale, acl);
            && ret == (if k < |es| then QueryOne(o, es[k], locale, acl).0 else NO_ERROR)
            && |infos| == |out| + k && out <= infos
            && forall i | 0 <= i < k :: infos[|out| + i] == QueryOne(o, es[i], locale, acl).1
    decreases |es|
  {
    if es != [] && QueryOne(o, es[0], locale, acl).0 == NO_ERROR {
      var info := QueryOne(o, es[0], locale, acl).1;
      QueryFromExactly(o, es[1..], locale, acl, out + [info]);
      var infos := QueryFrom(o, es, locale, acl, out).1;
      assert infos[|out|] == (out + [info])[|out|];
      forall i | 0 < i < Answered(o, es, locale, acl)
        ensures infos[|out| + i] == QueryOne(o, es[i], locale, acl).1
      {
        assert infos[|out + [info]| + (i - 1)] == QueryOne(o, es[1..][i - 1], locale, acl).1;
      }
    }
  }

  /** What the loop collects is a batch. */
  lemma BatchAnswers(o: Oracles, es: seq<ElementName>, locale: string, acl: Option<AclInfo>)
    requires o.permitted(acl)
    ensures var (ret, infos) := QueryBatch(o, es, locale, acl); IsBatch(o, es, locale, acl, ret, infos)
  {
    hide IsAnswer, QueryOne;
    QueryFromExactly(o, es, locale, acl, []);
    var (ret, infos) := QueryBatch(o, es, locale, acl);
    forall i | 0 <= i < |infos| ensures IsAnswer(o, es[i], locale, acl, NO_ERROR, infos[i]) {
      QueryOneAnswers(o, es[i], locale, acl);
    }
    if ret != NO_ERROR {
      QueryOneAnswers(o, es[|infos|], locale, acl);
    }
  }

  lemma OwnElement(o: Oracles, e: ElementName, locale: string, acl: Option<AclInfo>)
    requires QueryOne(o, e, locale, acl).0 == NO_ERROR
    ensures QueryOne(o, e, locale, acl).1.elementName == e
  {}

  /**
   A batch through proxy and host, whoever asks and whatever its size: a request too large
   for a parcel or of more than ten elements gets the parcel error, a refused caller the
   permission code, and the client keeps its vector as it was; otherwise the client gets the
   code of the first element that fails, its vector unchanged, or one info per element,
   appended in order, each with the element it was asked for, its label and its icon.
   */
  lemma BatchThroughTheWire(o: Oracles, s: Service, cap: nat, es: seq<ElementName>, locale: string, acl: Option<AclInfo>,
                            out: seq<RemoteAbilityInfo>)
    requires s.abilityInfos(es, locale, acl) == QueryBatch(o, es, locale, acl)
    requires cap < 0x8000_0000
    ensures var (ret, infos) := ProxyAbilityInfos(Some(s), cap, es, locale, acl, out);
            if |es| + (if acl.Some? then 10 else 4) > cap || |es| > 10 then ret == ERR_PARCEL && infos == out
            else if !o.permitted(acl) then ret == ERR_PERMISSION_DENIED && infos == out
            else
              && out <= infos
              && (ret == NO_ERROR ==> IsBatch(o, es, locale, acl, ret, infos[|out|..]))
              && (ret != NO_ERROR ==> infos == out && exists answered :: IsBatch(o, es, locale, acl, ret, answered))
  {
    hide ProxyAbilityInfos, QueryBatch, IsBatch;
    AbilityInfosIsTransparent(s, cap, es, locale, acl, out);
    if o.permitted(acl) {
      BatchAnswers(o, es, locale, acl);
      var (ret, infos) := s.abilityInfos(es, locale, acl);
      BatchSize(o, es, locale, acl, ret, infos);
      assert (out + infos)[|out|..] == infos;
    } else {
      RefusedBatch(o, es, locale, acl);
    }
  }

  lemma BatchSize(o: Oracles, es: seq<ElementName>, locale: string, acl: Option<AclInfo>, ret: int, infos: seq<RemoteAbilityInfo>)
    requires IsBatch(o, es, locale, acl, ret, infos)
    ensures |infos| <= |es|
  {}

  lemma RefusedBatch(o: Oracles, es: seq<ElementName>, locale: string, acl: Option<AclInfo>)
    requires !o.permitted(acl)
    ensures QueryBatch(o, es, locale, acl) == (ERR_PERMISSION_DENIED, [])
  {}
}
