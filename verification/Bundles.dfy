/**
 What the local bundle manager knows about a bundle, what the distributed table stores
 about it, and the conversion between the two, whose core is grouping the abilities of a
 bundle by module.
 */
module Bundles {
  import opened Strings

  datatype AbilityInfo = AbilityInfo(
    name: string, moduleName: string, permissions: seq<string>, kind: int, enabled: bool)

  datatype BundleInfo = BundleInfo(
    name: string, versionCode: int, compatibleVersion: int, versionName: string,
    minCompatibleVersionCode: int, targetVersion: int, appId: string,
    abilityInfos: seq<AbilityInfo>, appEnabled: bool, accessTokenId: int,
    updateTime: int, singleton: bool)

  datatype DistributedAbilityInfo = DistributedAbilityInfo(
    abilityName: string, permissions: seq<string>, kind: int, enabled: bool)

  datatype DistributedModuleInfo = DistributedModuleInfo(
    moduleName: string, abilities: seq<DistributedAbilityInfo>)

  datatype DistributedBundleInfo = DistributedBundleInfo(
    bundleName: string, versionCode: int, compatibleVersionCode: int, versionName: string,
    minCompatibleVersion: int, targetVersionCode: int, appId: string,
    moduleInfos: seq<DistributedModuleInfo>, enabled: bool, accessTokenId: int, updateTime: int)

  function ConvertAbility(a: AbilityInfo): DistributedAbilityInfo {
    DistributedAbilityInfo(a.name, a.permissions, a.kind, a.enabled)
  }

  /** One step of grouping: an ability joins its group, or founds it at its place in the order. */
  function Insert(groups: seq<DistributedModuleInfo>, a: AbilityInfo): (r: seq<DistributedModuleInfo>) {
    if groups == [] || Less(a.moduleName, groups[0].moduleName) then
      [DistributedModuleInfo(a.moduleName, [ConvertAbility(a)])] + groups
    else if groups[0].moduleName == a.moduleName then
      [DistributedModuleInfo(a.moduleName, groups[0].abilities + [ConvertAbility(a)])] + groups[1..]
    else
      [groups[0]] + Insert(groups[1..], a)
  }

  function Modules(abilities: seq<AbilityInfo>): seq<DistributedModuleInfo> {
    if abilities == [] then []
    else Insert(Modules(abilities[..|abilities| - 1]), abilities[|abilities| - 1])
  }

  function Convert(b: BundleInfo): DistributedBundleInfo {
    DistributedBundleInfo(b.name, b.versionCode, b.compatibleVersion, b.versionName,
                          b.minCompatibleVersionCode, b.targetVersion, b.appId,
                          Modules(b.abilityInfos), b.appEnabled, b.accessTokenId, b.updateTime)
  }

  // ---------------------------------------------------------------------------
  // What grouping means
  // ---------------------------------------------------------------------------

  ghost predicate StrictlyIncreasing(groups: seq<DistributedModuleInfo>) {
    forall i, j | 0 <= i < j < |groups| :: Less(groups[i].moduleName, groups[j].moduleName)
  }

  ghost predicate NoEmptyGroup(groups: seq<DistributedModuleInfo>) {
    forall i | 0 <= i < |groups| :: groups[i].abilities != []
  }

  /** The abilities filed under a module name. */
  function GroupOf(groups: seq<DistributedModuleInfo>, m: string): seq<DistributedAbilityInfo> {
    if groups == [] then []
    else if groups[0].moduleName == m then groups[0].abilities
    else GroupOf(groups[1..], m)
  }

  /** The abilities of a module in the order of the input. */
  function AbilitiesOf(abilities: seq<AbilityInfo>, m: string): seq<DistributedAbilityInfo> {
    if abilities == [] then []
    else
      var a := abilities[|abilities| - 1];
      AbilitiesOf(abilities[..|abilities| - 1], m) + if a.moduleName == m then [ConvertAbility(a)] else []
  }

  function Flatten(groups: seq<DistributedModuleInfo>): seq<DistributedAbilityInfo> {
    if groups == [] then [] else groups[0].abilities + Flatten(groups[1..])
  }

  function ConvertAll(abilities: seq<AbilityInfo>): seq<DistributedAbilityInfo> {
    seq(|abilities|, i requires 0 <= i < |abilities| => ConvertAbility(abilities[i]))
  }

  /** What is published of an ability: its name, permissions, kind and enabled flag. */
  predicate Describes(d: DistributedAbilityInfo, a: AbilityInfo) {
    d.abilityName == a.name && d.permissions == a.permissions && d.kind == a.kind && d.enabled == a.enabled
  }

  /** The abilities of a module themselves, in the order of the input. */
  function AbilitiesIn(abilities: seq<AbilityInfo>, m: string): (r: seq<AbilityInfo>)
    ensures forall a | a in r :: a in abilities && a.moduleName == m
  {
    if abilities == [] then []
    else
      var a := abilities[|abilities| - 1];
      AbilitiesIn(abilities[..|abilities| - 1], m) + if a.moduleName == m then [a] else []
  }

  ghost predicate Lists(ds: seq<DistributedAbilityInfo>, abilities: seq<AbilityInfo>) {
    |ds| == |abilities| && forall i | 0 <= i < |ds| :: Describes(ds[i], abilities[i])
  }

  ghost predicate IsGrouping(abilities: seq<AbilityInfo>, groups: seq<DistributedModuleInfo>) {
    && StrictlyIncreasing(groups)
    && NoEmptyGroup(groups)
    && forall m :: Lists(GroupOf(groups, m), AbilitiesIn(abilities, m))
  }

  /** What the table is to say about a bundle, field by field. */
  ghost predicate Publishes(info: DistributedBundleInfo, b: BundleInfo) {
    && info.bundleName == b.name
    && info.versionCode == b.versionCode
    && info.compatibleVersionCode == b.compatibleVersion
    && info.versionName == b.versionName
    && info.minCompatibleVersion == b.minCompatibleVersionCode
    && info.targetVersionCode == b.targetVersion
    && info.appId == b.appId
    && info.enabled == b.appEnabled
    && info.accessTokenId == b.accessTokenId
    && info.updateTime == b.updateTime
    && IsGrouping(b.abilityInfos, info.moduleInfos)
  }

  lemma {:induction false} AbilitiesOfLists(abilities: seq<AbilityInfo>, m: string)
    ensures Lists(AbilitiesOf(abilities, m), AbilitiesIn(abilities, m))
  {
    if abilities != [] {
      AbilitiesOfLists(abilities[..|abilities| - 1], m);
    }
  }

  /** The converted info is the one and only info that says it. */
  lemma PublishesExactly(info: DistributedBundleInfo, b: BundleInfo)
    ensures Publishes(info, b) <==> info == Convert(b)
  {
    ModulesIsGrouping(b.abilityInfos);
    if Publishes(info, b) {
      forall m ensures GroupOf(info.moduleInfos, m) == GroupOf(Modules(b.abilityInfos), m) {
        ListsUnique(GroupOf(info.moduleInfos, m), GroupOf(Modules(b.abilityInfos), m), AbilitiesIn(b.abilityInfos, m));
      }
      GroupingUnique(info.moduleInfos, Modules(b.abilityInfos));
    }
  }

  lemma ListsUnique(ds: seq<DistributedAbilityInfo>, ds': seq<DistributedAbilityInfo>, abilities: seq<AbilityInfo>)
    requires Lists(ds, abilities) && Lists(ds', abilities)
    ensures ds == ds'
  {
    forall i | 0 <= i < |ds| ensures ds[i] == ds'[i] {
      assert Describes(ds[i], abilities[i]) && Describes(ds'[i], abilities[i]);
    }
  }

  /** Read per ability: the k-th ability filed under a module is the k-th input ability of that module. */
  lemma {:induction false} AbilitiesInExactly(abilities: seq<AbilityInfo>, m: string, k: nat)
    requires k < |abilities| && abilities[k].moduleName == m
    ensures var before := |AbilitiesIn(abilities[..k], m)|;
            before < |AbilitiesIn(abilities, m)| && AbilitiesIn(abilities, m)[before] == abilities[k]
  {
    var front := abilities[..|abilities| - 1];
    if k < |front| {
      AbilitiesInExactly(front, m, k);
      assert front[..k] == abilities[..k];
    }
  }

  lemma {:induction false} InsertKeepsOrder(groups: seq<DistributedModuleInfo>, a: AbilityInfo)
    requires StrictlyIncreasing(groups) && NoEmptyGroup(groups)
    ensures StrictlyIncreasing(Insert(groups, a)) && NoEmptyGroup(Insert(groups, a))
    ensures forall g | g in Insert(groups, a) ::
              g.moduleName == a.moduleName || exists h :: h in groups && h.moduleName == g.moduleName
  {
    if groups == [] {
    } else if Less(a.moduleName, groups[0].moduleName) {
      forall j | 0 < j < |groups| ensures Less(a.moduleName, groups[j].moduleName) {
        LessTransitive(a.moduleName, groups[0].moduleName, groups[j].moduleName);
      }
    } else if groups[0].moduleName != a.moduleName {
      LessTrichotomy(a.moduleName, groups[0].moduleName);
      InsertKeepsOrder(groups[1..], a);
      var tail := Insert(groups[1..], a);
      forall j | 0 <= j < |tail| ensures Less(groups[0].moduleName, tail[j].moduleName) {
        assert tail[j] in tail;
      }
    }
  }

  lemma {:induction false} InsertFiles(groups: seq<DistributedModuleInfo>, a: AbilityInfo, m: string)
    requires StrictlyIncreasing(groups)
    ensures GroupOf(Insert(groups, a), m)
         == GroupOf(groups, m) + if a.moduleName == m then [ConvertAbility(a)] else []
  {
    if groups == [] {
    } else if Less(a.moduleName, groups[0].moduleName) {
      if a.moduleName == m {
        AbsentBelow(groups, m);
      }
    } else if groups[0].moduleName != a.moduleName {
      InsertFiles(groups[1..], a, m);
    }
  }

  lemma {:induction false} AbsentBelow(groups: seq<DistributedModuleInfo>, m: string)
    requires StrictlyIncreasing(groups)
    requires groups != [] ==> Less(m, groups[0].moduleName)
    ensures GroupOf(groups, m) == []
  {
    if groups != [] {
      LessTrichotomy(m, groups[0].moduleName);
      if |groups| > 1 {
        LessTransitive(m, groups[0].moduleName, groups[1].moduleName);
      }
      AbsentBelow(groups[1..], m);
    }
  }

  lemma {:induction false} InsertConserves(groups: seq<DistributedModuleInfo>, a: AbilityInfo)
    ensures multiset(Flatten(Insert(groups, a))) == multiset(Flatten(groups)) + multiset{ConvertAbility(a)}
  {
    if groups != [] && !Less(a.moduleName, groups[0].moduleName) && groups[0].moduleName != a.moduleName {
      InsertConserves(groups[1..], a);
      assert Insert(groups, a)[1..] == Insert(groups[1..], a);
    }
  }

  lemma {:induction false} ModulesOrdered(abilities: seq<AbilityInfo>)
    ensures StrictlyIncreasing(Modules(abilities)) && NoEmptyGroup(Modules(abilities))
  {
    if abilities != [] {
      hide Less, Insert;
      ModulesOrdered(abilities[..|abilities| - 1]);
      InsertKeepsOrder(Modules(abilities[..|abilities| - 1]), abilities[|abilities| - 1]);
    }
  }

  lemma {:induction false} ModulesFile(abilities: seq<AbilityInfo>, m: string)
    ensures GroupOf(Modules(abilities), m) == AbilitiesOf(abilities, m)
  {
    if abilities != [] {
      hide Less, Insert, ConvertAbility;
      var front := abilities[..|abilities| - 1];
      ModulesFile(front, m);
      ModulesOrdered(front);
      InsertFiles(Modules(front), abilities[|abilities| - 1], m);
    }
  }

  /** Grouping is a stable partition: sorted, without empty groups, in input order within each group. */
  lemma ModulesIsGrouping(abilities: seq<AbilityInfo>)
    ensures IsGrouping(abilities, Modules(abilities))
  {
    ModulesOrdered(abilities);
    forall m ensures Lists(GroupOf(Modules(abilities), m), AbilitiesIn(abilities, m)) {
      ModulesFile(abilities, m);
      AbilitiesOfLists(abilities, m);
    }
  }

  lemma ConvertAllSnoc(front: seq<AbilityInfo>, a: AbilityInfo)
    ensures multiset(ConvertAll(front + [a])) == multiset(ConvertAll(front)) + multiset{ConvertAbility(a)}
  {
    assert ConvertAll(front + [a]) == ConvertAll(front) + [ConvertAbility(a)];
  }

  /** Grouping neither loses nor invents nor duplicates an ability. */
  lemma {:induction false} ModulesConserveAbilities(abilities: seq<AbilityInfo>)
    ensures multiset(Flatten(Modules(abilities))) == multiset(ConvertAll(abilities))
  {
    if abilities == [] {
    } else {
      hide Less, Insert, ConvertAbility, Flatten, ConvertAll;
      var front, a := abilities[..|abilities| - 1], abilities[|abilities| - 1];
      ModulesConserveAbilities(front);
      InsertConserves(Modules(front), a);
      ConvertAllSnoc(front, a);
      assert abilities == front + [a];
    }
  }

  /** ... and no other list of groups has these properties. */
  lemma {:induction false} GroupingUnique(g1: seq<DistributedModuleInfo>, g2: seq<DistributedModuleInfo>)
    requires StrictlyIncreasing(g1) && NoEmptyGroup(g1)
    requires StrictlyIncreasing(g2) && NoEmptyGroup(g2)
    requires forall m :: GroupOf(g1, m) == GroupOf(g2, m)
    ensures g1 == g2
  {
    assert |g2| > 0 ==> GroupOf(g2, g2[0].moduleName) != [];
    if g1 == [] {
    } else {
      var m := g1[0].moduleName;
      assert GroupOf(g2, m) != [];
      if Less(m, g2[0].moduleName) {
        AbsentBelow(g2, m);
      }
      if Less(g2[0].moduleName, m) {
        AbsentBelow(g1, g2[0].moduleName);
      }
      LessTrichotomy(m, g2[0].moduleName);
      forall x ensures GroupOf(g1[1..], x) == GroupOf(g2[1..], x) {
        assert GroupOf(g1, x) == GroupOf(g2, x);
        if x == m {
          AbsentBelow(g1[1..], m);
          AbsentBelow(g2[1..], m);
        }
      }
      GroupingUnique(g1[1..], g2[1..]);
      assert g1 == [g1[0]] + g1[1..] && g2 == [g2[0]] + g2[1..];
    }
  }

  // ---------------------------------------------------------------------------
  // The loops of the service
  // ---------------------------------------------------------------------------

  /** `std::map` of the service: an ordered association list, searched and then changed in place. */
  class ModuleMap {
    var groups: seq<DistributedModuleInfo>

    constructor ()
      ensures groups == []
    {
      groups := [];
    }

    method Add(a: AbilityInfo)
      modifies this
      ensures groups == Insert(old(groups), a)
    {
      hide Less, ConvertAbility;
      var p := 0;
      while p < |groups| && !Less(a.moduleName, groups[p].moduleName) && groups[p].moduleName != a.moduleName
        invariant 0 <= p <= |groups|
        invariant groups == old(groups)
        invariant Insert(groups, a) == groups[..p] + Insert(groups[p..], a)
      {
        assert groups[p..][1..] == groups[p + 1..];
        assert groups[..p] + ([groups[p]] + Insert(groups[p + 1..], a)) == groups[..p + 1] + Insert(groups[p + 1..], a);
        p := p + 1;
      }
      if p < |groups| && groups[p].moduleName == a.moduleName {
        LessTrichotomy(a.moduleName, a.moduleName);
        groups := groups[p := DistributedModuleInfo(a.moduleName, groups[p].abilities + [ConvertAbility(a)])];
      } else {
        groups := groups[..p] + [DistributedModuleInfo(a.moduleName, [ConvertAbility(a)])] + groups[p..];
      }
    }
  }

  method ConvertToDistributedBundleInfo(b: BundleInfo) returns (info: DistributedBundleInfo)
    ensures info == Convert(b)
    ensures info.bundleName == b.name && info.appId == b.appId && info.updateTime == b.updateTime
    ensures info.versionCode == b.versionCode && info.versionName == b.versionName
    ensures info.compatibleVersionCode == b.compatibleVersion && info.minCompatibleVersion == b.minCompatibleVersionCode
    ensures info.targetVersionCode == b.targetVersion
    ensures info.enabled == b.appEnabled && info.accessTokenId == b.accessTokenId
    ensures IsGrouping(b.abilityInfos, info.moduleInfos)
  {
    var moduleAbilityInfos := new ModuleMap();
    for i := 0 to |b.abilityInfos|
      invariant moduleAbilityInfos.groups == Modules(b.abilityInfos[..i])
    {
      assert b.abilityInfos[..i + 1][..i] == b.abilityInfos[..i];
      moduleAbilityInfos.Add(b.abilityInfos[i]);
    }
    assert b.abilityInfos[..|b.abilityInfos|] == b.abilityInfos;
    var moduleInfos := [];
    for i := 0 to |moduleAbilityInfos.groups|
      invariant moduleInfos == moduleAbilityInfos.groups[..i]
    {
      moduleInfos := moduleInfos + [moduleAbilityInfos.groups[i]];
    }
    ModulesIsGrouping(b.abilityInfos);
    info := DistributedBundleInfo(b.name, b.versionCode, b.compatibleVersion, b.versionName,
                                  b.minCompatibleVersionCode, b.targetVersion, b.appId,
                                  moduleInfos, b.appEnabled, b.accessTokenId, b.updateTime);
  }
}
