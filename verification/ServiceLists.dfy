/**
 What an identity can reach (common/router_data_model.go): the list rebuilt from the policies, the list read off the
 denormalized counters, and the access map counted when tracking is switched on. The first two agree in every exact
 state, whatever order the maps are walked in.
 */
module ServiceLists {
  import opened Types
  import opened Identities
  import opened IdentityLoops
  import opened Receiver
  import opened ReceiverInvariants

  datatype IdentityConfig = IdentityConfig(typeId: Id, typeName: Text, dataJson: Text)

  datatype IdentityService = IdentityService(
    service: Service, configs: map<Text, IdentityConfig>, dial: bool, bind: bool, dialIndex: nat, bindIndex: nat)

  // ---- configs -----------------------------------------------------------------------------------------

  /** loadIdentityConfig */
  function Load(m: Model, c: Id): Option<IdentityConfig> {
    if c !in m.configs || m.configs[c].data.typeId !in m.configTypes then None
    else
      var config := m.configs[c].data;
      Some(IdentityConfig(config.typeId, m.configTypes[config.typeId].name, config.dataJson))
  }

  function Put(m: Model, configs: map<Text, IdentityConfig>, c: Id): map<Text, IdentityConfig> {
    match Load(m, c)
    case None => configs
    case Some(config) => configs[config.typeName := config]
  }

  /** The service's own configs, one after the other: of two with the same type name the later one stays. */
  function OwnConfigs(m: Model, ids: seq<Id>): map<Text, IdentityConfig>
    decreases |ids|
  {
    if ids == [] then map[] else Put(m, OwnConfigs(m, ids[..|ids| - 1]), ids[|ids| - 1])
  }

  /** The overrides the identity has for the service. */
  function Overrides(x: Identity, s: Id): map<Id, Id> {
    if s in x.data.serviceConfigs then x.data.serviceConfigs[s] else map[]
  }

  /** The overrides of the given types, walked in that order, on top of the service's own configs. */
  ghost function Overridden(m: Model, own: map<Text, IdentityConfig>, overrides: map<Id, Id>, order: seq<Id>)
    : map<Text, IdentityConfig>
    requires forall k :: 0 <= k < |order| ==> order[k] in overrides
    decreases |order|
  {
    if order == [] then own
    else Put(m, Overridden(m, own, overrides, order[..|order| - 1]), overrides[order[|order| - 1]])
  }

  // ---- the order does not matter exactly when no two overrides compete ------------------------------------

  ghost predicate Loads(m: Model, c: Id, n: Text) {
    Load(m, c).Some? && Load(m, c).value.typeName == n
  }

  ghost predicate LoadedBy(m: Model, overrides: map<Id, Id>, keys: set<Id>, n: Text) {
    exists t :: t in keys && t in overrides && Loads(m, overrides[t], n)
  }

  ghost predicate ValueBy(m: Model, overrides: map<Id, Id>, keys: set<Id>, n: Text, config: IdentityConfig) {
    exists t :: t in keys && t in overrides && Loads(m, overrides[t], n) && Load(m, overrides[t]).value == config
  }

  /** A name is served by an override among keys that loads under it if there is one, else by the service. */
  ghost predicate IsConfigs(m: Model, own: map<Text, IdentityConfig>, overrides: map<Id, Id>, keys: set<Id>,
                            after: map<Text, IdentityConfig>) {
    && (forall n :: n in after <==> n in own || LoadedBy(m, overrides, keys, n))
    && (forall n :: n in after ==> if LoadedBy(m, overrides, keys, n) then ValueBy(m, overrides, keys, n, after[n])
                                   else after[n] == own[n])
  }

  lemma PutIs(m: Model, own: map<Text, IdentityConfig>, overrides: map<Id, Id>, keys: set<Id>, t: Id,
              after: map<Text, IdentityConfig>)
    requires IsConfigs(m, own, overrides, keys, after) && t in overrides
    ensures IsConfigs(m, own, overrides, keys + {t}, Put(m, after, overrides[t]))
  {
    var more, next := keys + {t}, Put(m, after, overrides[t]);
    forall n ensures LoadedBy(m, overrides, more, n) <==> LoadedBy(m, overrides, keys, n) || Loads(m, overrides[t], n) {
      assert t in more;
      if LoadedBy(m, overrides, keys, n) {
        var k :| k in keys && k in overrides && Loads(m, overrides[k], n);
        assert k in more;
      }
    }
    forall n | n in next && LoadedBy(m, overrides, more, n) ensures ValueBy(m, overrides, more, n, next[n]) {
      if Loads(m, overrides[t], n) {
        assert t in more;
      } else {
        var k :| k in keys && k in overrides && Loads(m, overrides[k], n) && Load(m, overrides[k]).value == after[n];
        assert k in more;
      }
    }
  }

  /** Of two overrides that load under the same type name either may win. */
  ghost predicate Unambiguous(m: Model, overrides: map<Id, Id>) {
    forall s, t :: s in overrides && t in overrides && Compete(m, overrides[s], overrides[t]) ==>
                     Load(m, overrides[s]) == Load(m, overrides[t])
  }

  ghost predicate Compete(m: Model, c: Id, d: Id) {
    Load(m, c).Some? && Load(m, d).Some? && Load(m, c).value.typeName == Load(m, d).value.typeName
  }

  lemma ConfigsUnique(m: Model, own: map<Text, IdentityConfig>, overrides: map<Id, Id>,
                      a: map<Text, IdentityConfig>, b: map<Text, IdentityConfig>)
    requires Unambiguous(m, overrides)
    requires IsConfigs(m, own, overrides, overrides.Keys, a) && IsConfigs(m, own, overrides, overrides.Keys, b)
    ensures a == b
  {
    assert a.Keys == b.Keys;
    forall n | n in a ensures a[n] == b[n] {
      if LoadedBy(m, overrides, overrides.Keys, n) {
        var s :| s in overrides.Keys && s in overrides && Loads(m, overrides[s], n) &&
                 Load(m, overrides[s]).value == a[n];
        var t :| t in overrides.Keys && t in overrides && Loads(m, overrides[t], n) &&
                 Load(m, overrides[t]).value == b[n];
        assert Compete(m, overrides[s], overrides[t]);
      }
    }
  }

  lemma {:induction false} OverriddenIs(m: Model, own: map<Text, IdentityConfig>, overrides: map<Id, Id>,
                                        order: seq<Id>)
    requires forall k :: 0 <= k < |order| ==> order[k] in overrides
    ensures IsConfigs(m, own, overrides, ToSet(order), Overridden(m, own, overrides, order))
    decreases |order|
  {
    if order == [] {
      assert forall n :: !LoadedBy(m, overrides, ToSet(order), n);
    } else {
      var rest, t := order[..|order| - 1], order[|order| - 1];
      OverriddenIs(m, own, overrides, rest);
      PutIs(m, own, overrides, ToSet(rest), t, Overridden(m, own, overrides, rest));
      assert order == rest + [t];
      assert ToSet(order) == ToSet(rest) + {t};
    }
  }

  lemma {:induction false} SomeOrder(keys: set<Id>) returns (order: seq<Id>)
    ensures Enumerates(order, keys)
    decreases keys
  {
    if keys == {} {
      order := [];
    } else {
      var t := Any(keys);
      var rest := SomeOrder(keys - {t});
      EnumeratesMore(rest, keys - {t}, t);
      order := rest + [t];
      assert keys == keys - {t} + {t};
    }
  }

  lemma EnumeratesPair(rest: seq<Id>, keys: set<Id>, s: Id, t: Id)
    requires Enumerates(rest, keys - {s, t}) && s in keys && t in keys && s != t
    ensures Enumerates(rest + [s] + [t], keys)
  {
    EnumeratesMore(rest, keys - {s, t}, s);
    EnumeratesMore(rest + [s], keys - {s, t} + {s}, t);
    assert keys == keys - {s, t} + {s} + {t};
  }

  lemma OrderIrrelevant(m: Model, own: map<Text, IdentityConfig>, overrides: map<Id, Id>, a: seq<Id>, b: seq<Id>)
    requires Unambiguous(m, overrides) && Enumerates(a, overrides.Keys) && Enumerates(b, overrides.Keys)
    ensures Overridden(m, own, overrides, a) == Overridden(m, own, overrides, b)
  {
    OverriddenIs(m, own, overrides, a);
    OverriddenIs(m, own, overrides, b);
    ConfigsUnique(m, own, overrides, Overridden(m, own, overrides, a), Overridden(m, own, overrides, b));
  }

  /** Competing overrides come last in two orders, each winning in one of them. */
  lemma OrderMatters(m: Model, own: map<Text, IdentityConfig>, overrides: map<Id, Id>, s: Id, t: Id)
    returns (a: seq<Id>, b: seq<Id>)
    requires s in overrides && t in overrides && Compete(m, overrides[s], overrides[t])
    requires Load(m, overrides[s]) != Load(m, overrides[t])
    ensures Enumerates(a, overrides.Keys) && Enumerates(b, overrides.Keys)
    ensures Overridden(m, own, overrides, a) != Overridden(m, own, overrides, b)
  {
    var rest := SomeOrder(overrides.Keys - {s, t});
    a, b := rest + [s] + [t], rest + [t] + [s];
    EnumeratesPair(rest, overrides.Keys, s, t);
    EnumeratesPair(rest, overrides.Keys, t, s);
    assert overrides.Keys - {s, t} == overrides.Keys - {t, s};
    assert a[..|a| - 1] == rest + [s] && b[..|b| - 1] == rest + [t];
    var n := Load(m, overrides[s]).value.typeName;
    assert Overridden(m, own, overrides, a)[n] == Load(m, overrides[t]).value;
    assert Overridden(m, own, overrides, b)[n] == Load(m, overrides[s]).value;
  }

  /**
   Loading configs gives the same result for any two orders of the overrides exactly when no two overrides with
   different configs load under the same type name.
   */
  lemma OrderIrrelevantIff(m: Model, own: map<Text, IdentityConfig>, overrides: map<Id, Id>)
    ensures Unambiguous(m, overrides) <==>
            forall a, b :: Enumerates(a, overrides.Keys) && Enumerates(b, overrides.Keys) ==>
                             Overridden(m, own, overrides, a) == Overridden(m, own, overrides, b)
  {
    if Unambiguous(m, overrides) {
      forall a, b | Enumerates(a, overrides.Keys) && Enumerates(b, overrides.Keys)
        ensures Overridden(m, own, overrides, a) == Overridden(m, own, overrides, b)
      {
        OrderIrrelevant(m, own, overrides, a, b);
      }
    } else {
      var s, t :| s in overrides && t in overrides && Compete(m, overrides[s], overrides[t]) &&
                  Load(m, overrides[s]) != Load(m, overrides[t]);
      var a, b := OrderMatters(m, own, overrides, s, t);
    }
  }

  /** Overrides filed under the type of their config compete with none when type names are unique. */
  lemma UniqueNamesUnambiguous(m: Model, overrides: map<Id, Id>)
    requires forall t :: t in overrides && overrides[t] in m.configs ==> m.configs[overrides[t]].data.typeId == t
    requires forall s, t :: s in m.configTypes && t in m.configTypes && s != t ==>
                              m.configTypes[s].name != m.configTypes[t].name
    ensures Unambiguous(m, overrides)
  {
  }

  /** loadServiceConfigs */
  method LoadServiceConfigs(m: Model, service: Service, overrides: map<Id, Id>) returns (r: map<Text, IdentityConfig>)
    ensures IsConfigs(m, OwnConfigs(m, service.data.configs), overrides, overrides.Keys, r)
  {
    var ids := service.data.configs;
    r := map[];
    for k := 0 to |ids|
      invariant r == OwnConfigs(m, ids[..k])
    {
      assert ids[..k + 1][..k] == ids[..k];
      r := Put(m, r, ids[k]);
    }
    assert ids[..|ids|] == ids;
    ghost var own, done: set<Id> := r, {};
    var todo := overrides.Keys;
    assert forall n :: !LoadedBy(m, overrides, done, n);
    while todo != {}
      invariant overrides.Keys == done + todo
      invariant IsConfigs(m, own, overrides, done, r)
    {
      var t := Next(todo);
      PutIs(m, own, overrides, done, t, r);
      r := Put(m, r, overrides[t]);
      todo, done := todo - {t}, done + {t};
    }
  }

  // ---- the list ----------------------------------------------------------------------------------------

  ghost predicate GrantedBy(ps: Policies, mine: set<Id>, t: PolicyType, s: Id) {
    exists p :: p in mine && p in ps && ps[p].policyType == t && s in ps[p].services
  }

  ghost predicate UsedBy(ps: Policies, mine: set<Id>, c: Id) {
    exists p :: p in mine && p in ps && c in ps[p].checks && ps[p].services != {}
  }

  ghost predicate Entry(m: Model, x: Identity, list: map<Id, IdentityService>, s: Id, dial: bool, bind: bool) {
    && (s in list <==> s in m.services && (dial || bind))
    && (s in list ==>
          var overrides := Overrides(x, s);
          && list[s].service == m.services[s] && list[s].dial == dial && list[s].bind == bind
          && IsConfigs(m, OwnConfigs(m, m.services[s].data.configs), overrides, overrides.Keys, list[s].configs))
  }

  ghost predicate ListedAt(m: Model, x: Identity, mine: set<Id>, list: map<Id, IdentityService>, s: Id) {
    Entry(m, x, list, s, GrantedBy(m.policies, mine, Dial, s), GrantedBy(m.policies, mine, Bind, s))
  }

  ghost predicate CheckEntry(m: Model, checks: map<Id, Check>, c: Id, used: bool) {
    (c in checks <==> c in m.checks && used) && (c in checks ==> checks[c] == m.checks[c])
  }

  ghost predicate CheckedAt(m: Model, mine: set<Id>, checks: map<Id, Check>, c: Id) {
    CheckEntry(m, checks, c, UsedBy(m.policies, mine, c))
  }

  /**
   What the policies in mine let the identity reach: each existing service of theirs, dialable or bindable by a policy
   of that type, with its configs; and each existing check of a policy that has services.
   */
  ghost predicate IsServiceList(m: Model, x: Identity, mine: set<Id>, list: map<Id, IdentityService>,
                                checks: map<Id, Check>)
  {
    (forall s :: ListedAt(m, x, mine, list, s)) && forall c :: CheckedAt(m, mine, checks, c)
  }

  ghost predicate SameAccess(a: IdentityService, b: IdentityService) {
    a.service == b.service && a.configs == b.configs && a.dial == b.dial && a.bind == b.bind
  }

  /** The list is determined but for the policy indexes. */
  lemma ListUnique(m: Model, x: Identity, a: map<Id, IdentityService>, b: map<Id, IdentityService>,
                   c: map<Id, Check>, d: map<Id, Check>)
    requires IsServiceList(m, x, x.policies, a, c) && IsServiceList(m, x, x.policies, b, d)
    requires forall s :: s in a ==> Unambiguous(m, Overrides(x, s))
    ensures a.Keys == b.Keys && (forall s :: s in a ==> SameAccess(a[s], b[s])) && c == d
  {
    forall s ensures (s in a <==> s in b) && (s in a ==> SameAccess(a[s], b[s])) {
      assert ListedAt(m, x, x.policies, a, s) && ListedAt(m, x, x.policies, b, s);
      if s in a {
        ConfigsUnique(m, OwnConfigs(m, m.services[s].data.configs), Overrides(x, s), a[s].configs, b[s].configs);
      }
    }
    forall k ensures (k in c <==> k in d) && (k in c ==> c[k] == d[k]) {
      assert CheckedAt(m, x.policies, c, k) && CheckedAt(m, x.policies, d, k);
    }
    assert c.Keys == d.Keys;
  }

  // ---- what is shown, in terms of the model's maps ---------------------------------------------------------

  /** The config and its type exist, and the type has this name. */
  ghost predicate Named(m: Model, c: Id, name: Text) {
    && c in m.configs && m.configs[c].data.typeId in m.configTypes
    && m.configTypes[m.configs[c].data.typeId].name == name
  }

  /** What a config that exists looks like in a list. */
  ghost predicate Shows(m: Model, c: Id, name: Text, config: IdentityConfig) {
    && Named(m, c, name) && config.typeName == name
    && config.typeId == m.configs[c].data.typeId && config.dataJson == m.configs[c].data.dataJson
  }

  /** The identity has an override for the service whose config goes by the name. */
  ghost predicate OverridesName(m: Model, sc: map<Id, map<Id, Id>>, s: Id, name: Text) {
    s in sc && exists t :: t in sc[s] && Named(m, sc[s][t], name)
  }

  /** Of the configs listed, the last that goes by the name. */
  ghost predicate LastNamed(m: Model, ids: seq<Id>, k: int, name: Text) {
    0 <= k < |ids| && Named(m, ids[k], name) && forall j :: k < j < |ids| ==> !Named(m, ids[j], name)
  }

  /** Under a name the service's last own config of that name is loaded, and no other. */
  lemma {:induction false} OwnConfigsShow(m: Model, ids: seq<Id>, name: Text)
    ensures name in OwnConfigs(m, ids) <==> exists k :: LastNamed(m, ids, k, name)
    ensures name in OwnConfigs(m, ids) ==>
              exists k :: LastNamed(m, ids, k, name) && Shows(m, ids[k], name, OwnConfigs(m, ids)[name])
    decreases |ids|
  {
    if ids != [] {
      var n := |ids| - 1;
      OwnConfigsShow(m, ids[..n], name);
      if Named(m, ids[n], name) {
        assert LastNamed(m, ids, n, name) && Shows(m, ids[n], name, OwnConfigs(m, ids)[name]);
      } else {
        assert forall k :: LastNamed(m, ids[..n], k, name) <==> LastNamed(m, ids, k, name);
        if name in OwnConfigs(m, ids) {
          var k :| LastNamed(m, ids[..n], k, name) && Shows(m, ids[k], name, OwnConfigs(m, ids[..n])[name]);
          assert LastNamed(m, ids, k, name);
        }
      }
    }
  }

  /**
   What a list shows for a service, told by the identity's overrides and the model's maps alone: a name is there iff an
   override or a config of the service goes by it; overrides come first, and of the service's own configs the last.
   */
  ghost predicate ShownFor(m: Model, sc: map<Id, map<Id, Id>>, s: Id, configs: map<Text, IdentityConfig>, name: Text)
    requires s in m.services
  {
    var ids := m.services[s].data.configs;
    if OverridesName(m, sc, s, name)
    then name in configs && exists t :: t in sc[s] && Shows(m, sc[s][t], name, configs[name])
    else
      && (name in configs <==> exists k :: LastNamed(m, ids, k, name))
      && (name in configs ==> exists k :: LastNamed(m, ids, k, name) && Shows(m, ids[k], name, configs[name]))
  }

  lemma ConfigsShow(m: Model, x: Identity, s: Id, configs: map<Text, IdentityConfig>, name: Text)
    requires s in m.services
    requires
      var overrides := Overrides(x, s);
      IsConfigs(m, OwnConfigs(m, m.services[s].data.configs), overrides, overrides.Keys, configs)
    ensures ShownFor(m, x.data.serviceConfigs, s, configs, name)
  {
    var sc, overrides := x.data.serviceConfigs, Overrides(x, s);
    OwnConfigsShow(m, m.services[s].data.configs, name);
    assert forall c :: Loads(m, c, name) <==> Named(m, c, name);
    if OverridesName(m, sc, s, name) {
      assert sc[s] == overrides;
      var t :| t in sc[s] && Named(m, sc[s][t], name);
      assert LoadedBy(m, overrides, overrides.Keys, name);
      var u :| u in overrides && Loads(m, overrides[u], name) && Load(m, overrides[u]).value == configs[name];
      assert u in sc[s] && Shows(m, sc[s][u], name, configs[name]);
    } else {
      assert !LoadedBy(m, overrides, overrides.Keys, name);
    }
  }

  /** Both kinds of lists show a service's configs so. */
  lemma ListShows(m: Model, x: Identity, list: map<Id, IdentityService>, checks: map<Id, Check>, s: Id, name: Text)
    requires IsServiceList(m, x, x.policies, list, checks) || IsCountedList(m, x, list, checks)
    requires s in list
    ensures s in m.services && ShownFor(m, x.data.serviceConfigs, s, list[s].configs, name)
  {
    if IsServiceList(m, x, x.policies, list, checks) {
      assert ListedAt(m, x, x.policies, list, s);
    } else {
      assert CountedAt(m, x, x.access.Keys, list, s);
    }
    ConfigsShow(m, x, s, list[s].configs, name);
  }

  /** An override whose config and type exist is shown, unless another override of the service has its type name. */
  lemma OverrideShown(m: Model, x: Identity, list: map<Id, IdentityService>, checks: map<Id, Check>, s: Id, t: Id)
    requires IsServiceList(m, x, x.policies, list, checks) || IsCountedList(m, x, list, checks)
    requires s in list && s in x.data.serviceConfigs && t in x.data.serviceConfigs[s]
    requires
      var c := x.data.serviceConfigs[s][t];
      && c in m.configs && m.configs[c].data.typeId in m.configTypes
      && forall u :: u in x.data.serviceConfigs[s] && u != t ==>
                       !Named(m, x.data.serviceConfigs[s][u], m.configTypes[m.configs[c].data.typeId].name)
    ensures
      var config := m.configs[x.data.serviceConfigs[s][t]].data;
      var name := m.configTypes[config.typeId].name;
      && name in list[s].configs
      && list[s].configs[name].typeId == config.typeId && list[s].configs[name].dataJson == config.dataJson
  {
    var c := x.data.serviceConfigs[s][t];
    var name := m.configTypes[m.configs[c].data.typeId].name;
    assert Named(m, c, name);
    ListShows(m, x, list, checks, s, name);
  }

  /** Without overrides for the service, exactly its own configs are shown, the last one per type name. */
  lemma OwnShown(m: Model, x: Identity, list: map<Id, IdentityService>, checks: map<Id, Check>, s: Id, name: Text)
    requires IsServiceList(m, x, x.policies, list, checks) || IsCountedList(m, x, list, checks)
    requires s in list && s !in x.data.serviceConfigs
    ensures s in m.services
    ensures
      var ids := m.services[s].data.configs;
      && (name in list[s].configs <==> exists k :: LastNamed(m, ids, k, name))
      && (name in list[s].configs ==>
            exists k :: LastNamed(m, ids, k, name) && Shows(m, ids[k], name, list[s].configs[name]))
  {
    ListShows(m, x, list, checks, s, name);
  }

  // ---- buildServiceList --------------------------------------------------------------------------------

  lemma GrantedByMore(ps: Policies, done: set<Id>, p: Id, t: PolicyType, s: Id)
    ensures GrantedBy(ps, done + {p}, t, s) <==>
            GrantedBy(ps, done, t, s) || (p in ps && ps[p].policyType == t && s in ps[p].services)
  {
    var more := done + {p};
    assert p in more;
    if GrantedBy(ps, done, t, s) {
      var q :| q in done && q in ps && ps[q].policyType == t && s in ps[q].services;
      assert q in more;
    }
  }

  lemma UsedByMore(ps: Policies, done: set<Id>, p: Id, c: Id)
    ensures UsedBy(ps, done + {p}, c) <==>
            UsedBy(ps, done, c) || (p in ps && c in ps[p].checks && ps[p].services != {})
  {
    var more := done + {p};
    assert p in more;
    if UsedBy(ps, done, c) {
      var q :| q in done && q in ps && c in ps[q].checks && ps[q].services != {};
      assert q in more;
    }
  }

  function WithPolicy(entry: IdentityService, p: Policy): IdentityService {
    match p.policyType
    case Dial => entry.(dial := true, dialIndex := Max(entry.dialIndex, p.checksIndex))
    case Bind => entry.(bind := true, bindIndex := Max(entry.bindIndex, p.checksIndex))
  }

  /** The policies in done are listed, and of policy p the services in part. */
  ghost predicate PartlyListedAt(m: Model, x: Identity, done: set<Id>, p: Policy, part: set<Id>,
                                 list: map<Id, IdentityService>, s: Id) {
    Entry(m, x, list, s,
          GrantedBy(m.policies, done, Dial, s) || (p.policyType == Dial && s in part),
          GrantedBy(m.policies, done, Bind, s) || (p.policyType == Bind && s in part))
  }

  /** The walk over one policy's services. */
  method AddServices(m: Model, x: Identity, list: map<Id, IdentityService>, p: Id, ghost done: set<Id>)
    returns (r: map<Id, IdentityService>)
    requires p in m.policies && forall s :: ListedAt(m, x, done, list, s)
    ensures forall s :: ListedAt(m, x, done + {p}, r, s)
  {
    r := list;
    var policy := m.policies[p];
    var todo := policy.services;
    ghost var part: set<Id> := {};
    assert forall s :: ListedAt(m, x, done, list, s) ==> PartlyListedAt(m, x, done, policy, {}, r, s);
    while todo != {}
      invariant policy.services == part + todo
      invariant forall s :: PartlyListedAt(m, x, done, policy, part, r, s)
    {
      var s := Next(todo);
      assert PartlyListedAt(m, x, done, policy, part, r, s);
      ghost var before := r;
      if s in m.services {
        var entry: IdentityService;
        if s in r {
          entry := r[s];
        } else {
          var configs := LoadServiceConfigs(m, m.services[s], Overrides(x, s));
          entry := IdentityService(m.services[s], configs, false, false, 0, 0);
        }
        r := r[s := WithPolicy(entry, policy)];
      }
      forall k ensures PartlyListedAt(m, x, done, policy, part + {s}, r, k) {
        assert PartlyListedAt(m, x, done, policy, part, before, k);
      }
      todo, part := todo - {s}, part + {s};
    }
    forall s ensures ListedAt(m, x, done + {p}, r, s) {
      assert PartlyListedAt(m, x, done, policy, part, r, s);
      GrantedByMore(m.policies, done, p, Dial, s);
      GrantedByMore(m.policies, done, p, Bind, s);
    }
  }

  ghost predicate PartlyCheckedAt(m: Model, done: set<Id>, part: set<Id>, checks: map<Id, Check>, c: Id) {
    CheckEntry(m, checks, c, UsedBy(m.policies, done, c) || c in part)
  }

  /** loadServicePostureChecks */
  method LoadServicePostureChecks(m: Model, checks: map<Id, Check>, p: Id, ghost done: set<Id>)
    returns (r: map<Id, Check>)
    requires p in m.policies && forall c :: CheckedAt(m, done, checks, c)
    ensures forall c :: CheckedAt(m, done + {p}, r, c)
  {
    r := checks;
    var policy := m.policies[p];
    ghost var part: set<Id> := {};
    assert forall c :: CheckedAt(m, done, checks, c) ==> PartlyCheckedAt(m, done, {}, checks, c);
    if policy.services != {} {
      var todo := policy.checks;
      while todo != {}
        invariant policy.checks == part + todo
        invariant forall c :: PartlyCheckedAt(m, done, part, r, c)
      {
        var c := Next(todo);
        assert PartlyCheckedAt(m, done, part, r, c);
        ghost var before := r;
        if c !in r && c in m.checks {
          r := r[c := m.checks[c]];
        }
        forall k ensures PartlyCheckedAt(m, done, part + {c}, r, k) {
          assert PartlyCheckedAt(m, done, part, before, k);
        }
        todo, part := todo - {c}, part + {c};
      }
    }
    forall c ensures CheckedAt(m, done + {p}, r, c) {
      assert PartlyCheckedAt(m, done, part, r, c);
      UsedByMore(m.policies, done, p, c);
    }
  }

  /** The simple form: walk the identity's policies. */
  method BuildServiceList(m: Model, x: Identity) returns (list: map<Id, IdentityService>, checks: map<Id, Check>)
    ensures IsServiceList(m, x, x.policies, list, checks)
  {
    list, checks := map[], map[];
    var todo := x.policies;
    ghost var done: set<Id> := {};
    while todo != {}
      invariant x.policies == done + todo
      invariant IsServiceList(m, x, done, list, checks)
    {
      var p := Next(todo);
      if p in m.policies {
        list := AddServices(m, x, list, p, done);
        checks := LoadServicePostureChecks(m, checks, p, done);
      } else {
        NoPolicyNoChange(m, x, done, p, list, checks);
      }
      todo, done := todo - {p}, done + {p};
    }
    assert done == x.policies;
  }

  lemma NoPolicyNoChange(m: Model, x: Identity, done: set<Id>, p: Id, list: map<Id, IdentityService>,
                         checks: map<Id, Check>)
    requires IsServiceList(m, x, done, list, checks) && p !in m.policies
    ensures IsServiceList(m, x, done + {p}, list, checks)
  {
    forall s ensures ListedAt(m, x, done + {p}, list, s) {
      assert ListedAt(m, x, done, list, s);
      GrantedByMore(m.policies, done, p, Dial, s);
      GrantedByMore(m.policies, done, p, Bind, s);
    }
    forall c ensures CheckedAt(m, done + {p}, checks, c) {
      assert CheckedAt(m, done, checks, c);
      UsedByMore(m.policies, done, p, c);
    }
  }

  // ---- buildServiceListUsingDenormalizedData -----------------------------------------------------------

  /** In an exact state the counters answer what the policies would. */
  lemma CountersAnswer(ps: Policies, x: Identity, s: Id)
    requires x.tracked && AccessExact(ps, x)
    ensures s in x.access <==> GrantedBy(ps, x.policies, Dial, s) || GrantedBy(ps, x.policies, Bind, s)
    ensures s in x.access ==> x.access[s].IsDialAllowed() == GrantedBy(ps, x.policies, Dial, s)
    ensures s in x.access ==> x.access[s].IsBindAllowed() == GrantedBy(ps, x.policies, Bind, s)
  {
    assert AccessExactAt(ps, x, s);
    GrantingAnswers(ps, x, Dial, s);
    GrantingAnswers(ps, x, Bind, s);
  }

  lemma GrantingAnswers(ps: Policies, x: Identity, t: PolicyType, s: Id)
    ensures |Granting(ps, x.policies, t, s)| > 0 <==> GrantedBy(ps, x.policies, t, s)
  {
    var all := Granting(ps, x.policies, t, s);
    if all != {} {
      var p := Any(all);
      assert p in x.policies && p in ps && ps[p].policyType == t && s in ps[p].services;
    }
    if GrantedBy(ps, x.policies, t, s) {
      var p :| p in x.policies && p in ps && ps[p].policyType == t && s in ps[p].services;
      assert p in all;
    }
  }

  lemma UsesAnswer(ps: Policies, x: Identity, c: Id)
    requires ChecksExact(ps, x)
    ensures c in x.checks <==> UsedBy(ps, x.policies, c)
  {
    assert ChecksExactAt(ps, x, c);
    var all := Using(ps, x.policies, c);
    if all != {} {
      var p := Any(all);
      assert p in x.policies && p in ps && c in ps[p].checks && ps[p].services != {};
    }
    if UsedBy(ps, x.policies, c) {
      var p :| p in x.policies && p in ps && c in ps[p].checks && ps[p].services != {};
      assert p in all;
    }
  }

  /** The counters' word for the services in part. */
  ghost predicate CountedAt(m: Model, x: Identity, part: set<Id>, list: map<Id, IdentityService>, s: Id) {
    && (s in list <==> s in x.access && s in part && s in m.services)
    && (s in list ==>
          var overrides := Overrides(x, s);
          && list[s].service == m.services[s]
          && list[s].dial == x.access[s].IsDialAllowed() && list[s].bind == x.access[s].IsBindAllowed()
          && IsConfigs(m, OwnConfigs(m, m.services[s].data.configs), overrides, overrides.Keys, list[s].configs))
  }

  /** What the denormalized data says the identity can reach. */
  ghost predicate IsCountedList(m: Model, x: Identity, list: map<Id, IdentityService>, checks: map<Id, Check>) {
    (forall s :: CountedAt(m, x, x.access.Keys, list, s)) && forall c :: CheckEntry(m, checks, c, c in x.checks)
  }

  /** The policy indexes of the list are those kept with the counters. */
  ghost predicate IndexesOf(x: Identity, list: map<Id, IdentityService>) {
    forall s :: s in list ==>
      s in x.access && list[s].dialIndex == x.access[s].dialIndex && list[s].bindIndex == x.access[s].bindIndex
  }

  method ListFromCounters(m: Model, x: Identity) returns (list: map<Id, IdentityService>)
    ensures (forall s :: CountedAt(m, x, x.access.Keys, list, s)) && IndexesOf(x, list)
  {
    list := map[];
    var todo := x.access.Keys;
    ghost var part: set<Id> := {};
    while todo != {}
      invariant x.access.Keys == part + todo
      invariant (forall s :: CountedAt(m, x, part, list, s)) && IndexesOf(x, list)
    {
      var s := Next(todo);
      ghost var before := list;
      if s in m.services {
        var configs := LoadServiceConfigs(m, m.services[s], Overrides(x, s));
        var access := x.access[s];
        list := list[s := IdentityService(m.services[s], configs, access.IsDialAllowed(), access.IsBindAllowed(),
                                          access.dialIndex, access.bindIndex)];
      }
      forall k ensures CountedAt(m, x, part + {s}, list, k) {
        assert CountedAt(m, x, part, before, k);
      }
      todo, part := todo - {s}, part + {s};
    }
    assert part == x.access.Keys;
  }

  method ChecksFromUses(m: Model, x: Identity) returns (checks: map<Id, Check>)
    ensures forall c :: CheckEntry(m, checks, c, c in x.checks)
  {
    checks := map[];
    var todo := x.checks.Keys;
    while todo != {}
      invariant todo <= x.checks.Keys
      invariant forall c :: c in checks <==> c in m.checks && c in x.checks && c !in todo
      invariant forall c :: c in checks ==> checks[c] == m.checks[c]
    {
      var c := Next(todo);
      if c in m.checks {
        checks := checks[c := m.checks[c]];
      }
      todo := todo - {c};
    }
  }

  /** The fast form. */
  method BuildServiceListUsingDenormalizedData(m: Model, id: Id)
    returns (list: map<Id, IdentityService>, checks: map<Id, Check>)
    ensures id in m.identities ==> IsCountedList(m, m.identities[id], list, checks) && IndexesOf(m.identities[id], list)
    ensures id !in m.identities ==> list == map[] && checks == map[]
  {
    list, checks := map[], map[];
    if id in m.identities {
      list := ListFromCounters(m, m.identities[id]);
      checks := ChecksFromUses(m, m.identities[id]);
    }
  }

  /** For a tracked identity in an exact state the counters and the policies say the same. */
  lemma CountedIsServiceList(m: Model, id: Id, list: map<Id, IdentityService>, checks: map<Id, Check>)
    requires Exact(m) && id in m.identities && m.identities[id].tracked
    ensures IsCountedList(m, m.identities[id], list, checks) <==>
            IsServiceList(m, m.identities[id], m.identities[id].policies, list, checks)
  {
    var x := m.identities[id];
    forall s ensures CountedAt(m, x, x.access.Keys, list, s) <==> ListedAt(m, x, x.policies, list, s) {
      CountersAnswer(m.policies, x, s);
    }
    forall c ensures CheckEntry(m, checks, c, c in x.checks) <==> CheckedAt(m, x.policies, checks, c) {
      UsesAnswer(m.policies, x, c);
    }
  }

  /**
   The fast form refines the simple one: in every reachable state, for any orders in which the two builders walk their
   maps, they give a tracked identity the same services, flags, configs and posture checks, provided no two of its
   overrides for a service compete.
   */
  lemma FastMatchesSimple(ops: seq<Op>, m: Model, id: Id, fast: map<Id, IdentityService>,
                          simple: map<Id, IdentityService>, fastChecks: map<Id, Check>,
                          simpleChecks: map<Id, Check>)
    requires Run(EmptyModel, ops, m) && id in m.identities && m.identities[id].tracked
    requires forall s :: s in fast ==> Unambiguous(m, Overrides(m.identities[id], s))
    requires IsCountedList(m, m.identities[id], fast, fastChecks)
    requires IsServiceList(m, m.identities[id], m.identities[id].policies, simple, simpleChecks)
    ensures fast.Keys == simple.Keys && (forall s :: s in fast ==> SameAccess(fast[s], simple[s])) &&
            fastChecks == simpleChecks
  {
    ReachableExact(ops, m);
    CountedIsServiceList(m, id, fast, fastChecks);
    ListUnique(m, m.identities[id], fast, simple, fastChecks, simpleChecks);
  }

  // ---- buildServiceAccessList --------------------------------------------------------------------------

  lemma LatestMore(ps: Policies, via: set<Id>, p: Id, latest: nat)
    requires IsLatest(ps, via, latest) && p in ps
    ensures IsLatest(ps, via + {p}, Max(latest, Max(ps[p].checksIndex, ps[p].servicesIndex)))
  {
    var more, mine := via + {p}, Max(ps[p].checksIndex, ps[p].servicesIndex);
    assert p in more;
    if mine < latest {
      var q :| q in via && q in ps && Max(ps[q].checksIndex, ps[q].servicesIndex) == latest;
      assert q in more;
    }
  }

  lemma GrantingMore(ps: Policies, done: set<Id>, p: Id, t: PolicyType, s: Id)
    requires p in ps && p !in done
    ensures
      var granted := Granting(ps, done, t, s);
      && p !in granted
      && Granting(ps, done + {p}, t, s) ==
         if ps[p].policyType == t && s in ps[p].services then granted + {p} else granted
  {
  }

  lemma CountedOneMore(ps: Policies, done: set<Id>, p: Id, access: AccessMap, s: Id)
    requires p in ps && p !in done && AccessListedAt(ps, done, access, s)
    ensures
      var at := Max(ps[p].checksIndex, ps[p].servicesIndex);
      AccessListedAt(ps, done + {p},
                     if s in ps[p].services then access[s := Moved(Get(access, s), ps[p].policyType, 1, at)]
                     else access, s)
  {
    var d, b := Granting(ps, done, Dial, s), Granting(ps, done, Bind, s);
    GrantingMore(ps, done, p, Dial, s);
    GrantingMore(ps, done, p, Bind, s);
    if s in ps[p].services {
      assert s !in access ==> d == {} && b == {} && IsLatest(ps, {}, 0);
      LatestMore(ps, d, p, Get(access, s).dialIndex);
      LatestMore(ps, b, p, Get(access, s).bindIndex);
    }
  }

  method CountPolicy(ps: Policies, p: Id, access: AccessMap, ghost done: set<Id>) returns (r: AccessMap)
    requires p in ps && p !in done && IsAccessList(ps, done, access)
    ensures IsAccessList(ps, done + {p}, r)
  {
    r := access;
    var policy := ps[p];
    var at := Max(policy.checksIndex, policy.servicesIndex);
    var todo := policy.services;
    while todo != {}
      invariant todo <= policy.services
      invariant forall s :: s in policy.services - todo ==> AccessListedAt(ps, done + {p}, r, s)
      invariant forall s :: s !in policy.services - todo ==> (s in r <==> s in access) && (s in r ==> r[s] == access[s])
    {
      var s := Next(todo);
      CountedOneMore(ps, done, p, access, s);
      ghost var before := r;
      r := r[s := Moved(Get(r, s), policy.policyType, 1, at)];
      todo := todo - {s};
      assert r[s] == access[s := Moved(Get(access, s), policy.policyType, 1, at)][s];
      forall k | k in policy.services - todo ensures AccessListedAt(ps, done + {p}, r, k) {
        assert k != s ==> AccessListedAt(ps, done + {p}, before, k);
      }
    }
    forall s ensures AccessListedAt(ps, done + {p}, r, s) {
      CountedOneMore(ps, done, p, access, s);
      assert s in policy.services - todo ==> AccessListedAt(ps, done + {p}, r, s);
    }
  }

  lemma NothingCounted(ps: Policies, done: set<Id>, p: Id, access: AccessMap)
    requires p !in ps && IsAccessList(ps, done, access)
    ensures IsAccessList(ps, done + {p}, access)
  {
    forall s ensures AccessListedAt(ps, done + {p}, access, s) {
      assert AccessListedAt(ps, done, access, s);
      assert forall t :: Granting(ps, done + {p}, t, s) == Granting(ps, done, t, s);
    }
  }

  method BuildServiceAccessList(ps: Policies, mine: set<Id>) returns (access: AccessMap)
    ensures IsAccessList(ps, mine, access) && AccessOk(access)
  {
    access := map[];
    var todo := mine;
    ghost var done: set<Id> := {};
    while todo != {}
      invariant mine == done + todo && done !! todo
      invariant IsAccessList(ps, done, access)
    {
      var p := Next(todo);
      if p in ps {
        access := CountPolicy(ps, p, access, done);
      } else {
        NothingCounted(ps, done, p, access);
      }
      todo, done := todo - {p}, done + {p};
    }
    assert done == mine;
    assert forall s :: s in access ==> AccessListedAt(ps, mine, access, s);
  }
}
