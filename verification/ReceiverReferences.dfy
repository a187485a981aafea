/**
 The back-references the router keeps: from configs to the identities and services that use them, and from services
 and posture checks to the policies that list them.
 */
module ReceiverReferences {
  import opened Types
  import opened Identities
  import opened IdentityExactness
  import opened Receiver
  import SliceDiff

  // ---- what each handler leaves alone ------------------------------------------------------------------

  ghost predicate SameOverrides(m: Model, n: Model) {
    && m.configs.Keys == n.configs.Keys && m.identities.Keys == n.identities.Keys
    && (forall c :: c in m.configs ==> m.configs[c].identities == n.configs[c].identities)
    && (forall i :: i in m.identities ==> m.identities[i].data.serviceConfigs == n.identities[i].data.serviceConfigs)
  }

  ghost predicate SameConfigLists(m: Model, n: Model) {
    && m.configs.Keys == n.configs.Keys && m.services.Keys == n.services.Keys
    && (forall c :: c in m.configs ==> m.configs[c].services == n.configs[c].services)
    && (forall s :: s in m.services ==> m.services[s].data.configs == n.services[s].data.configs)
  }

  ghost predicate KeepsLinks(m: Model, n: Model) {
    && n.policies.Keys <= m.policies.Keys && m.services.Keys <= n.services.Keys && m.checks.Keys <= n.checks.Keys
    && (forall p :: p in n.policies ==>
          m.policies[p].services == n.policies[p].services && m.policies[p].checks == n.policies[p].checks)
    && (forall s :: s in n.services ==>
                    n.services[s].policies == if s in m.services then m.services[s].policies else {})
    && (forall c :: c in n.checks ==> n.checks[c].policies == if c in m.checks then m.checks[c].policies else {})
  }

  lemma PutConfigTypeFrame(m: Model, index: nat, id: Id, name: Text)
    ensures
      var n := PutConfigType(m, index, id, name);
      SameOverrides(m, n) && SameConfigLists(m, n) && KeepsLinks(m, n)
  {
  }

  lemma PutConfigLinks(m: Model, index: nat, id: Id, data: ConfigData)
    ensures KeepsLinks(m, PutConfig(m, index, id, data))
  {
    if id in m.configs {
      TouchedLinks(m, m.configs[id].services, index);
    }
  }

  lemma TouchedLinks(m: Model, ids: set<Id>, index: nat)
    ensures KeepsLinks(m, ServicesTouched(m, ids, index))
  {
  }

  lemma PutConfigFrame(m: Model, index: nat, id: Id, data: ConfigData)
    requires id in m.configs
    ensures SameOverrides(m, PutConfig(m, index, id, data)) && SameConfigLists(m, PutConfig(m, index, id, data))
  {
  }

  lemma DeleteConfigFrame(m: Model, index: nat, id: Id)
    ensures KeepsLinks(m, DeleteConfig(m, index, id))
  {
  }

  lemma IdentityFrame(m: Model, index: nat, id: Id, data: IdentityData)
    ensures SameConfigLists(m, PutIdentity(m, index, id, data)) && KeepsLinks(m, PutIdentity(m, index, id, data))
    ensures SameConfigLists(m, DeleteIdentity(m, id)) && KeepsLinks(m, DeleteIdentity(m, id))
  {
  }

  lemma PutServiceFrame(m: Model, index: nat, id: Id, data: ServiceData)
    ensures SameOverrides(m, PutService(m, index, id, data))
  {
  }

  lemma PutServiceLinks(m: Model, index: nat, id: Id, data: ServiceData)
    ensures KeepsLinks(m, PutService(m, index, id, data))
  {
  }

  lemma DeleteServiceFrame(m: Model, index: nat, id: Id)
    ensures SameOverrides(m, DeleteService(m, index, id))
  {
  }

  lemma PutCheckFrame(m: Model, index: nat, id: Id, data: Text)
    ensures
      var n := PutCheck(m, index, id, data);
      SameOverrides(m, n) && SameConfigLists(m, n) && KeepsLinks(m, n)
  {
  }

  lemma DeleteCheckFrame(m: Model, index: nat, id: Id)
    ensures SameOverrides(m, DeleteCheck(m, index, id)) && SameConfigLists(m, DeleteCheck(m, index, id))
  {
  }

  lemma PutPolicyFrame(m: Model, index: nat, id: Id, name: Text, t: PolicyType)
    ensures SameOverrides(m, PutPolicy(m, index, id, name, t)) && SameConfigLists(m, PutPolicy(m, index, id, name, t))
  {
    if id in m.policies {
      FlippedData(m.identities, id, m.policies[id], PutPolicy(m, index, id, name, t).policies[id], index);
    }
  }

  lemma FlippedData(all: map<Id, Identity>, id: Id, prev: Policy, next: Policy, index: nat)
    ensures
      var flipped := MembersFlipped(all, prev.identities, id, prev, next, index);
      flipped.Keys == all.Keys && forall i :: i in all ==> flipped[i].data == all[i].data
  {
  }

  lemma PutPolicyLinks(m: Model, index: nat, id: Id, name: Text, t: PolicyType)
    requires id in m.policies
    ensures KeepsLinks(m, PutPolicy(m, index, id, name, t))
  {
  }

  lemma DeletePolicyFrame(m: Model, index: nat, id: Id)
    ensures
      var n := DeletePolicy(m, index, id);
      SameOverrides(m, n) && SameConfigLists(m, n) && KeepsLinks(m, n)
  {
    if id in m.policies {
      LeaversData(m.identities, m.policies[id].identities, id, m.policies[id], index);
    }
  }

  lemma LeaversData(all: map<Id, Identity>, ids: set<Id>, pid: Id, p: Policy, index: nat)
    ensures
      var left := AllJoinedOrLeft(all, ids, pid, p, index, false);
      left.Keys == all.Keys && forall i :: i in all ==> left[i].data == all[i].data
  {
  }

  lemma ChangeIdentitiesFrame(m: Model, index: nat, pid: Id, ids: set<Id>, add: bool)
    requires pid in m.policies
    ensures
      var n := ChangeIdentities(m, index, pid, ids, add);
      SameOverrides(m, n) && SameConfigLists(m, n) && KeepsLinks(m, n)
  {
  }

  lemma ChangeServicesFrame(m: Model, index: nat, pid: Id, ids: seq<Id>, add: bool)
    requires pid in m.policies
    ensures
      var n := ChangeServices(m, index, pid, ids, add);
      SameOverrides(m, n) && SameConfigLists(m, n)
  {
    var p, q := m.policies[pid], ChangeServices(m, index, pid, ids, add).policies[pid];
    MovedData(m.identities, pid, p, q, multiset(ids), index, add);
    LinkedData(m.services, ids, pid, add);
  }

  lemma MovedData(all: map<Id, Identity>, pid: Id, p: Policy, q: Policy, ids: multiset<Id>, index: nat, add: bool)
    ensures
      var moved := AllServicesMoved(all, pid, p, q, ids, index, add);
      moved.Keys == all.Keys && forall i :: i in all ==> moved[i].data == all[i].data
  {
  }

  lemma LinkedData(all: map<Id, Service>, ids: seq<Id>, pid: Id, add: bool)
    ensures
      var linked := ServicesLinked(all, ids, pid, add);
      linked.Keys == all.Keys && forall s :: s in all ==> linked[s].data == all[s].data
  {
  }

  lemma ChangeChecksFrame(m: Model, index: nat, pid: Id, ids: seq<Id>, add: bool)
    requires pid in m.policies
    ensures
      var n := ChangeChecks(m, index, pid, ids, add);
      SameOverrides(m, n) && SameConfigLists(m, n)
  {
  }

  lemma ChangeFrame(m: Model, index: nat, change: PolicyChange)
    ensures SameOverrides(m, Change(m, index, change)) && SameConfigLists(m, Change(m, index, change))
    ensures change.related.RelatedIdentity? ==> KeepsLinks(m, Change(m, index, change))
  {
    if change.policyId in m.policies {
      match change.related
      case RelatedIdentity => ChangeIdentitiesFrame(m, index, change.policyId, ToSet(change.ids), change.add);
      case RelatedService => ChangeServicesFrame(m, index, change.policyId, change.ids, change.add);
      case RelatedPostureCheck => ChangeChecksFrame(m, index, change.policyId, change.ids, change.add);
    }
  }

  // ---- config to identity ------------------------------------------------------------------------------

  ghost predicate IdentityRefsOf(cs: map<Id, Config>, ids: map<Id, Identity>) {
    forall c, i :: c in cs ==>
      (i in cs[c].identities <==> i in ids && c in Referenced(ids[i].data.serviceConfigs))
  }

  /** A config lists an identity iff that identity's overrides reference the config. */
  ghost predicate IdentityRefsExact(m: Model) {
    IdentityRefsOf(m.configs, m.identities)
  }

  lemma PurgedReferences(sc: map<Id, map<Id, Id>>, c: Id)
    ensures Referenced(Purged(sc, c)) == Referenced(sc) - {c}
  {
    var purged := Purged(sc, c);
    forall x ensures x in Referenced(purged) <==> x in Referenced(sc) && x != c {
      if x in Referenced(sc) && x != c {
        var s, t :| s in sc && t in sc[s] && sc[s][t] == x;
        assert t in WithoutConfig(sc[s], c);
        assert s in purged && purged[s][t] == x;
      }
      if x in Referenced(purged) {
        var s, t :| s in purged && t in purged[s] && purged[s][t] == x;
        assert sc[s][t] == x;
      }
    }
  }

  lemma DeleteConfigIdentityRefs(m: Model, index: nat, id: Id)
    requires IdentityRefsExact(m) && id in m.configs
    ensures IdentityRefsExact(DeleteConfig(m, index, id))
    ensures forall i :: i in m.identities ==>
                          id !in Referenced(DeleteConfig(m, index, id).identities[i].data.serviceConfigs)
  {
    var n := DeleteConfig(m, index, id);
    forall i | i in m.identities
      ensures Referenced(n.identities[i].data.serviceConfigs) == Referenced(m.identities[i].data.serviceConfigs) - {id}
    {
      PurgedReferences(m.identities[i].data.serviceConfigs, id);
    }
  }

  lemma PutIdentityRefs(m: Model, index: nat, id: Id, data: IdentityData)
    requires IdentityRefsExact(m)
    ensures IdentityRefsExact(PutIdentity(m, index, id, data))
  {
  }

  lemma DeleteIdentityRefs(m: Model, id: Id)
    requires IdentityRefsExact(m)
    ensures IdentityRefsExact(DeleteIdentity(m, id))
  {
  }

  lemma SameIdentityRefs(m: Model, n: Model)
    requires SameOverrides(m, n)
    ensures IdentityRefsExact(m) <==> IdentityRefsExact(n)
  {
  }

  /** The one event that can break the references: a config created when an override names it already. */
  ghost predicate NamedBeforeCreated(m: Model, e: Event) {
    && e.ConfigEvent? && !e.action.Delete? && e.id !in m.configs
    && exists i :: i in m.identities && e.id in Referenced(m.identities[i].data.serviceConfigs)
  }

  lemma NewConfigIdentityRefs(m: Model, index: nat, id: Id, data: ConfigData)
    requires IdentityRefsExact(m) && id !in m.configs
    ensures IdentityRefsExact(PutConfig(m, index, id, data)) <==>
            forall i :: i in m.identities ==> id !in Referenced(m.identities[i].data.serviceConfigs)
  {
    var n := PutConfig(m, index, id, data);
    assert n.configs[id].identities == {};
    if i :| i in m.identities && id in Referenced(m.identities[i].data.serviceConfigs) {
      assert i !in n.configs[id].identities;
    }
  }

  /** Config to identity references stay exact through an event exactly when it is not such a create. */
  lemma IdentityRefsExactIff(m: Model, index: nat, e: Event)
    requires IdentityRefsExact(m)
    ensures IdentityRefsExact(Handle(m, index, e)) <==> !NamedBeforeCreated(m, e)
  {
    match e
    case ConfigEvent(a, id, data) =>
      if id !in m.configs {
        NewConfigIdentityRefs(m, index, id, data);
      } else if a.Delete? {
        DeleteConfigIdentityRefs(m, index, id);
      } else {
        PutConfigFrame(m, index, id, data);
        SameIdentityRefs(m, PutConfig(m, index, id, data));
      }
    case IdentityEvent(a, id, data) =>
      PutIdentityRefs(m, index, id, data);
      DeleteIdentityRefs(m, id);
    case _ =>
      OtherEventsKeepOverrides(m, index, e);
      SameIdentityRefs(m, Handle(m, index, e));
  }

  lemma OtherEventsKeepOverrides(m: Model, index: nat, e: Event)
    requires !e.ConfigEvent? && !e.IdentityEvent?
    ensures SameOverrides(m, Handle(m, index, e))
  {
    match e {
      case ConfigTypeEvent(_, id, name) => PutConfigTypeFrame(m, index, id, name);
      case ServiceEvent(_, id, data) => PutServiceFrame(m, index, id, data); DeleteServiceFrame(m, index, id);
      case PolicyEvent(_, id, name, t) => PutPolicyFrame(m, index, id, name, t); DeletePolicyFrame(m, index, id);
      case CheckEvent(_, id, data) => PutCheckFrame(m, index, id, data); DeleteCheckFrame(m, index, id);
      case ChangeEvent(change) => ChangeFrame(m, index, change);
    }
  }

  /** Every override names a config that exists. */
  ghost predicate OverridesKnown(m: Model) {
    forall i :: i in m.identities ==> Referenced(m.identities[i].data.serviceConfigs) <= m.configs.Keys
  }

  /** Identity creates and updates name existing configs. */
  ghost predicate NamesKnownConfigs(m: Model, e: Event) {
    e.IdentityEvent? && !e.action.Delete? ==> Referenced(e.identity.serviceConfigs) <= m.configs.Keys
  }

  lemma DeleteConfigKeepsKnown(m: Model, index: nat, id: Id)
    requires OverridesKnown(m) && IdentityRefsExact(m) && id in m.configs
    ensures OverridesKnown(DeleteConfig(m, index, id))
  {
    var n := DeleteConfig(m, index, id);
    forall i | i in n.identities ensures Referenced(n.identities[i].data.serviceConfigs) <= n.configs.Keys {
      PurgedReferences(m.identities[i].data.serviceConfigs, id);
    }
  }

  lemma PutConfigKeepsKnown(m: Model, index: nat, id: Id, data: ConfigData)
    requires OverridesKnown(m)
    ensures OverridesKnown(PutConfig(m, index, id, data))
  {
  }

  lemma IdentityKnownIff(m: Model, index: nat, id: Id, data: IdentityData)
    requires OverridesKnown(m)
    ensures OverridesKnown(PutIdentity(m, index, id, data)) <==> Referenced(data.serviceConfigs) <= m.configs.Keys
    ensures OverridesKnown(DeleteIdentity(m, id))
  {
    assert PutIdentity(m, index, id, data).identities[id].data == data;
  }

  /**
   From a state whose overrides name existing configs, references stay exact through every event, a config delete
   that purges overrides included, and the overrides stay good exactly when identity events name existing configs.
   */
  lemma OverridesKnownIff(m: Model, index: nat, e: Event)
    requires OverridesKnown(m) && IdentityRefsExact(m)
    ensures IdentityRefsExact(Handle(m, index, e))
    ensures OverridesKnown(Handle(m, index, e)) <==> NamesKnownConfigs(m, e)
  {
    IdentityRefsExactIff(m, index, e);
    match e
    case ConfigEvent(a, id, data) =>
      if !a.Delete? { PutConfigKeepsKnown(m, index, id, data); }
      else if id in m.configs { DeleteConfigKeepsKnown(m, index, id); }
    case IdentityEvent(_, id, data) => IdentityKnownIff(m, index, id, data);
    case _ => OtherEventsKeepOverrides(m, index, e);
  }

  // ---- config to service -------------------------------------------------------------------------------

  ghost predicate ServiceRefsExactAt(m: Model, c: Id, s: Id)
    requires c in m.configs
  {
    s in m.configs[c].services <==> s in m.services && c in multiset(m.services[s].data.configs)
  }

  /** A config lists a service iff the service's config list names it. */
  ghost predicate ServiceRefsExact(m: Model) {
    forall c, s :: c in m.configs ==> ServiceRefsExactAt(m, c, s)
  }

  /** An existing config still listed, but fewer times than before: the difference drops it although it stays. */
  ghost predicate ListedLessOften(m: Model, id: Id, data: ServiceData) {
    id in m.services &&
    exists c :: c in m.configs && 1 <= multiset(data.configs)[c] < multiset(m.services[id].data.configs)[c]
  }

  ghost predicate ListedBeforeCreated(m: Model, id: Id) {
    id !in m.configs && exists s :: s in m.services && id in multiset(m.services[s].data.configs)
  }

  /** A service update moves exactly the right references iff no config kept in the list lost an occurrence. */
  lemma PutServiceRefsIff(m: Model, index: nat, id: Id, data: ServiceData)
    requires ServiceRefsExact(m)
    ensures ServiceRefsExact(PutService(m, index, id, data)) <==> !ListedLessOften(m, id, data)
  {
    var n := PutService(m, index, id, data);
    var before := if id in m.services then multiset(m.services[id].data.configs) else multiset{};
    forall c, s | c in m.configs
      ensures ServiceRefsExactAt(n, c, s) <==> !(s == id && 1 <= multiset(data.configs)[c] < before[c])
    {
      assert ServiceRefsExactAt(m, c, s);
      PutServiceRefsAt(m, index, id, data, c, s);
    }
    if !ListedLessOften(m, id, data) {
      assert forall c, s :: c in n.configs ==> ServiceRefsExactAt(n, c, s);
    } else {
      var c :| c in m.configs && 1 <= multiset(data.configs)[c] < before[c];
      assert !ServiceRefsExactAt(n, c, id);
    }
  }

  lemma PutServiceRefsAt(m: Model, index: nat, id: Id, data: ServiceData, c: Id, s: Id)
    requires c in m.configs && ServiceRefsExactAt(m, c, s)
    ensures
      var before := if id in m.services then multiset(m.services[id].data.configs) else multiset{};
      ServiceRefsExactAt(PutService(m, index, id, data), c, s) <==>
      !(s == id && 1 <= multiset(data.configs)[c] < before[c])
  {
    SliceDiff.SortPermutes(data.configs);
  }

  /** Duplicate-free lists never lose an occurrence. */
  lemma DuplicateFreeIsFine(m: Model, id: Id, data: ServiceData)
    requires forall s :: s in m.services ==> Distinct(m.services[s].data.configs)
    ensures !ListedLessOften(m, id, data)
  {
    if id in m.services {
      var configs := m.services[id].data.configs;
      forall c ensures multiset(configs)[c] <= 1 {
        if c in configs {
          DistinctOnce(configs, c);
        }
      }
    }
  }

  lemma PutConfigServiceRefs(m: Model, index: nat, id: Id, data: ConfigData)
    requires ServiceRefsExact(m)
    ensures ServiceRefsExact(PutConfig(m, index, id, data)) <==> !ListedBeforeCreated(m, id)
  {
    var n := PutConfig(m, index, id, data);
    if id in m.configs {
      PutConfigFrame(m, index, id, data);
      SameServiceRefs(m, n);
    } else {
      forall c, s | c in n.configs
        ensures ServiceRefsExactAt(n, c, s) <==>
                (c == id ==> !(s in m.services && id in multiset(m.services[s].data.configs)))
      {
        assert c != id ==> ServiceRefsExactAt(m, c, s);
      }
      if ListedBeforeCreated(m, id) {
        var s :| s in m.services && id in multiset(m.services[s].data.configs);
        assert !ServiceRefsExactAt(n, id, s);
      }
    }
  }

  lemma DeleteServiceRefs(m: Model, index: nat, id: Id)
    requires ServiceRefsExact(m)
    ensures ServiceRefsExact(DeleteService(m, index, id))
  {
    var n := DeleteService(m, index, id);
    forall c, s | c in n.configs ensures ServiceRefsExactAt(n, c, s) {
      assert ServiceRefsExactAt(m, c, s);
    }
  }

  lemma DeleteConfigServiceRefs(m: Model, index: nat, id: Id)
    requires ServiceRefsExact(m)
    ensures ServiceRefsExact(DeleteConfig(m, index, id))
  {
    var n := DeleteConfig(m, index, id);
    forall c, s | c in n.configs ensures ServiceRefsExactAt(n, c, s) {
      assert ServiceRefsExactAt(m, c, s);
    }
  }

  lemma SameServiceRefs(m: Model, n: Model)
    requires SameConfigLists(m, n)
    ensures ServiceRefsExact(m) <==> ServiceRefsExact(n)
  {
    assert forall c, s :: c in m.configs ==> (ServiceRefsExactAt(m, c, s) <==> ServiceRefsExactAt(n, c, s));
  }

  lemma OtherEventsKeepConfigLists(m: Model, index: nat, e: Event)
    requires !e.ConfigEvent? && !e.ServiceEvent?
    ensures SameConfigLists(m, Handle(m, index, e))
  {
    match e {
      case ConfigTypeEvent(_, id, name) => PutConfigTypeFrame(m, index, id, name);
      case IdentityEvent(_, id, data) => IdentityFrame(m, index, id, data);
      case PolicyEvent(_, id, name, t) => PutPolicyFrame(m, index, id, name, t); DeletePolicyFrame(m, index, id);
      case CheckEvent(_, id, data) => PutCheckFrame(m, index, id, data); DeleteCheckFrame(m, index, id);
      case ChangeEvent(change) => ChangeFrame(m, index, change);
    }
  }

  ghost predicate BreaksServiceRefs(m: Model, e: Event) {
    || (e.ConfigEvent? && !e.action.Delete? && ListedBeforeCreated(m, e.id))
    || (e.ServiceEvent? && !e.action.Delete? && ListedLessOften(m, e.id, e.service))
  }

  /** Config to service references stay exact through an event exactly when it is neither kind of culprit. */
  lemma ServiceRefsExactIff(m: Model, index: nat, e: Event)
    requires ServiceRefsExact(m)
    ensures ServiceRefsExact(Handle(m, index, e)) <==> !BreaksServiceRefs(m, e)
  {
    match e
    case ConfigEvent(a, id, data) =>
      PutConfigServiceRefs(m, index, id, data);
      DeleteConfigServiceRefs(m, index, id);
    case ServiceEvent(a, id, data) =>
      PutServiceRefsIff(m, index, id, data);
      DeleteServiceRefs(m, index, id);
    case _ =>
      OtherEventsKeepConfigLists(m, index, e);
      SameServiceRefs(m, Handle(m, index, e));
  }

  ghost predicate ListKnown(known: set<Id>, configs: multiset<Id>) {
    forall c :: c in configs ==> c in known && configs[c] == 1
  }

  /** Every service lists existing configs, each once. */
  ghost predicate ListsKnown(m: Model) {
    forall s :: s in m.services ==> ListKnown(m.configs.Keys, multiset(m.services[s].data.configs))
  }

  /** Service creates and updates list existing configs, each once, and a config is deleted once nothing lists it. */
  ghost predicate ListsKnownConfigs(m: Model, e: Event) {
    match e
    case ServiceEvent(a, _, data) => a.Delete? || ListKnown(m.configs.Keys, multiset(data.configs))
    case ConfigEvent(a, id, _) =>
      a.Delete? ==> forall s :: s in m.services ==> id !in multiset(m.services[s].data.configs)
    case _ => true
  }

  lemma PutServiceParts(m: Model, index: nat, id: Id, data: ServiceData)
    ensures
      var n := PutService(m, index, id, data);
      && n.configs.Keys == m.configs.Keys && id in n.services && n.services == m.services[id := n.services[id]]
      && multiset(n.services[id].data.configs) == multiset(data.configs)
  {
    SliceDiff.SortPermutes(data.configs);
    var before := if id in m.services then multiset(m.services[id].data.configs) else multiset{};
    var after := multiset(data.configs);
    SameConfigKeys(m.configs, id, before - after, after - before);
  }

  lemma SameConfigKeys(cs: map<Id, Config>, s: Id, remove: multiset<Id>, add: multiset<Id>)
    ensures ServiceReferences(cs, s, remove, add).Keys == cs.Keys
  {
  }

  lemma PutServiceListsIff(m: Model, index: nat, id: Id, data: ServiceData)
    requires ListsKnown(m)
    ensures ListsKnown(PutService(m, index, id, data)) <==> ListKnown(m.configs.Keys, multiset(data.configs))
  {
    var n := PutService(m, index, id, data);
    PutServiceParts(m, index, id, data);
    assert ListKnown(n.configs.Keys, multiset(n.services[id].data.configs)) <==>
           ListKnown(m.configs.Keys, multiset(data.configs));
  }

  lemma DeleteServiceLists(m: Model, index: nat, id: Id)
    requires ListsKnown(m)
    ensures ListsKnown(DeleteService(m, index, id))
  {
    assert DeleteService(m, index, id).configs.Keys == m.configs.Keys;
  }

  lemma PutConfigLists(m: Model, index: nat, id: Id, data: ConfigData)
    requires ListsKnown(m)
    ensures ListsKnown(PutConfig(m, index, id, data))
  {
    var n := PutConfig(m, index, id, data);
    assert n.configs.Keys == m.configs.Keys + {id} && n.services.Keys == m.services.Keys;
    forall s | s in n.services ensures ListKnown(n.configs.Keys, multiset(n.services[s].data.configs)) {
      assert n.services[s].data == m.services[s].data;
      assert ListKnown(m.configs.Keys, multiset(m.services[s].data.configs));
    }
  }

  lemma DeleteConfigListsIff(m: Model, index: nat, id: Id)
    requires ListsKnown(m)
    ensures ListsKnown(DeleteConfig(m, index, id)) <==>
            forall s :: s in m.services ==> id !in multiset(m.services[s].data.configs)
  {
    var n := DeleteConfig(m, index, id);
    assert n.services.Keys == m.services.Keys;
    assert forall s :: s in n.services ==> n.services[s].data == m.services[s].data;
    forall s | s in m.services
      ensures ListKnown(n.configs.Keys, multiset(n.services[s].data.configs)) <==>
              id !in multiset(m.services[s].data.configs)
    {
      assert ListKnown(m.configs.Keys, multiset(m.services[s].data.configs));
    }
  }

  /**
   From a state whose services list existing configs, each once, references stay exact through every event, and the
   lists stay good exactly when service events and config deletes respect them.
   */
  lemma ListsKnownIff(m: Model, index: nat, e: Event)
    requires ListsKnown(m) && ServiceRefsExact(m)
    ensures ServiceRefsExact(Handle(m, index, e))
    ensures ListsKnown(Handle(m, index, e)) <==> ListsKnownConfigs(m, e)
  {
    KnownListsDoNotBreak(m, e);
    ServiceRefsExactIff(m, index, e);
    match e
    case ConfigEvent(a, id, data) =>
      if a.Delete? { DeleteConfigListsIff(m, index, id); } else { PutConfigLists(m, index, id, data); }
    case ServiceEvent(a, id, data) =>
      if a.Delete? { DeleteServiceLists(m, index, id); } else { PutServiceListsIff(m, index, id, data); }
    case _ =>
      OtherEventsKeepConfigLists(m, index, e);
  }

  lemma KnownListsDoNotBreak(m: Model, e: Event)
    requires ListsKnown(m)
    ensures !BreaksServiceRefs(m, e)
  {
    forall s, c | s in m.services && c in multiset(m.services[s].data.configs)
      ensures c in m.configs && multiset(m.services[s].data.configs)[c] == 1
    {
      assert ListKnown(m.configs.Keys, multiset(m.services[s].data.configs));
    }
  }

  // ---- service and posture check to policy -------------------------------------------------------------

  /** What a policy lists exists and refers back to the policy, so that deleting it reaches the policy. */
  ghost predicate ServiceLinks(m: Model) {
    forall p, s :: p in m.policies && s in m.policies[p].services ==> s in m.services && p in m.services[s].policies
  }

  ghost predicate CheckLinks(m: Model) {
    forall p, c :: p in m.policies && c in m.policies[p].checks ==> c in m.checks && p in m.checks[c].policies
  }

  ghost predicate Links(m: Model) {
    ServiceLinks(m) && CheckLinks(m)
  }

  /** A service or posture check that refers back to an existing policy is listed by it. */
  ghost predicate BackLinks(m: Model) {
    && (forall s, p :: s in m.services && p in m.services[s].policies && p in m.policies ==>
                       s in m.policies[p].services)
    && (forall c, p :: c in m.checks && p in m.checks[c].policies && p in m.policies ==> c in m.policies[p].checks)
  }

  /** After a service delete no policy lists it. */
  lemma DeleteServiceLinks(m: Model, index: nat, id: Id)
    requires Links(m)
    ensures Links(DeleteService(m, index, id))
    ensures forall p :: p in m.policies ==> id !in DeleteService(m, index, id).policies[p].services
  {
  }

  lemma DeleteCheckLinks(m: Model, index: nat, id: Id)
    requires Links(m)
    ensures Links(DeleteCheck(m, index, id))
    ensures forall p :: p in m.policies ==> id !in DeleteCheck(m, index, id).policies[p].checks
  {
  }

  ghost predicate NamesUnknown(m: Model, e: Event) {
    e.ChangeEvent? && e.change.policyId in m.policies && e.change.add &&
    exists x :: x in e.change.ids &&
                (if e.change.related.RelatedService? then x !in m.services
                 else e.change.related.RelatedPostureCheck? && x !in m.checks)
  }

  lemma ChangeServicesLinks(m: Model, index: nat, pid: Id, ids: seq<Id>, add: bool)
    requires Links(m) && pid in m.policies
    ensures Links(ChangeServices(m, index, pid, ids, add)) <==> (add ==> forall x :: x in ids ==> x in m.services)
  {
    var n := ChangeServices(m, index, pid, ids, add);
    assert CheckLinks(n);
    if add {
      forall x | x in ids ensures x in n.policies[pid].services && (x in n.services <==> x in m.services) {
      }
    }
  }

  lemma ChangeChecksLinks(m: Model, index: nat, pid: Id, ids: seq<Id>, add: bool)
    requires Links(m) && pid in m.policies
    ensures Links(ChangeChecks(m, index, pid, ids, add)) <==> (add ==> forall x :: x in ids ==> x in m.checks)
  {
    var n := ChangeChecks(m, index, pid, ids, add);
    assert ServiceLinks(n);
    if add {
      forall x | x in ids ensures x in n.policies[pid].checks && (x in n.checks <==> x in m.checks) {
      }
    }
  }

  lemma SameLinks(m: Model, n: Model)
    requires KeepsLinks(m, n)
    ensures Links(m) ==> Links(n)
    ensures BackLinks(m) ==> BackLinks(n)
  {
  }

  lemma OtherEventsKeepLinks(m: Model, index: nat, e: Event)
    requires match e
             case ServiceEvent(a, _, _) => !a.Delete?
             case CheckEvent(a, _, _) => !a.Delete?
             case PolicyEvent(a, id, _, _) => a.Delete? || id in m.policies
             case ChangeEvent(change) => change.related.RelatedIdentity?
             case _ => true
    ensures KeepsLinks(m, Handle(m, index, e))
    ensures Links(m) ==> Links(Handle(m, index, e))
    ensures BackLinks(m) ==> BackLinks(Handle(m, index, e))
  {
    match e {
      case ConfigTypeEvent(_, id, name) => PutConfigTypeFrame(m, index, id, name);
      case ConfigEvent(_, id, data) => PutConfigLinks(m, index, id, data); DeleteConfigFrame(m, index, id);
      case IdentityEvent(_, id, data) => IdentityFrame(m, index, id, data);
      case ServiceEvent(_, id, data) => PutServiceLinks(m, index, id, data);
      case PolicyEvent(a, id, name, t) =>
        if a.Delete? { DeletePolicyFrame(m, index, id); } else { PutPolicyLinks(m, index, id, name, t); }
      case CheckEvent(_, id, data) => PutCheckFrame(m, index, id, data);
      case ChangeEvent(change) => ChangeFrame(m, index, change);
    }
    SameLinks(m, Handle(m, index, e));
  }

  lemma NewPolicyLinks(m: Model, index: nat, id: Id, name: Text, t: PolicyType)
    requires Links(m) && id !in m.policies
    ensures Links(PutPolicy(m, index, id, name, t))
  {
  }

  /** Links hold through an event exactly when it adds nothing unknown to a policy. */
  lemma LinksIff(m: Model, index: nat, e: Event)
    requires Links(m)
    ensures Links(Handle(m, index, e)) <==> !NamesUnknown(m, e)
  {
    match e
    case ServiceEvent(a, id, _) =>
      if a.Delete? { DeleteServiceLinks(m, index, id); } else { OtherEventsKeepLinks(m, index, e); }
    case CheckEvent(a, id, _) =>
      if a.Delete? { DeleteCheckLinks(m, index, id); } else { OtherEventsKeepLinks(m, index, e); }
    case PolicyEvent(a, id, name, t) =>
      if a.Delete? || id in m.policies { OtherEventsKeepLinks(m, index, e); }
      else { NewPolicyLinks(m, index, id, name, t); }
    case ChangeEvent(change) =>
      if change.policyId in m.policies {
        match change.related
        case RelatedIdentity => OtherEventsKeepLinks(m, index, e);
        case RelatedService => ChangeServicesLinks(m, index, change.policyId, change.ids, change.add);
        case RelatedPostureCheck => ChangeChecksLinks(m, index, change.policyId, change.ids, change.add);
      }
    case _ => OtherEventsKeepLinks(m, index, e);
  }

  /** A policy delete leaves the references back to it, so its id must not come back while they last. */
  ghost predicate StillLinked(m: Model, e: Event) {
    && e.PolicyEvent? && !e.action.Delete? && e.id !in m.policies
    && ((exists s :: s in m.services && e.id in m.services[s].policies) ||
        (exists c :: c in m.checks && e.id in m.checks[c].policies))
  }

  lemma NewPolicyBackLinksIff(m: Model, index: nat, id: Id, name: Text, t: PolicyType)
    requires BackLinks(m) && id !in m.policies
    ensures BackLinks(PutPolicy(m, index, id, name, t)) <==> !StillLinked(m, PolicyEvent(Create, id, name, t))
  {
    var n := PutPolicy(m, index, id, name, t);
    assert n.policies[id].services == {} && n.policies[id].checks == {};
    if s :| s in m.services && id in m.services[s].policies {
      assert s in n.services && s !in n.policies[id].services;
    }
    if c :| c in m.checks && id in m.checks[c].policies {
      assert c in n.checks && c !in n.policies[id].checks;
    }
  }

  lemma DeletesKeepBackLinks(m: Model, index: nat, id: Id)
    requires BackLinks(m)
    ensures BackLinks(DeleteService(m, index, id)) && BackLinks(DeleteCheck(m, index, id))
  {
  }

  lemma DeltasKeepBackLinks(m: Model, index: nat, pid: Id, ids: seq<Id>, add: bool)
    requires BackLinks(m) && pid in m.policies
    ensures BackLinks(ChangeServices(m, index, pid, ids, add)) && BackLinks(ChangeChecks(m, index, pid, ids, add))
  {
  }

  /** References back to existing policies stay exact through an event exactly when it revives no linked id. */
  lemma BackLinksIff(m: Model, index: nat, e: Event)
    requires BackLinks(m)
    ensures BackLinks(Handle(m, index, e)) <==> !StillLinked(m, e)
  {
    match e
    case ServiceEvent(a, id, _) =>
      if a.Delete? { DeletesKeepBackLinks(m, index, id); } else { OtherEventsKeepLinks(m, index, e); }
    case CheckEvent(a, id, _) =>
      if a.Delete? { DeletesKeepBackLinks(m, index, id); } else { OtherEventsKeepLinks(m, index, e); }
    case PolicyEvent(a, id, name, t) =>
      if a.Delete? || id in m.policies { OtherEventsKeepLinks(m, index, e); }
      else { NewPolicyBackLinksIff(m, index, id, name, t); }
    case ChangeEvent(change) =>
      if change.policyId in m.policies {
        if change.related.RelatedIdentity? { OtherEventsKeepLinks(m, index, e); }
        else { DeltasKeepBackLinks(m, index, change.policyId, change.ids, change.add); }
      }
    case _ => OtherEventsKeepLinks(m, index, e);
  }
}
