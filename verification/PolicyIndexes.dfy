/**
 The two indexes a service policy keeps (common/router_data_model.go): servicesIndex follows its services and their
 configs, checksIndex its posture checks. What each event does to them, exactly.
 */
module PolicyIndexes {
  import opened Types
  import opened Identities
  import opened Receiver
  import opened IndexRuns

  /** The event touches a service that refers back to the policy, by a config of it or by its own update. */
  ghost predicate TouchesServiceOf(m: Model, e: Event, p: Id) {
    || (exists s :: s in m.services && p in m.services[s].policies && Touches(m, e, s))
    || (e.ServiceEvent? && !e.action.Delete? && e.id in m.services && p in m.services[e.id].policies)
  }

  /** The policy is put or its services are changed, by the event or by a cleanup event. */
  ghost predicate SetsServices(m: Model, e: Event, p: Id) {
    match e
    case PolicyEvent(a, id, _, _) => !a.Delete? && id == p
    case ChangeEvent(change) => change.policyId == p && change.related.RelatedService?
    case ServiceEvent(a, id, _) => a.Delete? && p in PoliciesWithService(m, id)
    case _ => false
  }

  ghost predicate SetsChecks(m: Model, e: Event, p: Id) {
    match e
    case ChangeEvent(change) => change.policyId == p && change.related.RelatedPostureCheck?
    case CheckEvent(a, id, _) => a.Delete? && p in PoliciesWithCheck(m, id)
    case _ => false
  }

  ghost predicate TouchesCheckOf(m: Model, e: Event, p: Id) {
    e.CheckEvent? && !e.action.Delete? && e.id in m.checks && p in m.checks[e.id].policies
  }

  ghost predicate PolicyIndexMoved(m: Model, n: Model, index: nat, e: Event, p: Id) {
    p in n.policies ==>
      && (p !in m.policies ==> e.PolicyEvent? && e.id == p)
      && n.policies[p].servicesIndex ==
         (if SetsServices(m, e, p) || p !in m.policies then index
          else if TouchesServiceOf(m, e, p) then Max(m.policies[p].servicesIndex, index)
          else m.policies[p].servicesIndex)
      && n.policies[p].checksIndex ==
         (if (e.PolicyEvent? && e.id == p) || p !in m.policies then 0
          else if SetsChecks(m, e, p) then index
          else if TouchesCheckOf(m, e, p) then Max(m.policies[p].checksIndex, index)
          else m.policies[p].checksIndex)
  }

  lemma ConfigTypeIndexes(m: Model, index: nat, id: Id, name: Text, p: Id)
    ensures PolicyIndexMoved(m, PutConfigType(m, index, id, name), index, ConfigTypeEvent(Update, id, name), p)
  {
    var e := ConfigTypeEvent(Update, id, name);
    var touched := PoliciesOf(m.services, ServicesOfType(m.configs, id));
    assert forall s :: s in ServicesOfType(m.configs, id) <==> Touches(m, e, s);
    assert p in touched <==> TouchesServiceOf(m, e, p);
  }

  lemma ConfigIndexes(m: Model, index: nat, a: Action, id: Id, data: ConfigData, p: Id)
    ensures PolicyIndexMoved(m, Handle(m, index, ConfigEvent(a, id, data)), index, ConfigEvent(a, id, data), p)
  {
    var e := ConfigEvent(a, id, data);
    if id in m.configs {
      var touched := PoliciesOf(m.services, m.configs[id].services);
      if a.Delete? || m.configs[id].data != data {
        assert forall s :: s in m.configs[id].services <==> Touches(m, e, s);
        assert p in touched <==> TouchesServiceOf(m, e, p);
      }
    }
  }

  lemma PolicyPutIndexes(m: Model, index: nat, id: Id, name: Text, t: PolicyType, p: Id)
    ensures PolicyIndexMoved(m, PutPolicy(m, index, id, name, t), index, PolicyEvent(Update, id, name, t), p)
  {
  }

  lemma PolicyGoneIndexes(m: Model, index: nat, id: Id, name: Text, t: PolicyType, p: Id)
    ensures PolicyIndexMoved(m, DeletePolicy(m, index, id), index, PolicyEvent(Delete, id, name, t), p)
  {
  }

  lemma IdentitiesIndexes(m: Model, index: nat, change: PolicyChange, p: Id)
    requires change.policyId in m.policies && change.related.RelatedIdentity?
    ensures
      var n := ChangeIdentities(m, index, change.policyId, ToSet(change.ids), change.add);
      PolicyIndexMoved(m, n, index, ChangeEvent(change), p)
  {
  }

  lemma ServicesIndexes(m: Model, index: nat, change: PolicyChange, p: Id)
    requires change.policyId in m.policies && change.related.RelatedService?
    ensures
      var n := ChangeServices(m, index, change.policyId, change.ids, change.add);
      PolicyIndexMoved(m, n, index, ChangeEvent(change), p)
  {
  }

  lemma ChecksIndexes(m: Model, index: nat, change: PolicyChange, p: Id)
    requires change.policyId in m.policies && change.related.RelatedPostureCheck?
    ensures
      var n := ChangeChecks(m, index, change.policyId, change.ids, change.add);
      PolicyIndexMoved(m, n, index, ChangeEvent(change), p)
  {
  }

  lemma ChangeIndexes(m: Model, index: nat, change: PolicyChange, p: Id)
    ensures PolicyIndexMoved(m, Change(m, index, change), index, ChangeEvent(change), p)
  {
    if change.policyId in m.policies {
      match change.related
      case RelatedIdentity => IdentitiesIndexes(m, index, change, p);
      case RelatedService => ServicesIndexes(m, index, change, p);
      case RelatedPostureCheck => ChecksIndexes(m, index, change, p);
    }
  }

  lemma ServicePutIndexes(m: Model, index: nat, id: Id, data: ServiceData, p: Id)
    ensures PolicyIndexMoved(m, PutService(m, index, id, data), index, ServiceEvent(Update, id, data), p)
  {
  }

  lemma ServiceGoneIndexes(m: Model, index: nat, id: Id, data: ServiceData, p: Id)
    ensures PolicyIndexMoved(m, DeleteService(m, index, id), index, ServiceEvent(Delete, id, data), p)
  {
  }

  lemma CheckIndexes(m: Model, index: nat, id: Id, data: Text, p: Id)
    ensures PolicyIndexMoved(m, PutCheck(m, index, id, data), index, CheckEvent(Update, id, data), p)
    ensures PolicyIndexMoved(m, DeleteCheck(m, index, id), index, CheckEvent(Delete, id, data), p)
  {
  }

  lemma IdentityIndexes(m: Model, index: nat, a: Action, id: Id, data: IdentityData, p: Id)
    ensures PolicyIndexMoved(m, Handle(m, index, IdentityEvent(a, id, data)), index, IdentityEvent(a, id, data), p)
  {
  }

  lemma PutIndexes(m: Model, index: nat, e: Event, p: Id)
    requires !e.ChangeEvent? && !e.ConfigEvent? && !e.IdentityEvent? && !e.action.Delete?
    ensures PolicyIndexMoved(m, Handle(m, index, e), index, e, p)
  {
    match e
    case ConfigTypeEvent(_, id, name) => ConfigTypeIndexes(m, index, id, name, p);
    case ServiceEvent(_, id, data) => ServicePutIndexes(m, index, id, data, p);
    case CheckEvent(_, id, data) => CheckIndexes(m, index, id, data, p);
    case PolicyEvent(_, id, name, t) => PolicyPutIndexes(m, index, id, name, t, p);
  }

  lemma DeleteIndexes(m: Model, index: nat, e: Event, p: Id)
    requires !e.ChangeEvent? && !e.ConfigEvent? && !e.IdentityEvent? && e.action.Delete?
    ensures PolicyIndexMoved(m, Handle(m, index, e), index, e, p)
  {
    match e
    case ConfigTypeEvent(_, id, name) =>
    case ServiceEvent(_, id, data) => ServiceGoneIndexes(m, index, id, data, p);
    case CheckEvent(_, id, data) => CheckIndexes(m, index, id, data, p);
    case PolicyEvent(_, id, name, t) => PolicyGoneIndexes(m, index, id, name, t, p);
  }

  /** Exactly what an event does to the two indexes of a policy. */
  lemma PolicyIndexAfter(m: Model, index: nat, e: Event, p: Id)
    ensures PolicyIndexMoved(m, Handle(m, index, e), index, e, p)
  {
    if e.ChangeEvent? {
      ChangeIndexes(m, index, e.change, p);
    } else if e.ConfigEvent? {
      ConfigIndexes(m, index, e.action, e.id, e.config, p);
    } else if e.IdentityEvent? {
      IdentityIndexes(m, index, e.action, e.id, e.identity, p);
    } else if e.action.Delete? {
      DeleteIndexes(m, index, e, p);
    } else {
      PutIndexes(m, index, e, p);
    }
  }
}
