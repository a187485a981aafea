/**
 Which identities an event asks to have re-checked (queueSyncCheck and queueNewIdentitySubCheck in
 common/router_data_model.go).
 */
module Notifications {
  import opened Types
  import opened Identities
  import opened Receiver

  /** The known identities of the policies in touched. */
  ghost function MembersOf(ps: Policies, known: set<Id>, touched: set<Id>): set<Id> {
    set p, i | p in touched && p in ps && i in ps[p].identities && i in known :: i
  }

  lemma MembersOfMore(ps: Policies, known: set<Id>, some: set<Id>, more: set<Id>)
    ensures MembersOf(ps, known, some + more) == MembersOf(ps, known, some) + MembersOf(ps, known, more)
  {
  }

  lemma MembersOfOne(ps: Policies, known: set<Id>, p: Id)
    ensures MembersOf(ps, known, {p}) == if p in ps then ps[p].identities * known else {}
  {
    var one, all := {p}, MembersOf(ps, known, {p});
    assert all == MembersOf(ps, known, one) && p in one;
    forall i | p in ps && i in ps[p].identities * known ensures i in all {
      assert i in MembersOf(ps, known, one);
    }
  }

  /** Two policy maps with the same members have the same ones to notify. */
  lemma MembersOfSame(ps: Policies, qs: Policies, known: set<Id>, touched: set<Id>)
    requires ps.Keys == qs.Keys && forall p :: p in ps ==> ps[p].identities == qs[p].identities
    ensures MembersOf(ps, known, touched) == MembersOf(qs, known, touched)
  {
  }

  /** The identities whose overrides name a config of the given type. */
  ghost function IdentitiesOfType(configs: map<Id, Config>, t: Id): set<Id> {
    set c, i | c in configs && configs[c].data.typeId == t && i in configs[c].identities :: i
  }

  /** NotifyServiceOfConfigChange for each service, NotifyIdentityChange for each identity. */
  ghost function ConfigUsers(m: Model, services: set<Id>, identities: set<Id>): set<Id> {
    MembersOf(m.policies, m.identities.Keys, PoliciesOf(m.services, services)) + identities * m.identities.Keys
  }

  /** The policies an identity's cleanup events are for. */
  function PoliciesWithIdentity(m: Model, id: Id): set<Id> {
    set p | p in m.policies && id in m.identities && p in m.identities[id].policies && id in m.policies[p].identities
  }

  ghost function ChangeNotified(m: Model, change: PolicyChange): set<Id> {
    if change.policyId !in m.policies then {}
    else (m.policies[change.policyId].identities +
          if change.related.RelatedIdentity? then ToSet(change.ids) else {}) * m.identities.Keys
  }

  ghost function Notified(m: Model, e: Event): set<Id> {
    var known := m.identities.Keys;
    match e
    case ConfigTypeEvent(a, id, _) =>
      if a.Delete? then {} else ConfigUsers(m, ServicesOfType(m.configs, id), IdentitiesOfType(m.configs, id))
    case ConfigEvent(a, id, data) =>
      if id !in m.configs || (!a.Delete? && m.configs[id].data == data) then {}
      else ConfigUsers(m, m.configs[id].services, m.configs[id].identities)
    case IdentityEvent(a, id, _) =>
      if !a.Delete? then {id} else MembersOf(m.policies, known, PoliciesWithIdentity(m, id))
    case ServiceEvent(a, id, _) =>
      if id !in m.services then {}
      else MembersOf(m.policies, known, if a.Delete? then PoliciesWithService(m, id) else m.services[id].policies)
    case PolicyEvent(a, id, _, _) => if a.Delete? && id in m.policies then m.policies[id].identities else {}
    case CheckEvent(a, id, _) =>
      if id !in m.checks then {}
      else MembersOf(m.policies, known, if a.Delete? then PoliciesWithCheck(m, id) else m.checks[id].policies)
    case ChangeEvent(change) => ChangeNotified(m, change)
  }
}
