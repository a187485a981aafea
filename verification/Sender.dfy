/**
 The controller's copy of the model (common/router_data_model_sender.go), which keeps memberships on one side only:
 identities list their policies, policies list their services and posture checks.
 */
module Sender {
  import opened Types

  datatype SenderIdentity = SenderIdentity(data: IdentityData, policies: set<Id>)
  datatype SenderPolicy = SenderPolicy(name: Text, policyType: PolicyType, services: set<Id>, checks: set<Id>)

  /** An identity entry can hold nil: see ChangeIdentities. */
  datatype SenderModel = SenderModel(
    configTypes: map<Id, Text>,
    configs: map<Id, ConfigData>,
    identities: map<Id, Option<SenderIdentity>>,
    services: map<Id, ServiceData>,
    policies: map<Id, SenderPolicy>,
    checks: map<Id, Text>)

  const EmptySender := SenderModel(map[], map[], map[], map[], map[], map[])

  function PutIdentity(s: SenderModel, id: Id, data: IdentityData): SenderModel {
    var policies := if id in s.identities && s.identities[id].Some? then s.identities[id].value.policies else {};
    s.(identities := s.identities[id := Some(SenderIdentity(data, policies))])
  }

  function WithoutService(ps: map<Id, SenderPolicy>, among: set<Id>, id: Id): map<Id, SenderPolicy> {
    map p | p in ps :: if p in among then ps[p].(services := ps[p].services - {id}) else ps[p]
  }

  /** A deleted service is taken out of every policy; a deleted check or policy is not cleaned up after. */
  function DeleteService(s: SenderModel, id: Id): SenderModel {
    s.(services := s.services - {id},
       policies := WithoutService(s.policies, s.policies.Keys, id))
  }

  function PutPolicy(s: SenderModel, id: Id, name: Text, t: PolicyType): SenderModel {
    s.(policies := s.policies[id := if id in s.policies
                                    then s.policies[id].(name := name, policyType := t)
                                    else SenderPolicy(name, t, {}, {})])
  }

  function RelistedIdentity(i: Option<SenderIdentity>, pid: Id, add: bool): Option<SenderIdentity> {
    match i
    case None => None
    case Some(x) => Some(x.(policies := Relisted(x.policies, {pid}, add)))
  }

  /** The upsert stores what it found, so an identity that is not there gets a nil entry. */
  function ChangeIdentities(s: SenderModel, pid: Id, ids: set<Id>, add: bool): SenderModel {
    s.(identities := map i | i in s.identities.Keys + ids ::
                       if i !in s.identities then None
                       else if i in ids then RelistedIdentity(s.identities[i], pid, add)
                       else s.identities[i])
  }

  function Change(s: SenderModel, change: PolicyChange): SenderModel {
    var pid, ids := change.policyId, ToSet(change.ids);
    if change.related.RelatedIdentity? then ChangeIdentities(s, pid, ids, change.add)
    else if pid !in s.policies then s
    else
      var p := s.policies[pid];
      s.(policies := s.policies[pid := if change.related.RelatedService?
                                       then p.(services := Relisted(p.services, ids, change.add))
                                       else p.(checks := Relisted(p.checks, ids, change.add))])
  }

  function Handle(s: SenderModel, e: Event): SenderModel {
    match e
    case ConfigTypeEvent(a, id, name) =>
      s.(configTypes := if a.Delete? then s.configTypes - {id} else s.configTypes[id := name])
    case ConfigEvent(a, id, data) =>
      s.(configs := if a.Delete? then s.configs - {id} else s.configs[id := data])
    case IdentityEvent(a, id, data) =>
      if a.Delete? then s.(identities := s.identities - {id}) else PutIdentity(s, id, data)
    case ServiceEvent(a, id, data) =>
      if a.Delete? then DeleteService(s, id) else s.(services := s.services[id := data])
    case PolicyEvent(a, id, name, t) =>
      if a.Delete? then s.(policies := s.policies - {id}) else PutPolicy(s, id, name, t)
    case CheckEvent(a, id, data) =>
      s.(checks := if a.Delete? then s.checks - {id} else s.checks[id := data])
    case ChangeEvent(change) => Change(s, change)
  }

  function HandleAll(s: SenderModel, events: seq<Event>): SenderModel
    decreases |events|
  {
    if events == [] then s else HandleAll(Handle(s, events[0]), events[1..])
  }
}
