/**
 The plain relational content behind both replicas, how an event changes it, and what a well-formed event is.
 */
module Relations {
  import opened Types
  import opened Identities
  import opened IdentityExactness
  import R = Receiver
  import S = Sender

  ghost function ServiceContentOf(data: ServiceData): ServiceContent {
    ServiceContent(data.name, data.encryptionRequired, multiset(data.configs))
  }

  ghost function TypeContents(ts: map<Id, R.ConfigType>): map<Id, Text> {
    map t | t in ts :: ts[t].name
  }

  ghost function ConfigContents(cs: map<Id, R.Config>): map<Id, ConfigData> {
    map c | c in cs :: cs[c].data
  }

  ghost function IdentityContents(ids: map<Id, Identity>): map<Id, IdentityData> {
    map i | i in ids :: ids[i].data
  }

  ghost function ServiceContents(ss: map<Id, R.Service>): map<Id, ServiceContent> {
    map s | s in ss :: ServiceContentOf(ss[s].data)
  }

  ghost function CheckContents(cs: map<Id, R.Check>): map<Id, Text> {
    map c | c in cs :: cs[c].data
  }

  ghost function PolicyContentOf(p: Policy): PolicyContent {
    PolicyContent(p.name, p.policyType, p.services, p.checks, p.identities)
  }

  ghost function PolicyContents(ps: Policies): map<Id, PolicyContent> {
    map p | p in ps :: PolicyContentOf(ps[p])
  }

  ghost function ReceiverContent(m: R.Model): Content {
    Content(TypeContents(m.configTypes), ConfigContents(m.configs), IdentityContents(m.identities),
            ServiceContents(m.services), CheckContents(m.checks), PolicyContents(m.policies))
  }

  /** The identities that list a policy. */
  ghost function Members(ids: map<Id, Option<S.SenderIdentity>>, p: Id): set<Id> {
    set i | i in ids && ids[i].Some? && p in ids[i].value.policies
  }

  ghost function SenderIdentities(ids: map<Id, Option<S.SenderIdentity>>): map<Id, IdentityData> {
    map i | i in ids && ids[i].Some? :: ids[i].value.data
  }

  ghost function SenderServices(ss: map<Id, ServiceData>): map<Id, ServiceContent> {
    map v | v in ss :: ServiceContentOf(ss[v])
  }

  ghost function SenderPolicies(ps: map<Id, S.SenderPolicy>, ids: map<Id, Option<S.SenderIdentity>>)
    : map<Id, PolicyContent>
  {
    map p | p in ps :: PolicyContent(ps[p].name, ps[p].policyType, ps[p].services, ps[p].checks, Members(ids, p))
  }

  ghost function SenderContent(s: S.SenderModel): Content {
    Content(s.configTypes, s.configs, SenderIdentities(s.identities), SenderServices(s.services), s.checks,
            SenderPolicies(s.policies, s.identities))
  }

  // ---- events on the content ---------------------------------------------------------------------------

  ghost function ChangeContent(c: Content, change: PolicyChange): Content {
    if change.policyId !in c.policies then c else
    var p, ids := c.policies[change.policyId], ToSet(change.ids);
    c.(policies := c.policies[change.policyId :=
         match change.related
         case RelatedIdentity => p.(identities := Relisted(p.identities, ids * c.identities.Keys, change.add))
         case RelatedService => p.(services := Relisted(p.services, ids, change.add))
         case RelatedPostureCheck => p.(checks := Relisted(p.checks, ids, change.add))])
  }

  ghost function DeleteIdentityContent(c: Content, id: Id): Content {
    c.(identities := c.identities - {id},
       policies := map p | p in c.policies :: c.policies[p].(identities := c.policies[p].identities - {id}))
  }

  ghost function DeleteServiceContent(c: Content, id: Id): Content {
    c.(services := c.services - {id},
       policies := map p | p in c.policies :: c.policies[p].(services := c.policies[p].services - {id}))
  }

  ghost function PutPolicyContent(c: Content, id: Id, name: Text, t: PolicyType): Content {
    c.(policies := c.policies[id := if id in c.policies
                                    then c.policies[id].(name := name, policyType := t)
                                    else PolicyContent(name, t, {}, {}, {})])
  }

  ghost function Step(c: Content, e: Event): Content {
    match e
    case ConfigTypeEvent(a, id, name) =>
      c.(configTypes := if a.Delete? then c.configTypes - {id} else c.configTypes[id := name])
    case ConfigEvent(a, id, data) =>
      c.(configs := if a.Delete? then c.configs - {id} else c.configs[id := data])
    case IdentityEvent(a, id, data) =>
      if a.Delete? then DeleteIdentityContent(c, id) else c.(identities := c.identities[id := data])
    case ServiceEvent(a, id, data) =>
      if a.Delete? then DeleteServiceContent(c, id) else c.(services := c.services[id := ServiceContentOf(data)])
    case PolicyEvent(a, id, name, t) =>
      if a.Delete? then c.(policies := c.policies - {id}) else PutPolicyContent(c, id, name, t)
    case CheckEvent(a, id, data) =>
      c.(checks := if a.Delete? then c.checks - {id} else c.checks[id := data])
    case ChangeEvent(change) => ChangeContent(c, change)
  }

  // ---- well-formed events ------------------------------------------------------------------------------

  /** Nothing refers to something that is not there. */
  ghost predicate Closed(c: Content) {
    && (forall i :: i in c.identities ==> Referenced(c.identities[i].serviceConfigs) <= c.configs.Keys)
    && (forall p :: p in c.policies ==>
          && c.policies[p].services <= c.services.Keys
          && c.policies[p].checks <= c.checks.Keys
          && c.policies[p].identities <= c.identities.Keys)
  }

  ghost predicate Unreferenced(c: Content, config: Id) {
    forall i :: i in c.identities ==> config !in Referenced(c.identities[i].serviceConfigs)
  }

  ghost predicate Unlisted(c: Content, check: Id) {
    forall p :: p in c.policies ==> check !in c.policies[p].checks
  }

  /**
   Relation changes come before deletes, name entities that exist and are genuine deltas; overrides name configs that
   exist.
   */
  ghost predicate WellFormed(c: Content, e: Event) {
    match e
    case ConfigEvent(a, id, _) => a.Delete? ==> Unreferenced(c, id)
    case IdentityEvent(a, _, data) => !a.Delete? ==> Referenced(data.serviceConfigs) <= c.configs.Keys
    case CheckEvent(a, id, _) => a.Delete? ==> Unlisted(c, id)
    case ChangeEvent(change) =>
      var ids := ToSet(change.ids);
      && (change.related.RelatedIdentity? ==> ids <= c.identities.Keys)
      && (change.policyId in c.policies ==>
            var p := c.policies[change.policyId];
            match change.related
            case RelatedIdentity => true
            case RelatedService => Genuine(p.services, change.ids, change.add) &&
                                   (change.add ==> ids <= c.services.Keys)
            case RelatedPostureCheck => Genuine(p.checks, change.ids, change.add) &&
                                        (change.add ==> ids <= c.checks.Keys))
    case _ => true
  }

  lemma ChangeKeepsClosed(c: Content, change: PolicyChange)
    requires Closed(c) && WellFormed(c, ChangeEvent(change))
    ensures Closed(ChangeContent(c, change))
  {
  }

  lemma DeletesKeepClosed(c: Content, id: Id)
    requires Closed(c)
    ensures Closed(DeleteIdentityContent(c, id)) && Closed(DeleteServiceContent(c, id))
  {
  }

  lemma StepKeepsClosed(c: Content, e: Event)
    requires Closed(c) && WellFormed(c, e)
    ensures Closed(Step(c, e))
  {
    match e
    case ChangeEvent(change) => ChangeKeepsClosed(c, change);
    case IdentityEvent(_, id, _) => DeletesKeepClosed(c, id);
    case ServiceEvent(_, id, _) => DeletesKeepClosed(c, id);
    case _ =>
  }
}
