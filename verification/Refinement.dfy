/**
 Both replicas refine the relational content: on well-formed events the sender's one-sided lists and the receiver's
 denormalized model change the content in the same way. Where an event is not well-formed, the exact condition under
 which the two still agree.
 */
module Refinement {
  import opened Types
  import opened Identities
  import opened Relations
  import R = Receiver
  import S = Sender
  import SliceDiff
  import Inv = ReceiverInvariants
  import Refs = ReceiverReferences

  // ---- sender -------------------------------------------------------------------------------------------

  /** No nil identity entries, over which a snapshot would panic. */
  ghost predicate NoNil(s: S.SenderModel) {
    forall i :: i in s.identities ==> s.identities[i].Some?
  }

  /** A policy id that identities still list is not created again. */
  ghost predicate FreshPolicy(s: S.SenderModel, e: Event) {
    e.PolicyEvent? && !e.action.Delete? && e.id !in s.policies ==> Members(s.identities, e.id) == {}
  }

  lemma SenderPutIdentity(s: S.SenderModel, id: Id, data: IdentityData)
    ensures SenderContent(S.PutIdentity(s, id, data)) ==
            SenderContent(s).(identities := SenderContent(s).identities[id := data])
  {
    var n := S.PutIdentity(s, id, data);
    assert SenderIdentities(n.identities) == SenderIdentities(s.identities)[id := data];
    assert forall p :: Members(n.identities, p) == Members(s.identities, p);
    assert SenderPolicies(n.policies, n.identities) == SenderPolicies(s.policies, s.identities);
  }

  lemma SenderDeleteIdentity(s: S.SenderModel, id: Id)
    ensures SenderContent(s.(identities := s.identities - {id})) == DeleteIdentityContent(SenderContent(s), id)
  {
    var ids := s.identities - {id};
    var d := DeleteIdentityContent(SenderContent(s), id);
    assert SenderIdentities(ids) == SenderIdentities(s.identities) - {id};
    assert forall p :: Members(ids, p) == Members(s.identities, p) - {id};
    assert SenderPolicies(s.policies, ids) == d.policies;
  }

  lemma MembersRelisted(s: S.SenderModel, pid: Id, ids: set<Id>, add: bool, p: Id)
    requires NoNil(s) && ids <= s.identities.Keys
    ensures Members(S.ChangeIdentities(s, pid, ids, add).identities, p) ==
            if p == pid then Relisted(Members(s.identities, p), ids, add) else Members(s.identities, p)
  {
    var n := S.ChangeIdentities(s, pid, ids, add);
    forall i ensures i in Members(n.identities, p) <==>
                     i in if p == pid then Relisted(Members(s.identities, p), ids, add) else Members(s.identities, p)
    {
      if i in s.identities {
        assert s.identities[i].Some?;
      }
    }
  }

  lemma RelistedData(s: S.SenderModel, pid: Id, ids: set<Id>, add: bool)
    requires NoNil(s) && ids <= s.identities.Keys
    ensures SenderIdentities(S.ChangeIdentities(s, pid, ids, add).identities) == SenderIdentities(s.identities)
    ensures SenderIdentities(s.identities).Keys == s.identities.Keys
  {
    var n := S.ChangeIdentities(s, pid, ids, add);
    assert forall i :: i in ids ==> i in s.identities && s.identities[i].Some?;
    assert n.identities.Keys == s.identities.Keys;
    assert forall i :: i in s.identities ==>
                       n.identities[i].Some? && n.identities[i].value.data == s.identities[i].value.data;
  }

  lemma SenderChangeIdentities(s: S.SenderModel, change: PolicyChange)
    requires NoNil(s) && change.related.RelatedIdentity? && ToSet(change.ids) <= s.identities.Keys
    ensures SenderContent(S.Change(s, change)) == ChangeContent(SenderContent(s), change)
  {
    var ids := ToSet(change.ids);
    var n := S.ChangeIdentities(s, change.policyId, ids, change.add);
    RelistedData(s, change.policyId, ids, change.add);
    assert ids * SenderIdentities(s.identities).Keys == ids;
    forall p ensures Members(n.identities, p) ==
              if p == change.policyId then Relisted(Members(s.identities, p), ids, change.add)
              else Members(s.identities, p)
    {
      MembersRelisted(s, change.policyId, ids, change.add, p);
    }
    assert SenderPolicies(n.policies, n.identities) == ChangeContent(SenderContent(s), change).policies;
  }

  lemma SenderChangeOther(s: S.SenderModel, change: PolicyChange)
    requires !change.related.RelatedIdentity?
    ensures SenderContent(S.Change(s, change)) == ChangeContent(SenderContent(s), change)
  {
    assert SenderContent(S.Change(s, change)).policies == ChangeContent(SenderContent(s), change).policies;
  }

  lemma SenderPutPolicy(s: S.SenderModel, id: Id, name: Text, t: PolicyType)
    ensures SenderContent(S.PutPolicy(s, id, name, t)) == PutPolicyContent(SenderContent(s), id, name, t) <==>
            (id in s.policies || Members(s.identities, id) == {})
  {
    var c, d := SenderContent(S.PutPolicy(s, id, name, t)), PutPolicyContent(SenderContent(s), id, name, t);
    assert forall p :: p in c.policies && p != id ==> c.policies[p] == d.policies[p];
    assert c.policies.Keys == d.policies.Keys;
    assert c.policies[id].identities == Members(s.identities, id);
    if id in s.policies || Members(s.identities, id) == {} {
      assert c.policies == d.policies;
    }
  }

  lemma SenderDeletePolicy(s: S.SenderModel, id: Id)
    ensures SenderContent(s.(policies := s.policies - {id})) ==
            SenderContent(s).(policies := SenderContent(s).policies - {id})
  {
    assert SenderPolicies(s.policies - {id}, s.identities) == SenderPolicies(s.policies, s.identities) - {id};
  }

  lemma SenderDeleteService(s: S.SenderModel, id: Id)
    ensures SenderContent(S.DeleteService(s, id)) == DeleteServiceContent(SenderContent(s), id)
  {
    var n := S.DeleteService(s, id);
    assert SenderPolicies(n.policies, s.identities) == DeleteServiceContent(SenderContent(s), id).policies;
    assert SenderServices(n.services) == SenderServices(s.services) - {id};
  }

  lemma SenderPutService(s: S.SenderModel, id: Id, data: ServiceData)
    ensures SenderContent(s.(services := s.services[id := data])) ==
            SenderContent(s).(services := SenderContent(s).services[id := ServiceContentOf(data)])
  {
    assert SenderServices(s.services[id := data]) == SenderServices(s.services)[id := ServiceContentOf(data)];
  }

  /** The sender refines the content. */
  lemma SenderRefines(s: S.SenderModel, e: Event)
    requires NoNil(s) && WellFormed(SenderContent(s), e) && FreshPolicy(s, e)
    ensures SenderContent(S.Handle(s, e)) == Step(SenderContent(s), e)
    ensures NoNil(S.Handle(s, e))
  {
    match e
    case IdentityEvent(_, id, data) => SenderPutIdentity(s, id, data); SenderDeleteIdentity(s, id);
    case ChangeEvent(change) =>
      if change.related.RelatedIdentity? {
        SenderChangeIdentities(s, change);
        NilIff(s, change);
      } else {
        SenderChangeOther(s, change);
      }
    case PolicyEvent(_, id, name, t) => SenderPutPolicy(s, id, name, t); SenderDeletePolicy(s, id);
    case ServiceEvent(_, id, data) => SenderDeleteService(s, id); SenderPutService(s, id, data);
    case _ =>
  }

  /** A membership change leaves no nil entry exactly when every identity it names is known. */
  lemma NilIff(s: S.SenderModel, change: PolicyChange)
    requires NoNil(s)
    ensures NoNil(S.Change(s, change)) <==>
            (change.related.RelatedIdentity? ==> ToSet(change.ids) <= s.identities.Keys)
  {
    var n := S.Change(s, change);
    if change.related.RelatedIdentity? {
      var ids := ToSet(change.ids);
      assert forall i :: i in n.identities <==> i in s.identities || i in ids;
      assert forall i :: i in n.identities ==> (n.identities[i].Some? <==> i in s.identities);
      if i :| i in ids && i !in s.identities {
        assert i in n.identities && n.identities[i].None?;
        assert i !in s.identities.Keys;
      } else {
        assert forall i :: i in ids ==> i in s.identities.Keys;
      }
    }
  }

  // ---- receiver -----------------------------------------------------------------------------------------

  ghost predicate ReceiverOk(m: R.Model) {
    Inv.Exact(m) && Refs.Links(m) && Refs.IdentityRefsExact(m)
  }

  lemma SameIdentityContents(ids: map<Id, Identity>, jds: map<Id, Identity>)
    requires ids.Keys == jds.Keys && forall i :: i in ids ==> ids[i].data == jds[i].data
    ensures IdentityContents(ids) == IdentityContents(jds)
  {
    assert IdentityContents(ids).Keys == ids.Keys && IdentityContents(jds).Keys == jds.Keys;
    assert forall i :: i in ids ==> IdentityContents(ids)[i] == IdentityContents(jds)[i];
  }

  lemma SamePolicyContents(ps: Policies, qs: Policies)
    requires ps.Keys == qs.Keys && forall p :: p in ps ==> PolicyContentOf(ps[p]) == PolicyContentOf(qs[p])
    ensures PolicyContents(ps) == PolicyContents(qs)
  {
    assert PolicyContents(ps).Keys == ps.Keys && PolicyContents(qs).Keys == qs.Keys;
    assert forall p :: p in ps ==> PolicyContents(ps)[p] == PolicyContents(qs)[p];
  }

  lemma TouchedContents(m: R.Model, ids: set<Id>, index: nat)
    ensures ServiceContents(R.ServicesTouched(m, ids, index).services) == ServiceContents(m.services)
    ensures PolicyContents(R.ServicesTouched(m, ids, index).policies) == PolicyContents(m.policies)
  {
  }

  lemma ReceiverPutConfigType(m: R.Model, index: nat, id: Id, name: Text)
    ensures ReceiverContent(R.PutConfigType(m, index, id, name)) ==
            ReceiverContent(m).(configTypes := ReceiverContent(m).configTypes[id := name])
  {
    var n := m.(configTypes := m.configTypes[id := R.ConfigType(name, index)]);
    TouchedContents(
      n, set c, s | c in m.configs && m.configs[c].data.typeId == id && s in m.configs[c].services :: s, index);
    assert TypeContents(n.configTypes) == TypeContents(m.configTypes)[id := name];
  }

  lemma ReceiverDeleteConfigType(m: R.Model, id: Id)
    ensures ReceiverContent(R.DeleteConfigType(m, id)) ==
            ReceiverContent(m).(configTypes := ReceiverContent(m).configTypes - {id})
  {
    assert TypeContents(m.configTypes - {id}) == TypeContents(m.configTypes) - {id};
  }

  lemma ReceiverPutConfig(m: R.Model, index: nat, id: Id, data: ConfigData)
    ensures ReceiverContent(R.PutConfig(m, index, id, data)) ==
            ReceiverContent(m).(configs := ReceiverContent(m).configs[id := data])
  {
    if id in m.configs {
      TouchedContents(m, m.configs[id].services, index);
    }
    assert ConfigContents(R.PutConfig(m, index, id, data).configs) == ConfigContents(m.configs)[id := data];
  }

  /** What a config delete leaves: the receiver alone purges the overrides that name the config. */
  lemma ReceiverDeleteConfig(m: R.Model, index: nat, id: Id)
    requires id in m.configs
    ensures ReceiverContent(R.DeleteConfig(m, index, id)) ==
            ReceiverContent(m).(configs := ReceiverContent(m).configs - {id},
                                identities := IdentityContents(R.DeleteConfig(m, index, id).identities))
  {
    TouchedContents(m, m.configs[id].services, index);
    assert ConfigContents(m.configs - {id}) == ConfigContents(m.configs) - {id};
  }

  lemma DeleteConfigPurgesIff(m: R.Model, index: nat, id: Id)
    requires Refs.IdentityRefsExact(m) && id in m.configs
    ensures IdentityContents(R.DeleteConfig(m, index, id).identities) == IdentityContents(m.identities) <==>
            Unreferenced(ReceiverContent(m), id)
  {
    var n := R.DeleteConfig(m, index, id);
    Refs.DeleteConfigIdentityRefs(m, index, id);
    assert forall i :: i in m.identities ==> IdentityContents(n.identities)[i] == n.identities[i].data;
    if Unreferenced(ReceiverContent(m), id) {
      forall i | i in m.identities ensures n.identities[i] == m.identities[i] {
        assert id !in Referenced(IdentityContents(m.identities)[i].serviceConfigs);
      }
    } else {
      var i :| i in m.identities && id in Referenced(m.identities[i].data.serviceConfigs);
      assert IdentityContents(m.identities)[i] != IdentityContents(n.identities)[i];
    }
  }

  lemma ReceiverPutIdentity(m: R.Model, index: nat, id: Id, data: IdentityData)
    ensures ReceiverContent(R.PutIdentity(m, index, id, data)) ==
            ReceiverContent(m).(identities := ReceiverContent(m).identities[id := data])
  {
    var n := R.PutIdentity(m, index, id, data);
    assert ConfigContents(n.configs) == ConfigContents(m.configs);
    assert IdentityContents(n.identities) == IdentityContents(m.identities)[id := data];
  }

  lemma DeletedIdentityContents(m: R.Model, id: Id)
    ensures ConfigContents(R.DeleteIdentity(m, id).configs) == ConfigContents(m.configs)
    ensures IdentityContents(R.DeleteIdentity(m, id).identities) == IdentityContents(m.identities) - {id}
  {
  }

  lemma ReceiverDeleteIdentity(m: R.Model, id: Id)
    requires Inv.Symmetric(m)
    ensures ReceiverContent(R.DeleteIdentity(m, id)) == DeleteIdentityContent(ReceiverContent(m), id)
  {
    var n := R.DeleteIdentity(m, id);
    var d := DeleteIdentityContent(ReceiverContent(m), id);
    DeletedIdentityContents(m, id);
    forall p | p in m.policies ensures PolicyContents(n.policies)[p] == d.policies[p] {
      assert id in m.policies[p].identities ==> id in m.identities && p in m.identities[id].policies;
      assert n.policies[p].identities == m.policies[p].identities - {id};
    }
    assert PolicyContents(n.policies) == d.policies;
  }

  lemma ServiceReferencesContents(cs: map<Id, R.Config>, id: Id, remove: multiset<Id>, add: multiset<Id>)
    ensures ConfigContents(R.ServiceReferences(cs, id, remove, add)) == ConfigContents(cs)
  {
  }

  lemma PoliciesTouchedContents(ps: Policies, touched: set<Id>, index: nat)
    ensures PolicyContents(R.PoliciesTouched(ps, touched, index)) == PolicyContents(ps)
  {
    SamePolicyContents(R.PoliciesTouched(ps, touched, index), ps);
  }

  lemma ReceiverPutService(m: R.Model, index: nat, id: Id, data: ServiceData)
    ensures ReceiverContent(R.PutService(m, index, id, data)) ==
            ReceiverContent(m).(services := ReceiverContent(m).services[id := ServiceContentOf(data)])
  {
    if id in m.services { ReceiverUpdateService(m, index, id, data); } else { ReceiverNewService(m, index, id, data); }
  }

  lemma PutServiceContents(ss: map<Id, R.Service>, id: Id, s: R.Service)
    ensures ServiceContents(ss[id := s]) == ServiceContents(ss)[id := ServiceContentOf(s.data)]
  {
  }

  lemma ReceiverNewService(m: R.Model, index: nat, id: Id, data: ServiceData)
    requires id !in m.services
    ensures ReceiverContent(R.PutService(m, index, id, data)) ==
            ReceiverContent(m).(services := ReceiverContent(m).services[id := ServiceContentOf(data)])
  {
    PutServiceContents(m.services, id, R.Service(data, {}, index));
    ServiceReferencesContents(m.configs, id, multiset{}, multiset(data.configs));
  }

  lemma ReceiverUpdateService(m: R.Model, index: nat, id: Id, data: ServiceData)
    requires id in m.services
    ensures ReceiverContent(R.PutService(m, index, id, data)) ==
            ReceiverContent(m).(services := ReceiverContent(m).services[id := ServiceContentOf(data)])
  {
    SliceDiff.SortPermutes(data.configs);
    var before, after := multiset(m.services[id].data.configs), multiset(data.configs);
    PutServiceContents(m.services, id, R.PutService(m, index, id, data).services[id]);
    ServiceReferencesContents(m.configs, id, before - after, after - before);
    PoliciesTouchedContents(m.policies, m.services[id].policies, index);
  }

  lemma DeleteServicePolicies(m: R.Model, index: nat, id: Id)
    requires Refs.Links(m)
    ensures PolicyContents(R.DeleteService(m, index, id).policies) ==
            DeleteServiceContent(ReceiverContent(m), id).policies
  {
    var n := R.DeleteService(m, index, id);
    var d := DeleteServiceContent(ReceiverContent(m), id);
    forall p | p in m.policies ensures PolicyContentOf(n.policies[p]) == d.policies[p] {
      assert id in m.policies[p].services ==> id in m.services && p in m.services[id].policies;
      assert n.policies[p].services == m.policies[p].services - {id};
    }
  }

  lemma DeleteServiceIdentities(m: R.Model, index: nat, id: Id)
    ensures IdentityContents(R.DeleteService(m, index, id).identities) == IdentityContents(m.identities)
  {
    SameIdentityContents(R.DeleteService(m, index, id).identities, m.identities);
  }

  lemma ReceiverDeleteService(m: R.Model, index: nat, id: Id)
    requires Refs.Links(m)
    ensures ReceiverContent(R.DeleteService(m, index, id)) == DeleteServiceContent(ReceiverContent(m), id)
  {
    var n := R.DeleteService(m, index, id);
    DeleteServicePolicies(m, index, id);
    DeleteServiceIdentities(m, index, id);
    if id in m.services {
      ServiceReferencesContents(m.configs, id, multiset(m.services[id].data.configs), multiset{});
    }
    assert ServiceContents(n.services) == ServiceContents(m.services) - {id};
  }

  lemma ReceiverPutCheck(m: R.Model, index: nat, id: Id, data: Text)
    ensures ReceiverContent(R.PutCheck(m, index, id, data)) ==
            ReceiverContent(m).(checks := ReceiverContent(m).checks[id := data])
  {
    var n := R.PutCheck(m, index, id, data);
    SamePolicyContents(n.policies, m.policies);
    assert CheckContents(n.checks) == CheckContents(m.checks)[id := data];
  }

  ghost function WithoutCheck(ps: map<Id, PolicyContent>, id: Id): map<Id, PolicyContent> {
    map p | p in ps :: ps[p].(checks := ps[p].checks - {id})
  }

  /** The receiver, unlike the sender, takes a deleted check out of the policies. */
  lemma ReceiverDeleteCheck(m: R.Model, index: nat, id: Id)
    requires Refs.Links(m)
    ensures ReceiverContent(R.DeleteCheck(m, index, id)) ==
            ReceiverContent(m).(checks := ReceiverContent(m).checks - {id},
                                policies := WithoutCheck(ReceiverContent(m).policies, id))
  {
    var n := R.DeleteCheck(m, index, id);
    DeleteCheckPolicies(m, index, id);
    DeleteCheckIdentities(m, index, id);
    assert CheckContents(n.checks) == CheckContents(m.checks) - {id};
  }

  lemma DeleteCheckIdentities(m: R.Model, index: nat, id: Id)
    ensures IdentityContents(R.DeleteCheck(m, index, id).identities) == IdentityContents(m.identities)
  {
    SameIdentityContents(R.DeleteCheck(m, index, id).identities, m.identities);
  }

  lemma DeleteCheckPolicies(m: R.Model, index: nat, id: Id)
    requires Refs.Links(m)
    ensures PolicyContents(R.DeleteCheck(m, index, id).policies) == WithoutCheck(PolicyContents(m.policies), id)
  {
    var n := R.DeleteCheck(m, index, id);
    forall p | p in m.policies
      ensures PolicyContents(n.policies)[p] == WithoutCheck(PolicyContents(m.policies), id)[p]
    {
      assert id in m.policies[p].checks ==> id in m.checks && p in m.checks[id].policies;
      assert n.policies[p].checks == m.policies[p].checks - {id};
    }
  }

  lemma WithoutCheckIff(c: Content, id: Id)
    ensures WithoutCheck(c.policies, id) == c.policies <==> Unlisted(c, id)
  {
    if Unlisted(c, id) {
      forall p | p in c.policies ensures WithoutCheck(c.policies, id)[p] == c.policies[p] {
        assert c.policies[p].checks - {id} == c.policies[p].checks;
      }
    } else {
      var p :| p in c.policies && id in c.policies[p].checks;
      assert WithoutCheck(c.policies, id)[p] != c.policies[p];
    }
  }

  lemma PutPolicyContents(ps: Policies, id: Id, q: Policy)
    ensures PolicyContents(ps[id := q]) == PolicyContents(ps)[id := PolicyContentOf(q)]
  {
  }

  lemma FlippedData(ids: map<Id, Identity>, id: Id, prev: Policy, next: Policy, index: nat)
    ensures IdentityContents(R.MembersFlipped(ids, prev.identities, id, prev, next, index)) == IdentityContents(ids)
  {
    SameIdentityContents(R.MembersFlipped(ids, prev.identities, id, prev, next, index), ids);
  }

  lemma ReceiverNewPolicy(m: R.Model, index: nat, id: Id, name: Text, t: PolicyType)
    requires id !in m.policies
    ensures ReceiverContent(R.PutPolicy(m, index, id, name, t)) == PutPolicyContent(ReceiverContent(m), id, name, t)
  {
    PutPolicyContents(m.policies, id, Policy(name, t, {}, {}, {}, index, 0));
  }

  lemma ReceiverUpdatePolicy(m: R.Model, index: nat, id: Id, name: Text, t: PolicyType)
    requires id in m.policies
    ensures ReceiverContent(R.PutPolicy(m, index, id, name, t)) == PutPolicyContent(ReceiverContent(m), id, name, t)
  {
    var p := m.policies[id];
    var q := Policy(name, t, p.services, p.checks, p.identities, index, 0);
    PutPolicyContents(m.policies, id, q);
    FlippedData(m.identities, id, p, q, index);
  }

  lemma ReceiverPutPolicy(m: R.Model, index: nat, id: Id, name: Text, t: PolicyType)
    ensures ReceiverContent(R.PutPolicy(m, index, id, name, t)) == PutPolicyContent(ReceiverContent(m), id, name, t)
  {
    if id in m.policies { ReceiverUpdatePolicy(m, index, id, name, t); }
    else { ReceiverNewPolicy(m, index, id, name, t); }
  }

  lemma ReceiverDeletePolicy(m: R.Model, index: nat, id: Id)
    ensures ReceiverContent(R.DeletePolicy(m, index, id)) ==
            ReceiverContent(m).(policies := ReceiverContent(m).policies - {id})
  {
    var n := R.DeletePolicy(m, index, id);
    SameIdentityContents(n.identities, m.identities);
    assert PolicyContents(n.policies) == PolicyContents(m.policies) - {id};
  }

  lemma ReceiverChange(m: R.Model, index: nat, change: PolicyChange)
    requires change.policyId in m.policies
    ensures ReceiverContent(R.Change(m, index, change)) == ChangeContent(ReceiverContent(m), change)
  {
    var n := R.Change(m, index, change);
    match change.related
    case RelatedIdentity => ReceiverChangeIdentities(m, index, change);
    case RelatedService => ReceiverChangeServices(m, index, change);
    case RelatedPostureCheck => ReceiverChangeChecks(m, index, change);
  }

  lemma ReceiverChangeIdentities(m: R.Model, index: nat, change: PolicyChange)
    requires change.policyId in m.policies && change.related.RelatedIdentity?
    ensures ReceiverContent(R.Change(m, index, change)) == ChangeContent(ReceiverContent(m), change)
  {
    var n := R.ChangeIdentities(m, index, change.policyId, ToSet(change.ids), change.add);
    assert m.identities.Keys == IdentityContents(m.identities).Keys;
    SameIdentityContents(n.identities, m.identities);
    assert PolicyContents(n.policies) == ChangeContent(ReceiverContent(m), change).policies;
  }

  lemma ReceiverChangeServices(m: R.Model, index: nat, change: PolicyChange)
    requires change.policyId in m.policies && change.related.RelatedService?
    ensures ReceiverContent(R.Change(m, index, change)) == ChangeContent(ReceiverContent(m), change)
  {
    var n := R.ChangeServices(m, index, change.policyId, change.ids, change.add);
    SameIdentityContents(n.identities, m.identities);
    assert ServiceContents(n.services) == ServiceContents(m.services);
    assert PolicyContents(n.policies) == ChangeContent(ReceiverContent(m), change).policies;
  }

  lemma ReceiverChangeChecks(m: R.Model, index: nat, change: PolicyChange)
    requires change.policyId in m.policies && change.related.RelatedPostureCheck?
    ensures ReceiverContent(R.Change(m, index, change)) == ChangeContent(ReceiverContent(m), change)
  {
    var n := R.ChangeChecks(m, index, change.policyId, change.ids, change.add);
    SameIdentityContents(n.identities, m.identities);
    assert CheckContents(n.checks) == CheckContents(m.checks);
    assert PolicyContents(n.policies) == ChangeContent(ReceiverContent(m), change).policies;
  }

  /** Every well-formed event is safe for the receiver's counters and references. */
  lemma WellFormedIsSafe(m: R.Model, e: Event)
    requires WellFormed(ReceiverContent(m), e) && Closed(ReceiverContent(m))
    ensures Inv.SafeEvent(m, e) && !Refs.NamesUnknown(m, e) && !Refs.NamedBeforeCreated(m, e)
  {
    match e
    case ChangeEvent(change) =>
      if change.policyId in m.policies {
        assert PolicyContents(m.policies)[change.policyId] == PolicyContentOf(m.policies[change.policyId]);
        WellFormedDeltaIsSafe(m, change);
        WellFormedNamesKnown(m, change);
      }
    case ConfigEvent(a, id, _) =>
      forall i | i in m.identities ensures Referenced(m.identities[i].data.serviceConfigs) <= m.configs.Keys {
        assert IdentityContents(m.identities)[i] == m.identities[i].data;
        assert ConfigContents(m.configs).Keys == m.configs.Keys;
      }
    case _ =>
  }

  lemma WellFormedDeltaIsSafe(m: R.Model, change: PolicyChange)
    requires change.policyId in m.policies && WellFormed(ReceiverContent(m), ChangeEvent(change))
    ensures Inv.SafeEvent(m, ChangeEvent(change))
  {
    assert PolicyContents(m.policies)[change.policyId] == PolicyContentOf(m.policies[change.policyId]);
    match change.related
    case RelatedIdentity =>
    case RelatedService => Inv.GenuineIsSafe(m, change.policyId, change.ids, change.add);
    case RelatedPostureCheck => Inv.GenuineCheckIsSafe(m, change.policyId, change.ids, change.add);
  }

  lemma WellFormedNamesKnown(m: R.Model, change: PolicyChange)
    requires change.policyId in m.policies && WellFormed(ReceiverContent(m), ChangeEvent(change))
    ensures !Refs.NamesUnknown(m, ChangeEvent(change))
  {
    assert ServiceContents(m.services).Keys == m.services.Keys;
    assert CheckContents(m.checks).Keys == m.checks.Keys;
    forall x | x in change.ids && change.add
      ensures change.related.RelatedService? ==> x in m.services
      ensures change.related.RelatedPostureCheck? ==> x in m.checks
    {
      assert x in ToSet(change.ids);
    }
  }

  lemma ReceiverContentStep(m: R.Model, index: nat, e: Event)
    requires ReceiverOk(m) && WellFormed(ReceiverContent(m), e)
    ensures ReceiverContent(R.Handle(m, index, e)) == Step(ReceiverContent(m), e)
  {
    match e
    case ConfigTypeEvent(_, id, name) =>
      ReceiverPutConfigType(m, index, id, name);
      ReceiverDeleteConfigType(m, id);
    case ConfigEvent(a, id, data) =>
      if !a.Delete? {
        ReceiverPutConfig(m, index, id, data);
      } else if id in m.configs {
        ReceiverDeleteConfig(m, index, id);
        DeleteConfigPurgesIff(m, index, id);
      } else {
        assert ConfigContents(m.configs) - {id} == ConfigContents(m.configs);
      }
    case IdentityEvent(_, id, data) =>
      ReceiverPutIdentity(m, index, id, data);
      ReceiverDeleteIdentity(m, id);
    case ServiceEvent(_, id, data) =>
      ReceiverPutService(m, index, id, data);
      ReceiverDeleteService(m, index, id);
    case PolicyEvent(_, id, name, t) =>
      ReceiverPutPolicy(m, index, id, name, t);
      ReceiverDeletePolicy(m, index, id);
    case CheckEvent(_, id, data) =>
      ReceiverPutCheck(m, index, id, data);
      ReceiverDeleteCheck(m, index, id);
      WithoutCheckIff(ReceiverContent(m), id);
    case ChangeEvent(change) =>
      if change.policyId in m.policies {
        ReceiverChange(m, index, change);
      }
  }

  lemma ReceiverInvariantsStep(m: R.Model, index: nat, e: Event)
    requires ReceiverOk(m) && WellFormed(ReceiverContent(m), e) && Closed(ReceiverContent(m))
    ensures ReceiverOk(R.Handle(m, index, e))
  {
    WellFormedIsSafe(m, e);
    Inv.HandleKeepsExact(m, index, e);
    Refs.LinksIff(m, index, e);
    Refs.IdentityRefsExactIff(m, index, e);
  }

  /** The receiver refines the content, and keeps its counters, references and memberships exact while doing so. */
  lemma ReceiverRefines(m: R.Model, index: nat, e: Event)
    requires ReceiverOk(m) && WellFormed(ReceiverContent(m), e) && Closed(ReceiverContent(m))
    ensures ReceiverContent(R.Handle(m, index, e)) == Step(ReceiverContent(m), e)
    ensures ReceiverOk(R.Handle(m, index, e))
  {
    ReceiverContentStep(m, index, e);
    ReceiverInvariantsStep(m, index, e);
  }

  // ---- where the replicas part ways ---------------------------------------------------------------------

  ghost predicate Agree(s: S.SenderModel, m: R.Model) {
    SenderContent(s) == ReceiverContent(m)
  }

  /** Deleting a posture check keeps the replicas in agreement exactly when no policy lists it any more. */
  lemma CheckDeleteAgreesIff(s: S.SenderModel, m: R.Model, index: nat, id: Id, data: Text)
    requires Agree(s, m) && Refs.Links(m)
    ensures
      var e := CheckEvent(Delete, id, data);
      Agree(S.Handle(s, e), R.Handle(m, index, e)) <==> Unlisted(SenderContent(s), id)
  {
    ReceiverDeleteCheck(m, index, id);
    WithoutCheckIff(SenderContent(s), id);
  }

  /** Deleting a config keeps them in agreement exactly when no identity's overrides reference it any more. */
  lemma ConfigDeleteAgreesIff(s: S.SenderModel, m: R.Model, index: nat, id: Id, data: ConfigData)
    requires Agree(s, m) && Refs.IdentityRefsExact(m) && id in m.configs
    ensures
      var e := ConfigEvent(Delete, id, data);
      Agree(S.Handle(s, e), R.Handle(m, index, e)) <==> Unreferenced(SenderContent(s), id)
  {
    ReceiverDeleteConfig(m, index, id);
    DeleteConfigPurgesIff(m, index, id);
  }

  /** Creating a policy keeps them in agreement exactly when no identity of the sender already lists its id. */
  lemma PolicyCreateAgreesIff(s: S.SenderModel, m: R.Model, index: nat, id: Id, name: Text, t: PolicyType)
    requires Agree(s, m)
    ensures
      var e := PolicyEvent(Create, id, name, t);
      Agree(S.Handle(s, e), R.Handle(m, index, e)) <==> FreshPolicy(s, e)
  {
    ReceiverPutPolicy(m, index, id, name, t);
    SenderPutPolicy(s, id, name, t);
    assert s.policies.Keys == SenderContent(s).policies.Keys;
  }
}
