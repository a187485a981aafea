/**
 What every event keeps: symmetric membership, exact dial and bind counters, exact posture check use counts, and
 no nil lookup.
 */
module ReceiverInvariants {
  import opened Types
  import opened Identities
  import opened IdentityExactness
  import opened Receiver

  /** An identity lists a policy iff the policy lists the identity, and neither lists anything that is gone. */
  ghost predicate Symmetric(m: Model) {
    && (forall i, p :: i in m.identities && p in m.identities[i].policies ==>
          p in m.policies && i in m.policies[p].identities)
    && (forall i, p :: p in m.policies && i in m.policies[p].identities ==>
          i in m.identities && p in m.identities[i].policies)
  }

  ghost predicate CountersExact(m: Model) {
    forall i :: i in m.identities ==> AccessExact(m.policies, m.identities[i])
  }

  ghost predicate UsesExact(m: Model) {
    forall i :: i in m.identities ==> ChecksExact(m.policies, m.identities[i])
  }

  // ---- handlers that leave the relations alone ---------------------------------------------------------

  ghost predicate SameCounts(i: Identity, j: Identity) {
    i.policies == j.policies && i.access == j.access && i.checks == j.checks && i.tracked == j.tracked
  }

  ghost predicate SameRelations(m: Model, n: Model) {
    && m.identities.Keys == n.identities.Keys
    && m.policies.Keys == n.policies.Keys
    && (forall i :: i in m.identities ==> SameCounts(m.identities[i], n.identities[i]))
    && (forall p :: p in m.policies ==>
          SameGrants(m.policies[p], n.policies[p]) && m.policies[p].identities == n.policies[p].identities)
  }

  lemma SameRelationsKeep(m: Model, n: Model)
    requires SameRelations(m, n)
    ensures Symmetric(m) ==> Symmetric(n)
    ensures CountersExact(m) ==> CountersExact(n)
    ensures UsesExact(m) ==> UsesExact(n)
  {
    forall i | i in n.identities
      ensures AccessExact(m.policies, m.identities[i]) <==> AccessExact(n.policies, n.identities[i])
      ensures ChecksExact(m.policies, m.identities[i]) <==> ChecksExact(n.policies, n.identities[i])
    {
      assert AgreeOn(m.policies, n.policies, m.identities[i].policies);
      CountsOnly(m.policies, n.policies, m.identities[i], n.identities[i]);
    }
    SameMembershipSymmetric(m, n);
  }

  ghost predicate SameMembership(m: Model, n: Model) {
    && m.identities.Keys == n.identities.Keys
    && m.policies.Keys == n.policies.Keys
    && (forall i :: i in m.identities ==> m.identities[i].policies == n.identities[i].policies)
    && (forall p :: p in m.policies ==> m.policies[p].identities == n.policies[p].identities)
  }

  lemma SameMembershipSymmetric(m: Model, n: Model)
    requires SameMembership(m, n)
    ensures Symmetric(m) ==> Symmetric(n)
  {
  }

  lemma CountsOnly(ps: Policies, qs: Policies, i: Identity, j: Identity)
    requires AgreeOn(ps, qs, i.policies) && SameCounts(i, j)
    ensures AccessExact(ps, i) <==> AccessExact(qs, j)
    ensures ChecksExact(ps, i) <==> ChecksExact(qs, j)
  {
    ExactFrame(ps, qs, i);
    assert forall s :: AccessExactAt(qs, i, s) <==> AccessExactAt(qs, j, s);
    assert forall c :: ChecksExactAt(qs, i, c) <==> ChecksExactAt(qs, j, c);
  }

  /** Events that touch neither policies' grants nor identities' counters. */
  ghost predicate Neutral(m: Model, e: Event) {
    match e
    case ConfigTypeEvent(_, _, _) => true
    case ConfigEvent(_, _, _) => true
    case IdentityEvent(a, id, _) => !a.Delete? && id in m.identities
    case ServiceEvent(a, _, _) => !a.Delete?
    case CheckEvent(a, _, _) => !a.Delete?
    case PolicyEvent(a, id, _, t) => !a.Delete? && id in m.policies && m.policies[id].policyType == t
    case ChangeEvent(_) => false
  }

  lemma ServicesTouchedSame(m: Model, ids: set<Id>, index: nat)
    ensures SameRelations(m, ServicesTouched(m, ids, index))
  {
  }

  lemma PutConfigTypeSame(m: Model, index: nat, id: Id, name: Text)
    ensures SameRelations(m, PutConfigType(m, index, id, name))
    ensures PutConfigType(m, index, id, name).panicked == m.panicked
  {
    var n := m.(configTypes := m.configTypes[id := ConfigType(name, index)]);
    ServicesTouchedSame(n, ServicesOfType(m.configs, id), index);
  }

  lemma PutConfigSame(m: Model, index: nat, id: Id, data: ConfigData)
    ensures SameRelations(m, PutConfig(m, index, id, data))
    ensures PutConfig(m, index, id, data).panicked == m.panicked
  {
    if id in m.configs {
      ServicesTouchedSame(m, m.configs[id].services, index);
    }
  }

  lemma DeleteConfigSame(m: Model, index: nat, id: Id)
    ensures SameRelations(m, DeleteConfig(m, index, id))
    ensures DeleteConfig(m, index, id).panicked == m.panicked
  {
    if id in m.configs {
      ServicesTouchedSame(m, m.configs[id].services, index);
    }
  }

  lemma PutIdentitySame(m: Model, index: nat, id: Id, data: IdentityData)
    requires id in m.identities
    ensures SameRelations(m, PutIdentity(m, index, id, data))
    ensures PutIdentity(m, index, id, data).panicked == m.panicked
  {
  }

  lemma PutServiceSame(m: Model, index: nat, id: Id, data: ServiceData)
    ensures SameRelations(m, PutService(m, index, id, data))
    ensures PutService(m, index, id, data).panicked == m.panicked
  {
  }

  lemma PutCheckSame(m: Model, index: nat, id: Id, data: Text)
    ensures SameRelations(m, PutCheck(m, index, id, data))
    ensures PutCheck(m, index, id, data).panicked == m.panicked
  {
  }

  lemma PutPolicySame(m: Model, index: nat, id: Id, name: Text, t: PolicyType)
    requires id in m.policies && m.policies[id].policyType == t
    ensures SameRelations(m, PutPolicy(m, index, id, name, t))
    ensures PutPolicy(m, index, id, name, t).panicked == m.panicked
  {
  }

  lemma NeutralSame(m: Model, index: nat, e: Event)
    requires Neutral(m, e)
    ensures SameRelations(m, Handle(m, index, e))
    ensures Handle(m, index, e).panicked == m.panicked
  {
    match e
    case ConfigTypeEvent(_, id, name) => PutConfigTypeSame(m, index, id, name);
    case ConfigEvent(_, id, data) =>
      PutConfigSame(m, index, id, data);
      DeleteConfigSame(m, index, id);
    case IdentityEvent(_, id, data) => PutIdentitySame(m, index, id, data);
    case ServiceEvent(_, id, data) => PutServiceSame(m, index, id, data);
    case CheckEvent(_, id, data) => PutCheckSame(m, index, id, data);
    case PolicyEvent(_, id, name, t) => PutPolicySame(m, index, id, name, t);
  }

  // ---- one policy changes ------------------------------------------------------------------------------

  /** Identities that are not members of a policy do not notice what happens to it. */
  lemma NonMemberKeeps(m: Model, pid: Id, qs: Policies, i: Id)
    requires Symmetric(m) && i in m.identities && pid !in m.identities[i].policies
    requires forall q :: q in m.policies && q != pid ==> q in qs && SameGrants(m.policies[q], qs[q])
    ensures AccessExact(m.policies, m.identities[i]) ==> AccessExact(qs, m.identities[i])
    ensures ChecksExact(m.policies, m.identities[i]) ==> ChecksExact(qs, m.identities[i])
  {
    ExactFrame(m.policies, qs, m.identities[i]);
  }

  lemma ChangeIdentitiesKeeps(m: Model, index: nat, pid: Id, ids: set<Id>, add: bool)
    requires Symmetric(m) && pid in m.policies
    ensures Symmetric(ChangeIdentities(m, index, pid, ids, add))
    ensures CountersExact(m) ==> CountersExact(ChangeIdentities(m, index, pid, ids, add))
    ensures UsesExact(m) ==> UsesExact(ChangeIdentities(m, index, pid, ids, add))
  {
    var n := ChangeIdentities(m, index, pid, ids, add);
    forall i | i in n.identities
      ensures AccessExact(m.policies, m.identities[i]) ==> AccessExact(n.policies, n.identities[i])
      ensures ChecksExact(m.policies, m.identities[i]) ==> ChecksExact(n.policies, n.identities[i])
    {
      ExactFrame(m.policies, n.policies, n.identities[i]);
      if i in ids && add && pid !in m.identities[i].policies {
        JoinedExact(m.policies, m.identities[i], pid, index);
      }
      if i in ids && !add && pid in m.identities[i].policies {
        LeftExact(m.policies, m.identities[i], pid, index);
      }
    }
  }

  /** A type flip leaves and rejoins, which moves each grant from one counter to the other. */
  lemma FlipKeeps(m: Model, index: nat, id: Id, name: Text, t: PolicyType)
    requires Symmetric(m) && id in m.policies && m.policies[id].policyType != t
    ensures Symmetric(PutPolicy(m, index, id, name, t))
    ensures CountersExact(m) ==> CountersExact(PutPolicy(m, index, id, name, t))
    ensures UsesExact(m) ==> UsesExact(PutPolicy(m, index, id, name, t))
  {
    var n := PutPolicy(m, index, id, name, t);
    forall i | i in n.identities
      ensures AccessExact(m.policies, m.identities[i]) ==> AccessExact(n.policies, n.identities[i])
      ensures ChecksExact(m.policies, m.identities[i]) ==> ChecksExact(n.policies, n.identities[i])
    {
      var x := m.identities[i];
      if i in m.policies[id].identities {
        LeftExact(m.policies, x, id, index);
        var away := Left(x, id, m.policies[id], index);
        ExactFrame(m.policies, n.policies, away);
        JoinedExact(n.policies, away, id, index);
      } else {
        NonMemberKeeps(m, id, n.policies, i);
      }
    }
  }

  lemma NewPolicyKeeps(m: Model, index: nat, id: Id, name: Text, t: PolicyType)
    requires Symmetric(m) && id !in m.policies
    ensures Symmetric(PutPolicy(m, index, id, name, t))
    ensures CountersExact(m) ==> CountersExact(PutPolicy(m, index, id, name, t))
    ensures UsesExact(m) ==> UsesExact(PutPolicy(m, index, id, name, t))
  {
    var n := PutPolicy(m, index, id, name, t);
    forall i | i in n.identities
      ensures AccessExact(m.policies, m.identities[i]) ==> AccessExact(n.policies, n.identities[i])
      ensures ChecksExact(m.policies, m.identities[i]) ==> ChecksExact(n.policies, n.identities[i])
    {
      NonMemberKeeps(m, id, n.policies, i);
    }
  }

  lemma DeletePolicyKeeps(m: Model, index: nat, id: Id)
    requires Symmetric(m)
    ensures Symmetric(DeletePolicy(m, index, id))
    ensures CountersExact(m) ==> CountersExact(DeletePolicy(m, index, id))
    ensures UsesExact(m) ==> UsesExact(DeletePolicy(m, index, id))
  {
    var n := DeletePolicy(m, index, id);
    if id in m.policies {
      forall i | i in n.identities
        ensures AccessExact(m.policies, m.identities[i]) ==> AccessExact(n.policies, n.identities[i])
        ensures ChecksExact(m.policies, m.identities[i]) ==> ChecksExact(n.policies, n.identities[i])
      {
        if i in m.policies[id].identities {
          LeftExact(m.policies, m.identities[i], id, index);
        }
        assert id !in n.identities[i].policies;
        assert AgreeOn(m.policies, n.policies, n.identities[i].policies);
        ExactFrame(m.policies, n.policies, n.identities[i]);
      }
    }
    DeletePolicySymmetric(m, index, id);
  }

  /** After a policy delete no identity lists it. */
  lemma DeletePolicySymmetric(m: Model, index: nat, id: Id)
    requires Symmetric(m)
    ensures Symmetric(DeletePolicy(m, index, id))
    ensures forall i :: i in DeletePolicy(m, index, id).identities ==>
                          id !in DeletePolicy(m, index, id).identities[i].policies
  {
  }

  /** After an identity delete no policy lists it. */
  lemma DeleteIdentitySymmetric(m: Model, id: Id)
    requires Symmetric(m)
    ensures Symmetric(DeleteIdentity(m, id))
    ensures forall p :: p in DeleteIdentity(m, id).policies ==> id !in DeleteIdentity(m, id).policies[p].identities
  {
  }

  lemma DeleteIdentityKeeps(m: Model, id: Id)
    requires Symmetric(m)
    ensures Symmetric(DeleteIdentity(m, id))
    ensures CountersExact(m) ==> CountersExact(DeleteIdentity(m, id))
    ensures UsesExact(m) ==> UsesExact(DeleteIdentity(m, id))
  {
    var n := DeleteIdentity(m, id);
    forall i | i in n.identities
      ensures AccessExact(m.policies, m.identities[i]) <==> AccessExact(n.policies, n.identities[i])
      ensures ChecksExact(m.policies, m.identities[i]) <==> ChecksExact(n.policies, n.identities[i])
    {
      assert AgreeOn(m.policies, n.policies, n.identities[i].policies);
      ExactFrame(m.policies, n.policies, n.identities[i]);
    }
    DeleteIdentitySymmetric(m, id);
  }

  lemma NewIdentityKeeps(m: Model, index: nat, id: Id, data: IdentityData)
    requires Symmetric(m) && id !in m.identities
    ensures Symmetric(PutIdentity(m, index, id, data))
    ensures CountersExact(m) ==> CountersExact(PutIdentity(m, index, id, data))
    ensures UsesExact(m) ==> UsesExact(PutIdentity(m, index, id, data))
  {
    var n := PutIdentity(m, index, id, data);
    assert forall c :: Using(n.policies, {}, c) == {};
    assert ChecksExact(n.policies, n.identities[id]) by {
      forall c ensures ChecksExactAt(n.policies, n.identities[id], c) {
      }
    }
  }

  // ---- service deltas ----------------------------------------------------------------------------------

  /** Moving an index does not move a count. */
  lemma TouchKeepsCounts(ps: Policies, i: Identity, pid: Id, p: Policy, ids: multiset<Id>, index: nat, add: bool, s: Id)
    ensures AccessExactAt(ps, ChecksMoved(i, pid, p, ids, index, add), s) <==> AccessExactAt(ps, i, s)
  {
  }

  /** What a caller must ensure of a service delta: see ServicesMovedExactAt. */
  ghost predicate SafeServiceDelta(m: Model, pid: Id, ids: seq<Id>, add: bool)
    requires pid in m.policies
  {
    forall i, s :: i in m.identities && m.identities[i].tracked && pid in m.identities[i].policies ==>
                     || GenuineAt(m.policies[pid].services, multiset(ids), add, s)
                     || (!add && SoleGrant(m.policies, m.identities[i], pid, s))
  }

  lemma MemberServicesExactAt(m: Model, index: nat, pid: Id, ids: seq<Id>, add: bool, i: Id, s: Id)
    requires Symmetric(m) && CountersExact(m) && pid in m.policies
    requires i in m.identities && m.identities[i].tracked && pid in m.identities[i].policies
    ensures
      var n := ChangeServices(m, index, pid, ids, add);
      AccessExactAt(n.policies, n.identities[i], s) <==>
      || GenuineAt(m.policies[pid].services, multiset(ids), add, s)
      || (!add && SoleGrant(m.policies, m.identities[i], pid, s))
  {
    var n := ChangeServices(m, index, pid, ids, add);
    var p, q := m.policies[pid], n.policies[pid];
    assert AccessExact(m.policies, m.identities[i]);
    assert AccessExactAt(m.policies, m.identities[i], s);
    ServicesMovedExactAt(m.policies, m.identities[i], pid, multiset(ids), index, add, q, s);
    var j := ServicesMoved(m.identities[i], pid, p, multiset(ids), index, add);
    TouchKeepsCounts(n.policies, j, pid, q, multiset(q.checks), index, true, s);
    TouchKeepsCounts(n.policies, j, pid, q, multiset(q.checks), index, false, s);
  }

  lemma MemberServicesExact(m: Model, index: nat, pid: Id, ids: seq<Id>, add: bool, i: Id)
    requires Symmetric(m) && CountersExact(m) && pid in m.policies && i in m.identities
    ensures
      var n := ChangeServices(m, index, pid, ids, add);
      var x := m.identities[i];
      AccessExact(n.policies, n.identities[i]) <==>
      (x.tracked && pid in x.policies ==>
         forall s :: GenuineAt(m.policies[pid].services, multiset(ids), add, s) ||
                     (!add && SoleGrant(m.policies, x, pid, s)))
  {
    var n := ChangeServices(m, index, pid, ids, add);
    var x, y := m.identities[i], n.identities[i];
    if x.tracked && pid in x.policies {
      forall s
        ensures AccessExactAt(n.policies, y, s) <==>
                GenuineAt(m.policies[pid].services, multiset(ids), add, s) || (!add && SoleGrant(m.policies, x, pid, s))
      {
        MemberServicesExactAt(m, index, pid, ids, add, i, s);
      }
    } else if pid !in x.policies {
      NonMemberKeeps(m, pid, n.policies, i);
    }
  }

  /**
   A service delta keeps the counters exact exactly when it is safe: each id genuine for every tracked member, or,
   when removing, a service the member cannot reach otherwise.
   */
  lemma ServiceDeltaExactIff(m: Model, index: nat, pid: Id, ids: seq<Id>, add: bool)
    requires Symmetric(m) && CountersExact(m) && pid in m.policies
    ensures CountersExact(ChangeServices(m, index, pid, ids, add)) <==> SafeServiceDelta(m, pid, ids, add)
  {
    var n := ChangeServices(m, index, pid, ids, add);
    forall i | i in m.identities
      ensures AccessExact(n.policies, n.identities[i]) <==>
              (m.identities[i].tracked && pid in m.identities[i].policies ==>
                 forall s :: GenuineAt(m.policies[pid].services, multiset(ids), add, s) ||
                             (!add && SoleGrant(m.policies, m.identities[i], pid, s)))
    {
      MemberServicesExact(m, index, pid, ids, add, i);
    }
  }

  /** A genuine delta is safe whoever the members are. */
  lemma GenuineIsSafe(m: Model, pid: Id, ids: seq<Id>, add: bool)
    requires pid in m.policies && Genuine(m.policies[pid].services, ids, add)
    ensures SafeServiceDelta(m, pid, ids, add)
  {
    GenuineAtEach(m.policies[pid].services, ids, add);
  }

  /** Adding a service twice is the simplest unsafe delta: one policy is counted two times. */
  lemma DuplicateAddBreaksCounters(m: Model, index: nat, pid: Id, i: Id, s: Id)
    requires Symmetric(m) && CountersExact(m) && pid in m.policies && i in m.policies[pid].identities
    requires m.identities[i].tracked
    ensures !CountersExact(ChangeServices(m, index, pid, [s, s], true))
  {
    ServiceDeltaExactIff(m, index, pid, [s, s], true);
    assert multiset([s, s])[s] == 2;
    assert !GenuineAt(m.policies[pid].services, multiset([s, s]), true, s);
  }

  /** Use counts follow the empty to non-empty switches, whatever the delta. */
  lemma ServiceDeltaKeepsUses(m: Model, index: nat, pid: Id, ids: seq<Id>, add: bool)
    requires Symmetric(m) && UsesExact(m) && pid in m.policies
    ensures UsesExact(ChangeServices(m, index, pid, ids, add))
  {
    var n := ChangeServices(m, index, pid, ids, add);
    var p, q := m.policies[pid], n.policies[pid];
    forall i | i in n.identities ensures ChecksExact(n.policies, n.identities[i]) {
      if pid in m.identities[i].policies {
        var j := ServicesMoved(m.identities[i], pid, p, multiset(ids), index, add);
        assert ChecksExact(m.policies, m.identities[i]);
        assert forall c :: ChecksExactAt(m.policies, m.identities[i], c) <==> ChecksExactAt(m.policies, j, c);
        ServicesSwitchExact(m.policies, j, pid, index, q);
      } else {
        NonMemberKeeps(m, pid, n.policies, i);
      }
    }
  }

  /** Each service just granted has an entry when the checks are switched on, so nothing is looked up in vain. */
  lemma ServiceDeltaNoPanic(m: Model, index: nat, pid: Id, ids: seq<Id>, add: bool)
    requires Symmetric(m) && CountersExact(m) && pid in m.policies
    ensures ChangeServices(m, index, pid, ids, add).panicked == m.panicked
  {
    var n := ChangeServices(m, index, pid, ids, add);
    var p, q := m.policies[pid], n.policies[pid];
    forall i | i in m.identities && i in p.identities
      ensures p.services == {} && q.services != {} ==>
                !NilLookup(ServicesMoved(m.identities[i], pid, p, multiset(ids), index, add), q)
    {
      if p.services == {} && q.services != {} && m.identities[i].tracked {
        var x := m.identities[i];
        forall s | s in q.services ensures s in Regranted(x.access, p.policyType, multiset(ids), index, add) {
          assert AccessExact(m.policies, x);
          assert AccessExactAt(m.policies, x, s);
        }
      }
    }
  }

  // ---- posture check deltas ----------------------------------------------------------------------------

  ghost predicate SafeCheckDelta(m: Model, pid: Id, ids: seq<Id>, add: bool)
    requires pid in m.policies
  {
    m.policies[pid].services != {} ==>
      forall i, c :: i in m.identities && pid in m.identities[i].policies ==>
                       || GenuineAt(m.policies[pid].checks, multiset(ids), add, c)
                       || (!add && SoleUse(m.policies, m.identities[i], pid, c))
  }

  lemma MemberChecksExact(m: Model, index: nat, pid: Id, ids: seq<Id>, add: bool, i: Id)
    requires Symmetric(m) && UsesExact(m) && pid in m.policies && i in m.identities
    ensures
      var n := ChangeChecks(m, index, pid, ids, add);
      var x := m.identities[i];
      ChecksExact(n.policies, n.identities[i]) <==>
      (m.policies[pid].services != {} && pid in x.policies ==>
         forall c :: GenuineAt(m.policies[pid].checks, multiset(ids), add, c) ||
                     (!add && SoleUse(m.policies, x, pid, c)))
  {
    var n := ChangeChecks(m, index, pid, ids, add);
    var x, y := m.identities[i], n.identities[i];
    assert ChecksExact(m.policies, x);
    if pid !in x.policies {
      NonMemberKeeps(m, pid, n.policies, i);
    } else if m.policies[pid].services != {} {
      forall c
        ensures ChecksExactAt(n.policies, y, c) <==>
                GenuineAt(m.policies[pid].checks, multiset(ids), add, c) || (!add && SoleUse(m.policies, x, pid, c))
      {
        assert ChecksExactAt(m.policies, x, c);
        ChecksMovedExactAt(m.policies, x, pid, multiset(ids), index, add, n.policies[pid], c);
      }
    } else {
      forall c ensures ChecksExactAt(n.policies, y, c) {
        assert ChecksExactAt(m.policies, x, c);
        assert Using(m.policies, x.policies, c) == Using(n.policies, x.policies, c);
      }
    }
  }

  /** A posture check delta keeps the use counts exact exactly when it is safe. */
  lemma CheckDeltaExactIff(m: Model, index: nat, pid: Id, ids: seq<Id>, add: bool)
    requires Symmetric(m) && UsesExact(m) && pid in m.policies
    ensures UsesExact(ChangeChecks(m, index, pid, ids, add)) <==> SafeCheckDelta(m, pid, ids, add)
  {
    var n := ChangeChecks(m, index, pid, ids, add);
    forall i | i in m.identities
      ensures ChecksExact(n.policies, n.identities[i]) <==>
              (m.policies[pid].services != {} && pid in m.identities[i].policies ==>
                 forall c :: GenuineAt(m.policies[pid].checks, multiset(ids), add, c) ||
                             (!add && SoleUse(m.policies, m.identities[i], pid, c)))
    {
      MemberChecksExact(m, index, pid, ids, add, i);
    }
  }

  lemma GenuineCheckIsSafe(m: Model, pid: Id, ids: seq<Id>, add: bool)
    requires pid in m.policies && Genuine(m.policies[pid].checks, ids, add)
    ensures SafeCheckDelta(m, pid, ids, add)
  {
    GenuineAtEach(m.policies[pid].checks, ids, add);
  }

  /** Adding a check twice to a policy with services is the simplest unsafe delta: one use is counted two times. */
  lemma DuplicateCheckBreaksUses(m: Model, index: nat, pid: Id, i: Id, c: Id)
    requires Symmetric(m) && UsesExact(m) && pid in m.policies && i in m.policies[pid].identities
    requires m.policies[pid].services != {}
    ensures !UsesExact(ChangeChecks(m, index, pid, [c, c], true))
  {
    CheckDeltaExactIff(m, index, pid, [c, c], true);
    assert multiset([c, c])[c] == 2;
    assert !GenuineAt(m.policies[pid].checks, multiset([c, c]), true, c);
  }

  lemma CheckDeltaKeepsCounters(m: Model, index: nat, pid: Id, ids: seq<Id>, add: bool)
    requires Symmetric(m) && CountersExact(m) && pid in m.policies
    ensures CountersExact(ChangeChecks(m, index, pid, ids, add))
    ensures ChangeChecks(m, index, pid, ids, add).panicked == m.panicked
  {
    var n := ChangeChecks(m, index, pid, ids, add);
    var p := m.policies[pid];
    forall i | i in n.identities ensures AccessExact(n.policies, n.identities[i]) {
      var x := m.identities[i];
      assert AccessExact(m.policies, x);
      forall s ensures AccessExactAt(m.policies, x, s) <==> AccessExactAt(n.policies, n.identities[i], s) {
        TouchKeepsCounts(n.policies, x, pid, p, multiset(ids), index, add, s);
        assert forall t :: Granting(m.policies, x.policies, t, s) == Granting(n.policies, x.policies, t, s);
      }
    }
    forall i | i in m.identities && i in p.identities ensures !NilLookup(m.identities[i], p) {
      LookupsSafe(m.policies, m.identities[i], pid, p);
    }
  }

  lemma ServiceDeltaSymmetric(m: Model, index: nat, pid: Id, ids: seq<Id>, add: bool)
    requires Symmetric(m) && pid in m.policies
    ensures Symmetric(ChangeServices(m, index, pid, ids, add))
  {
    SameMembershipSymmetric(m, ChangeServices(m, index, pid, ids, add));
  }

  lemma CheckDeltaSymmetric(m: Model, index: nat, pid: Id, ids: seq<Id>, add: bool)
    requires Symmetric(m) && pid in m.policies
    ensures Symmetric(ChangeChecks(m, index, pid, ids, add))
  {
    SameMembershipSymmetric(m, ChangeChecks(m, index, pid, ids, add));
  }

  // ---- service deletes ---------------------------------------------------------------------------------

  lemma CardMinus(a: set<Id>, b: set<Id>)
    requires b <= a
    ensures |a - b| == |a| - |b|
  {
    assert a == (a - b) + b;
  }

  /** qs is ps with service id taken out of the policies in gone. */
  ghost predicate ServiceTakenOut(ps: Policies, qs: Policies, gone: set<Id>, id: Id) {
    && ps.Keys == qs.Keys
    && (forall p :: p in gone ==> p in ps && id in ps[p].services)
    && (forall p :: p in ps ==>
          && qs[p].policyType == ps[p].policyType && qs[p].checks == ps[p].checks
          && qs[p].services == if p in gone then ps[p].services - {id} else ps[p].services)
  }

  ghost predicate Member(ps: Policies, i: Id, mine: set<Id>) {
    forall p :: p in mine ==> p in ps && i in ps[p].identities
  }

  /** The grants an identity loses with the service are exactly those counted through the cleaned up policies. */
  lemma GrantsLost(ps: Policies, qs: Policies, gone: set<Id>, id: Id, i: Id, mine: set<Id>, t: PolicyType, s: Id)
    requires ServiceTakenOut(ps, qs, gone, id) && Member(ps, i, mine)
    ensures |Granting(qs, mine, t, s)| ==
            |Granting(ps, mine, t, s)| - (if s == id then |OfType(ps, Via(ps, gone, i, mine), t)| else 0)
  {
    var lost := OfType(ps, Via(ps, gone, i, mine), t);
    var before, after := Granting(ps, mine, t, s), Granting(qs, mine, t, s);
    if s == id {
      assert forall p :: p in after <==> p in before && p !in lost;
      assert after == before - lost;
      assert forall p :: p in lost ==> p in before;
      CardMinus(before, lost);
    } else {
      assert forall p :: p in after <==> p in before;
      assert after == before;
    }
  }

  lemma UsesLost(ps: Policies, qs: Policies, gone: set<Id>, id: Id, i: Id, mine: set<Id>, c: Id)
    requires ServiceTakenOut(ps, qs, gone, id) && Member(ps, i, mine)
    ensures |Using(qs, mine, c)| == |Using(ps, mine, c)| - |Emptied(ps, Via(ps, gone, i, mine), id, c)|
  {
    var lost := Emptied(ps, Via(ps, gone, i, mine), id, c);
    var before, after := Using(ps, mine, c), Using(qs, mine, c);
    forall p ensures p in after <==> p in before && p !in lost {
      if p in ps && p in gone && p in mine {
        assert ps[p].services - {id} == {} <==> ps[p].services == {id};
      }
    }
    assert after == before - lost;
    assert lost <= before;
    CardMinus(before, lost);
  }

  /** One identity through a service delete. */
  lemma ServiceLostExact(ps: Policies, qs: Policies, gone: set<Id>, id: Id, i: Id, x: Identity, index: nat)
    requires ServiceTakenOut(ps, qs, gone, id) && Member(ps, i, x.policies)
    ensures AccessExact(ps, x) ==> AccessExact(qs, ServiceLost(ps, Via(ps, gone, i, x.policies), x, id, index))
    ensures ChecksExact(ps, x) ==> ChecksExact(qs, ServiceLost(ps, Via(ps, gone, i, x.policies), x, id, index))
  {
    var y := ServiceLost(ps, Via(ps, gone, i, x.policies), x, id, index);
    if AccessExact(ps, x) && x.tracked {
      forall s ensures AccessExactAt(qs, y, s) {
        assert AccessExactAt(ps, x, s);
        GrantsLost(ps, qs, gone, id, i, x.policies, Dial, s);
        GrantsLost(ps, qs, gone, id, i, x.policies, Bind, s);
      }
    }
    if ChecksExact(ps, x) {
      forall c ensures ChecksExactAt(qs, y, c) {
        assert ChecksExactAt(ps, x, c);
        UsesLost(ps, qs, gone, id, i, x.policies, c);
      }
    }
  }

  lemma DeleteServiceKeeps(m: Model, index: nat, id: Id)
    requires Symmetric(m)
    ensures CountersExact(m) ==> CountersExact(DeleteService(m, index, id))
    ensures UsesExact(m) ==> UsesExact(DeleteService(m, index, id))
  {
    var n := DeleteService(m, index, id);
    if id in m.services {
      forall i | i in n.identities
        ensures AccessExact(m.policies, m.identities[i]) ==> AccessExact(n.policies, n.identities[i])
        ensures ChecksExact(m.policies, m.identities[i]) ==> ChecksExact(n.policies, n.identities[i])
      {
        ServiceLostExact(m.policies, n.policies, PoliciesWithService(m, id), id, i, m.identities[i], index);
      }
    }
  }

  lemma DeleteServiceSymmetric(m: Model, index: nat, id: Id)
    requires Symmetric(m)
    ensures Symmetric(DeleteService(m, index, id))
    ensures DeleteService(m, index, id).panicked == m.panicked
  {
    SameMembershipSymmetric(m, DeleteService(m, index, id));
  }

  // ---- posture check deletes ---------------------------------------------------------------------------

  /** qs is ps with check id taken out of the policies in gone. */
  ghost predicate CheckTakenOut(ps: Policies, qs: Policies, gone: set<Id>, id: Id) {
    && ps.Keys == qs.Keys
    && (forall p :: p in gone ==> p in ps && id in ps[p].checks)
    && (forall p :: p in ps ==>
          && qs[p].policyType == ps[p].policyType && qs[p].services == ps[p].services
          && qs[p].checks == if p in gone then ps[p].checks - {id} else ps[p].checks)
  }

  lemma CheckUsesLost(ps: Policies, qs: Policies, gone: set<Id>, id: Id, i: Id, mine: set<Id>, c: Id)
    requires CheckTakenOut(ps, qs, gone, id) && Member(ps, i, mine)
    ensures |Using(qs, mine, c)| == |Using(ps, mine, c)| - (if c == id then |Active(ps, gone, i) * mine| else 0)
  {
    var lost := Active(ps, gone, i) * mine;
    var before, after := Using(ps, mine, c), Using(qs, mine, c);
    if c == id {
      assert forall p :: p in after <==> p in before && p !in lost;
      assert after == before - lost;
      assert forall p :: p in lost ==> p in before;
      CardMinus(before, lost);
    } else {
      assert forall p :: p in after <==> p in before;
      assert after == before;
    }
  }

  /** One identity through a posture check delete. */
  lemma CheckLostExact(ps: Policies, qs: Policies, gone: set<Id>, id: Id, i: Id, x: Identity, index: nat)
    requires CheckTakenOut(ps, qs, gone, id) && Member(ps, i, x.policies)
    ensures AccessExact(ps, x) ==> AccessExact(qs, CheckLost(ps, Active(ps, gone, i), x, id, index))
    ensures ChecksExact(ps, x) ==> ChecksExact(qs, CheckLost(ps, Active(ps, gone, i), x, id, index))
  {
    var y := CheckLost(ps, Active(ps, gone, i), x, id, index);
    if AccessExact(ps, x) && x.tracked {
      forall s ensures AccessExactAt(qs, y, s) {
        assert AccessExactAt(ps, x, s);
        assert forall t, p :: p in Granting(ps, x.policies, t, s) <==> p in Granting(qs, x.policies, t, s);
        assert forall t :: Granting(ps, x.policies, t, s) == Granting(qs, x.policies, t, s);
      }
    }
    if ChecksExact(ps, x) {
      forall c ensures ChecksExactAt(qs, y, c) {
        assert ChecksExactAt(ps, x, c);
        CheckUsesLost(ps, qs, gone, id, i, x.policies, c);
      }
    }
  }

  lemma DeleteCheckParts(m: Model, index: nat, id: Id)
    requires id in m.checks
    ensures
      var n, gone := DeleteCheck(m, index, id), PoliciesWithCheck(m, id);
      && CheckTakenOut(m.policies, n.policies, gone, id)
      && n.identities.Keys == m.identities.Keys
      && forall i :: i in n.identities ==>
           n.identities[i] == CheckLost(m.policies, Active(m.policies, gone, i), m.identities[i], id, index)
  {
    TakenOut(m.policies, PoliciesWithCheck(m, id), id, index);
    LostEach(m.identities, m.policies, PoliciesWithCheck(m, id), id, index);
  }

  lemma TakenOut(ps: Policies, gone: set<Id>, id: Id, index: nat)
    requires forall p :: p in gone ==> p in ps && id in ps[p].checks
    ensures CheckTakenOut(ps, PoliciesWithoutCheck(ps, gone, id, index), gone, id)
  {
  }

  lemma LostEach(all: map<Id, Identity>, ps: Policies, gone: set<Id>, id: Id, index: nat)
    ensures
      var lost := AllCheckLost(all, ps, gone, id, index);
      lost.Keys == all.Keys && forall i :: i in all ==> lost[i] == CheckLost(ps, Active(ps, gone, i), all[i], id, index)
  {
  }

  /** If every identity stays exact, the model does. */
  lemma LiftExact(m: Model, n: Model)
    requires n.identities.Keys == m.identities.Keys
    requires forall i :: i in m.identities ==>
               && (AccessExact(m.policies, m.identities[i]) ==> AccessExact(n.policies, n.identities[i]))
               && (ChecksExact(m.policies, m.identities[i]) ==> ChecksExact(n.policies, n.identities[i]))
    ensures CountersExact(m) ==> CountersExact(n)
    ensures UsesExact(m) ==> UsesExact(n)
  {
  }

  lemma CheckTakenOutKeeps(m: Model, n: Model, gone: set<Id>, index: nat, id: Id)
    requires Symmetric(m) && CheckTakenOut(m.policies, n.policies, gone, id)
    requires n.identities.Keys == m.identities.Keys
    requires forall i :: i in n.identities ==>
               n.identities[i] == CheckLost(m.policies, Active(m.policies, gone, i), m.identities[i], id, index)
    ensures CountersExact(m) ==> CountersExact(n)
    ensures UsesExact(m) ==> UsesExact(n)
  {
    forall i | i in m.identities
      ensures AccessExact(m.policies, m.identities[i]) ==> AccessExact(n.policies, n.identities[i])
      ensures ChecksExact(m.policies, m.identities[i]) ==> ChecksExact(n.policies, n.identities[i])
    {
      CheckLostExact(m.policies, n.policies, gone, id, i, m.identities[i], index);
    }
    LiftExact(m, n);
  }

  lemma DeleteCheckKeeps(m: Model, index: nat, id: Id)
    requires Symmetric(m)
    ensures CountersExact(m) ==> CountersExact(DeleteCheck(m, index, id))
    ensures UsesExact(m) ==> UsesExact(DeleteCheck(m, index, id))
  {
    if id in m.checks {
      DeleteCheckParts(m, index, id);
      CheckTakenOutKeeps(m, DeleteCheck(m, index, id), PoliciesWithCheck(m, id), index, id);
    }
  }

  lemma DeleteCheckNoPanic(m: Model, index: nat, id: Id)
    requires Symmetric(m) && CountersExact(m)
    ensures DeleteCheck(m, index, id).panicked == m.panicked
  {
    if id in m.checks {
      forall i, p | i in m.identities && p in Active(m.policies, PoliciesWithCheck(m, id), i)
        ensures !NilLookup(m.identities[i], m.policies[p])
      {
        LookupsSafe(m.policies, m.identities[i], p, m.policies[p]);
      }
    }
  }

  lemma DeleteCheckMembership(m: Model, index: nat, id: Id)
    ensures SameMembership(m, DeleteCheck(m, index, id))
  {
  }

  lemma DeleteCheckSymmetric(m: Model, index: nat, id: Id)
    requires Symmetric(m)
    ensures Symmetric(DeleteCheck(m, index, id))
  {
    DeleteCheckMembership(m, index, id);
    SameMembershipSymmetric(m, DeleteCheck(m, index, id));
  }

  // ---- tracking ----------------------------------------------------------------------------------------

  lemma TrackingExact(ps: Policies, x: Identity, access: AccessMap)
    requires AccessExact(ps, x) && ChecksExact(ps, x)
    ensures IsAccessList(ps, x.policies, access) ==> AccessExact(ps, x.(tracked := true, access := access))
    ensures ChecksExact(ps, x.(tracked := true, access := access))
    ensures AccessExact(ps, x.(tracked := false, access := map[]))
    ensures ChecksExact(ps, x.(tracked := false, access := map[]))
  {
    var y, z := x.(tracked := true, access := access), x.(tracked := false, access := map[]);
    forall c ensures ChecksExactAt(ps, y, c) && ChecksExactAt(ps, z, c) {
      assert ChecksExactAt(ps, x, c);
    }
    if IsAccessList(ps, x.policies, access) {
      forall s ensures AccessExactAt(ps, y, s) {
        assert AccessListedAt(ps, x.policies, access, s);
      }
    }
  }

  lemma OneIdentityKeeps(m: Model, n: Model, id: Id)
    requires Exact(m) && id in m.identities && id in n.identities
    requires n.policies == m.policies && n.panicked == m.panicked &&
             n.identities == m.identities[id := n.identities[id]]
    requires n.identities[id].policies == m.identities[id].policies
    requires AccessExact(m.policies, n.identities[id]) && ChecksExact(m.policies, n.identities[id])
    ensures Exact(n)
  {
    LiftExact(m, n);
    SameMembershipSymmetric(m, n);
  }

  lemma EnableTrackingKeeps(m: Model, id: Id, access: AccessMap)
    requires Exact(m)
    requires id in m.identities && !m.identities[id].tracked ==>
             IsAccessList(m.policies, m.identities[id].policies, access)
    ensures Exact(EnableTracking(m, id, access))
  {
    if id in m.identities && !m.identities[id].tracked {
      TrackingExact(m.policies, m.identities[id], access);
      OneIdentityKeeps(m, EnableTracking(m, id, access), id);
    }
  }

  lemma DisableTrackingKeeps(m: Model, id: Id)
    requires Exact(m)
    ensures Exact(DisableTracking(m, id))
  {
    if id in m.identities && m.identities[id].tracked {
      TrackingExact(m.policies, m.identities[id], map[]);
      OneIdentityKeeps(m, DisableTracking(m, id), id);
    }
  }

  /** Afterwards a known identity is untracked with no access entries, and all else is as before. */
  lemma DisabledIsUntracked(m: Model, id: Id)
    requires CountersExact(m)
    ensures
      var n := DisableTracking(m, id);
      && n == m.(identities := n.identities) && n.identities.Keys == m.identities.Keys
      && (forall i :: i in m.identities && i != id ==> n.identities[i] == m.identities[i])
      && (id in m.identities ==>
            && !n.identities[id].tracked && n.identities[id].access == map[]
            && n.identities[id].(tracked := m.identities[id].tracked, access := m.identities[id].access) ==
               m.identities[id])
  {
    if id in m.identities {
      assert AccessExact(m.policies, m.identities[id]);
    }
  }

  // ---- whole runs --------------------------------------------------------------------------------------

  ghost predicate Exact(m: Model) {
    Symmetric(m) && CountersExact(m) && UsesExact(m) && !m.panicked
  }

  /** The one thing asked of an event: its service and posture check deltas are safe. */
  ghost predicate SafeEvent(m: Model, e: Event) {
    e.ChangeEvent? && e.change.policyId in m.policies ==>
      && (e.change.related.RelatedService? ==> SafeServiceDelta(m, e.change.policyId, e.change.ids, e.change.add))
      && (e.change.related.RelatedPostureCheck? ==> SafeCheckDelta(m, e.change.policyId, e.change.ids, e.change.add))
  }

  lemma ChangeKeepsExact(m: Model, index: nat, change: PolicyChange)
    requires Exact(m) && SafeEvent(m, ChangeEvent(change))
    ensures Exact(Change(m, index, change))
  {
    var pid, ids, add := change.policyId, change.ids, change.add;
    if pid in m.policies {
      match change.related
      case RelatedIdentity =>
        ChangeIdentitiesKeeps(m, index, pid, ToSet(ids), add);
      case RelatedService =>
        ServiceDeltaSymmetric(m, index, pid, ids, add);
        ServiceDeltaExactIff(m, index, pid, ids, add);
        ServiceDeltaKeepsUses(m, index, pid, ids, add);
        ServiceDeltaNoPanic(m, index, pid, ids, add);
      case RelatedPostureCheck =>
        CheckDeltaSymmetric(m, index, pid, ids, add);
        CheckDeltaExactIff(m, index, pid, ids, add);
        CheckDeltaKeepsCounters(m, index, pid, ids, add);
    }
  }

  lemma DeleteKeepsExact(m: Model, index: nat, id: Id)
    requires Exact(m)
    ensures Exact(DeletePolicy(m, index, id)) && Exact(DeleteIdentity(m, id))
    ensures Exact(DeleteService(m, index, id)) && Exact(DeleteCheck(m, index, id))
  {
    DeletePolicyKeeps(m, index, id);
    DeleteIdentityKeeps(m, id);
    DeleteServiceKeeps(m, index, id);
    DeleteServiceSymmetric(m, index, id);
    DeleteCheckKeeps(m, index, id);
    DeleteCheckNoPanic(m, index, id);
    DeleteCheckSymmetric(m, index, id);
  }

  /** Every event keeps everything exact, cleanup events, type flips and recreated ids included. */
  lemma HandleKeepsExact(m: Model, index: nat, e: Event)
    requires Exact(m) && SafeEvent(m, e)
    ensures Exact(Handle(m, index, e))
  {
    if Neutral(m, e) {
      NeutralSame(m, index, e);
      SameRelationsKeep(m, Handle(m, index, e));
    } else {
      match e
      case IdentityEvent(a, id, data) =>
        if a.Delete? { DeleteKeepsExact(m, index, id); } else { NewIdentityKeeps(m, index, id, data); }
      case PolicyEvent(a, id, name, t) =>
        if a.Delete? { DeleteKeepsExact(m, index, id); }
        else if id in m.policies { FlipKeeps(m, index, id, name, t); }
        else { NewPolicyKeeps(m, index, id, name, t); }
      case ServiceEvent(_, id, _) => DeleteKeepsExact(m, index, id);
      case CheckEvent(_, id, _) => DeleteKeepsExact(m, index, id);
      case ChangeEvent(change) => ChangeKeepsExact(m, index, change);
    }
  }

  /** A step of the router: an event, or tracking switched on (with the list it counts) or off for an identity. */
  datatype Op = Receive(index: nat, event: Event) | Enable(id: Id, access: AccessMap) | Disable(id: Id)

  ghost predicate Enabled(m: Model, op: Op) {
    match op
    case Receive(_, e) => SafeEvent(m, e)
    case Enable(id, access) =>
      id in m.identities && !m.identities[id].tracked ==> IsAccessList(m.policies, m.identities[id].policies, access)
    case Disable(_) => true
  }

  ghost function Step(m: Model, op: Op): Model {
    match op
    case Receive(index, e) => Handle(m, index, e)
    case Enable(id, access) => EnableTracking(m, id, access)
    case Disable(id) => DisableTracking(m, id)
  }

  ghost function AfterAll(m: Model, ops: seq<Op>): Model
    decreases |ops|
  {
    if ops == [] then m else AfterAll(Step(m, ops[0]), ops[1..])
  }

  ghost predicate Run(m: Model, ops: seq<Op>, n: Model)
    decreases |ops|
  {
    if ops == [] then n == m else Enabled(m, ops[0]) && Run(Step(m, ops[0]), ops[1..], n)
  }

  lemma {:induction false} RunKeepsExact(m: Model, ops: seq<Op>, n: Model)
    requires Exact(m) && Run(m, ops, n)
    ensures Exact(n)
    decreases |ops|
  {
    if ops != [] {
      match ops[0] {
        case Receive(index, e) => HandleKeepsExact(m, index, e);
        case Enable(id, access) => EnableTrackingKeeps(m, id, access);
        case Disable(id) => DisableTrackingKeeps(m, id);
      }
      RunKeepsExact(Step(m, ops[0]), ops[1..], n);
    }
  }

  /**
   In every reachable state, for each tracked identity and service, the dial (bind) counter equals the number of the
   identity's dial (bind) policies that contain the service, with an entry iff one of them is positive; each posture
   check's use count equals the number of the identity's policies that hold it and have a service; membership is
   symmetric without dangling ids; and no handler dereferenced a missing entry.
   */
  lemma ReachableExact(ops: seq<Op>, m: Model)
    requires Run(EmptyModel, ops, m)
    ensures Exact(m)
  {
    RunKeepsExact(EmptyModel, ops, m);
  }
}
