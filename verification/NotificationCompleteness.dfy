/**
 Whether every identity for which an event changes what its service list is computed from is asked to be re-checked.
 While nothing refers to something that is not there, it is, but for three kinds of events that notify nobody: a policy
 that changes its type, the delete of a config type still in use, and a config that is created after a service lists
 it. This module says exactly whom those leave uninformed.
 */
module NotificationCompleteness {
  import opened Types
  import opened Relations
  import opened Refinement
  import opened Notifications
  import Refs = ReceiverReferences
  import R = Receiver

  // ---- what an identity's service list is computed from -----------------------------------------------------

  ghost predicate Member(c: Content, i: Id, p: Id) {
    p in c.policies && i in c.policies[p].identities
  }

  ghost predicate Grants(c: Content, i: Id, p: Id, t: PolicyType, s: Id) {
    Member(c, i, p) && c.policies[p].policyType == t && s in c.policies[p].services
  }

  ghost predicate Visible(c: Content, i: Id, t: PolicyType, s: Id) {
    s in c.services && exists p :: Grants(c, i, p, t, s)
  }

  ghost predicate Reaches(c: Content, i: Id, s: Id) {
    Visible(c, i, Dial, s) || Visible(c, i, Bind, s)
  }

  ghost function OverridesOf(c: Content, i: Id, s: Id): map<Id, Id> {
    if i in c.identities && s in c.identities[i].serviceConfigs then c.identities[i].serviceConfigs[s] else map[]
  }

  ghost predicate Uses(c: Content, i: Id, s: Id, k: Id) {
    || (s in c.services && k in c.services[s].configs)
    || exists t :: t in OverridesOf(c, i, s) && OverridesOf(c, i, s)[t] == k
  }

  ghost function Load(c: Content, k: Id): Option<(ConfigData, Text)> {
    if k in c.configs && c.configs[k].typeId in c.configTypes
    then Some((c.configs[k], c.configTypes[c.configs[k].typeId]))
    else None
  }

  ghost predicate Checked(c: Content, i: Id, k: Id) {
    k in c.checks && exists p :: Member(c, i, p) && k in c.policies[p].checks && c.policies[p].services != {}
  }

  ghost predicate SameService(c: Content, d: Content, i: Id, s: Id) {
    && s in c.services && s in d.services && c.services[s] == d.services[s]
    && OverridesOf(c, i, s) == OverridesOf(d, i, s)
    && forall k :: Uses(c, i, s, k) ==> Load(c, k) == Load(d, k)
  }

  /** The same services by dial and bind, with the same data, overrides and configs, and the same posture checks. */
  ghost predicate SameView(c: Content, d: Content, i: Id) {
    && (forall t, s :: Visible(c, i, t, s) <==> Visible(d, i, t, s))
    && (forall s :: Reaches(c, i, s) ==> SameService(c, d, i, s))
    && (forall k :: Checked(c, i, k) <==> Checked(d, i, k))
    && (forall k :: Checked(c, i, k) ==> c.checks[k] == d.checks[k])
  }

  // ---- who is notified, in terms of the content ----------------------------------------------------------------

  ghost predicate UsesConfig(c: Content, i: Id, k: Id) {
    || (exists s, p :: Member(c, i, p) && s in c.policies[p].services && s in c.services && k in c.services[s].configs)
    || (i in c.identities && k in Referenced(c.identities[i].serviceConfigs))
  }

  ghost predicate Noticed(c: Content, e: Event, i: Id) {
    match e
    case ConfigTypeEvent(a, id, _) =>
      !a.Delete? && exists k :: k in c.configs && c.configs[k].typeId == id && UsesConfig(c, i, k)
    case ConfigEvent(a, id, data) => id in c.configs && (a.Delete? || c.configs[id] != data) && UsesConfig(c, i, id)
    case IdentityEvent(a, id, _) => !a.Delete? && id == i
    case ServiceEvent(_, id, _) => id in c.services && exists p :: Member(c, i, p) && id in c.policies[p].services
    case PolicyEvent(a, id, _, _) => a.Delete? && Member(c, i, id)
    case CheckEvent(_, id, _) => id in c.checks && exists p :: Member(c, i, p) && id in c.policies[p].checks
    case ChangeEvent(change) =>
      change.policyId in c.policies &&
      (Member(c, i, change.policyId) || (change.related.RelatedIdentity? && i in ToSet(change.ids)))
  }

  /** Another policy than p grants the identity the service. */
  ghost predicate GrantedBeside(c: Content, i: Id, p: Id, t: PolicyType, s: Id) {
    exists q :: q != p && Grants(c, i, q, t, s)
  }

  /** The event changes what identity i's list is computed from, and tells nobody. */
  ghost predicate Silent(c: Content, e: Event, i: Id) {
    match e
    case PolicyEvent(a, id, _, t) =>
      && !a.Delete? && Member(c, i, id) && c.policies[id].policyType != t
      && exists s :: s in c.policies[id].services && s in c.services &&
                     !(GrantedBeside(c, i, id, Dial, s) && GrantedBeside(c, i, id, Bind, s))
    case ConfigTypeEvent(a, id, _) =>
      && a.Delete? && id in c.configTypes
      && exists s, k :: Reaches(c, i, s) && Uses(c, i, s, k) && k in c.configs && c.configs[k].typeId == id
    case ConfigEvent(a, id, data) =>
      && !a.Delete? && id !in c.configs && data.typeId in c.configTypes
      && exists s :: Reaches(c, i, s) && Uses(c, i, s, id)
    case _ => false
  }

  // ---- events that touch memberships or services -----------------------------------------------------------------

  /** The policies of identity i are the same on both sides, as far as it can tell. */
  ghost predicate SamePolicies(c: Content, d: Content, i: Id) {
    && (forall p :: Member(c, i, p) <==> Member(d, i, p))
    && (forall p :: Member(c, i, p) ==>
          && c.policies[p].policyType == d.policies[p].policyType
          && c.policies[p].services == d.policies[p].services && c.policies[p].checks == d.policies[p].checks)
  }

  lemma SamePoliciesSameGrants(c: Content, d: Content, i: Id)
    requires SamePolicies(c, d, i)
    ensures forall p, t, s :: Grants(c, i, p, t, s) <==> Grants(d, i, p, t, s)
  {
  }

  ghost predicate Sees(c: Content, i: Id, s: Id) {
    exists p :: Member(c, i, p) && s in c.policies[p].services
  }

  ghost predicate SeesCheck(c: Content, i: Id, k: Id) {
    exists p :: Member(c, i, p) && k in c.policies[p].checks
  }

  lemma GrantorOf(c: Content, i: Id, s: Id) returns (p: Id, t: PolicyType)
    requires Reaches(c, i, s)
    ensures Grants(c, i, p, t, s) && Sees(c, i, s)
  {
    if Visible(c, i, Dial, s) {
      t := Dial;
      p :| Grants(c, i, p, Dial, s);
    } else {
      t := Bind;
      p :| Grants(c, i, p, Bind, s);
    }
  }

  lemma SameGrantsSameVisible(c: Content, d: Content, i: Id, t: PolicyType, s: Id)
    requires forall p :: Grants(c, i, p, t, s) ==> Grants(d, i, p, t, s)
    ensures (exists p :: Grants(c, i, p, t, s)) ==> exists p :: Grants(d, i, p, t, s)
  {
    if p :| Grants(c, i, p, t, s) {
      assert Grants(d, i, p, t, s);
    }
  }

  lemma SameChecked(c: Content, d: Content, i: Id, k: Id)
    requires SamePolicies(c, d, i)
    requires SeesCheck(c, i, k) ==> (k in c.checks <==> k in d.checks)
    ensures Checked(c, i, k) <==> Checked(d, i, k)
  {
    if p :| Member(c, i, p) && k in c.policies[p].checks && c.policies[p].services != {} {
      assert Member(d, i, p) && k in d.policies[p].checks && d.policies[p].services != {};
    }
    if p :| Member(d, i, p) && k in d.policies[p].checks && d.policies[p].services != {} {
      assert Member(c, i, p) && k in c.policies[p].checks && c.policies[p].services != {};
    }
  }

  /** The rest of the content differs at most in entries that identity i does not see. */
  lemma SameViewFrame(c: Content, d: Content, i: Id)
    requires SamePolicies(c, d, i)
    requires forall s :: Sees(c, i, s) ==>
                         (s in c.services <==> s in d.services) && (s in c.services ==> SameService(c, d, i, s))
    requires forall k :: SeesCheck(c, i, k) ==>
                         (k in c.checks <==> k in d.checks) && (k in c.checks ==> c.checks[k] == d.checks[k])
    ensures SameView(c, d, i)
  {
    SamePoliciesSameGrants(c, d, i);
    forall t, s ensures Visible(c, i, t, s) <==> Visible(d, i, t, s) {
      SameGrantsSameVisible(c, d, i, t, s);
      SameGrantsSameVisible(d, c, i, t, s);
      if p :| Grants(c, i, p, t, s) {
        assert Sees(c, i, s);
      }
    }
    forall s | Reaches(c, i, s) ensures SameService(c, d, i, s) {
      var p, t := GrantorOf(c, i, s);
    }
    forall k ensures Checked(c, i, k) <==> Checked(d, i, k) {
      SameChecked(c, d, i, k);
    }
  }

  /** Nothing but the named parts differs for a service. */
  lemma SameServiceAt(c: Content, d: Content, i: Id, s: Id)
    requires s in c.services && s in d.services && c.services[s] == d.services[s]
    requires OverridesOf(c, i, s) == OverridesOf(d, i, s) && c.configs == d.configs && c.configTypes == d.configTypes
    ensures SameService(c, d, i, s)
  {
  }

  /** Only the policies and identities differ, and those not for identity i. */
  lemma PoliciesView(c: Content, d: Content, i: Id)
    requires SamePolicies(c, d, i) && d == c.(policies := d.policies, identities := d.identities)
    requires forall s :: OverridesOf(c, i, s) == OverridesOf(d, i, s)
    ensures SameView(c, d, i)
  {
    forall s | s in c.services ensures SameService(c, d, i, s) {
      SameServiceAt(c, d, i, s);
    }
    SameViewFrame(c, d, i);
  }

  lemma ServiceDeleteView(c: Content, id: Id, i: Id)
    requires forall p :: Member(c, i, p) ==> id !in c.policies[p].services
    ensures SameView(c, DeleteServiceContent(c, id), i)
  {
    var d := DeleteServiceContent(c, id);
    forall p | Member(c, i, p) ensures c.policies[p].services - {id} == c.policies[p].services {
    }
    assert SamePolicies(c, d, i);
    forall s | Sees(c, i, s) && s in c.services ensures SameService(c, d, i, s) {
      assert s != id;
      SameServiceAt(c, d, i, s);
    }
    SameViewFrame(c, d, i);
  }

  lemma ServicePutView(c: Content, d: Content, id: Id, i: Id)
    requires forall p :: Member(c, i, p) ==> id !in c.policies[p].services
    requires d == c.(services := d.services) && d.services - {id} == c.services - {id}
    ensures SameView(c, d, i)
  {
    forall s | s != id ensures (s in c.services <==> s in d.services) &&
                               (s in c.services ==> c.services[s] == d.services[s]) {
      assert s in c.services <==> s in c.services - {id};
      assert s in d.services <==> s in d.services - {id};
    }
    forall s | Sees(c, i, s) && s in c.services ensures SameService(c, d, i, s) {
      SameServiceAt(c, d, i, s);
    }
    SameViewFrame(c, d, i);
  }

  lemma ServiceEventView(c: Content, e: Event, i: Id)
    requires e.ServiceEvent? && Closed(c) && !Noticed(c, e, i)
    ensures SameView(c, Step(c, e), i)
  {
    forall p | Member(c, i, p) ensures e.id !in c.policies[p].services {
    }
    if e.action.Delete? {
      ServiceDeleteView(c, e.id, i);
    } else {
      ServicePutView(c, Step(c, e), e.id, i);
    }
  }

  lemma CheckEventView(c: Content, e: Event, i: Id)
    requires e.CheckEvent? && Closed(c) && WellFormed(c, e) && !Noticed(c, e, i)
    ensures SameView(c, Step(c, e), i)
  {
    var d := Step(c, e);
    forall p | Member(c, i, p) ensures e.id !in c.policies[p].checks {
    }
    forall s | s in c.services ensures SameService(c, d, i, s) {
      SameServiceAt(c, d, i, s);
    }
    SameViewFrame(c, d, i);
  }

  lemma IdentityDeleteView(c: Content, id: Id, i: Id)
    requires id != i
    ensures SameView(c, DeleteIdentityContent(c, id), i)
  {
    var d := DeleteIdentityContent(c, id);
    assert SamePolicies(c, d, i);
    PoliciesView(c, d, i);
  }

  lemma IdentityEventView(c: Content, e: Event, i: Id)
    requires e.IdentityEvent? && e.id != i
    ensures SameView(c, Step(c, e), i)
  {
    if e.action.Delete? {
      IdentityDeleteView(c, e.id, i);
    } else {
      PoliciesView(c, Step(c, e), i);
    }
  }

  /** One policy differs, and identity i is a member of neither version. */
  lemma StrangerView(c: Content, d: Content, i: Id, id: Id)
    requires d == c.(policies := d.policies) && d.policies - {id} == c.policies - {id}
    requires !Member(c, i, id) && !Member(d, i, id)
    ensures SameView(c, d, i)
  {
    forall p | p != id ensures (p in c.policies <==> p in d.policies) &&
                               (p in c.policies ==> c.policies[p] == d.policies[p]) {
      assert p in c.policies <==> p in c.policies - {id};
      assert p in d.policies <==> p in d.policies - {id};
    }
    assert SamePolicies(c, d, i);
    PoliciesView(c, d, i);
  }

  lemma MembershipView(c: Content, e: Event, i: Id)
    requires (e.ChangeEvent? && !Noticed(c, e, i)) || (e.PolicyEvent? && !Member(c, i, e.id))
    ensures SameView(c, Step(c, e), i)
  {
    var id := if e.ChangeEvent? then e.change.policyId else e.id;
    StrangerView(c, Step(c, e), i, id);
  }

  // ---- a policy that changes its type -------------------------------------------------------------------------------

  lemma FlippedGrants(c: Content, i: Id, id: Id, name: Text, t: PolicyType, u: PolicyType, s: Id)
    requires Member(c, i, id)
    ensures Visible(PutPolicyContent(c, id, name, t), i, u, s) <==>
            s in c.services && (GrantedBeside(c, i, id, u, s) || (t == u && s in c.policies[id].services))
  {
    var d := PutPolicyContent(c, id, name, t);
    assert Grants(d, i, id, u, s) <==> u == t && s in c.policies[id].services;
    assert forall q :: q != id ==> (Grants(d, i, q, u, s) <==> Grants(c, i, q, u, s));
    if q :| q != id && Grants(c, i, q, u, s) {
      assert Grants(d, i, q, u, s);
    }
    if q :| Grants(d, i, q, u, s) {
      assert q != id ==> Grants(c, i, q, u, s);
    }
  }

  lemma GrantsSplit(c: Content, i: Id, id: Id, u: PolicyType, s: Id)
    ensures Visible(c, i, u, s) <==> s in c.services && (GrantedBeside(c, i, id, u, s) || Grants(c, i, id, u, s))
  {
    if p :| Grants(c, i, p, u, s) {
      assert p != id ==> GrantedBeside(c, i, id, u, s);
    }
  }

  /** For one service: the flip is invisible iff the policy does not have it, or others grant it both ways. */
  lemma FlipAt(c: Content, i: Id, id: Id, name: Text, t: PolicyType, s: Id)
    requires Member(c, i, id) && c.policies[id].policyType != t
    ensures
      var d := PutPolicyContent(c, id, name, t);
      (forall u :: Visible(c, i, u, s) <==> Visible(d, i, u, s)) <==>
      (s !in c.services || s !in c.policies[id].services ||
       (GrantedBeside(c, i, id, Dial, s) && GrantedBeside(c, i, id, Bind, s)))
  {
    var d := PutPolicyContent(c, id, name, t);
    forall u ensures Visible(d, i, u, s) <==>
                     s in c.services && (GrantedBeside(c, i, id, u, s) || (t == u && s in c.policies[id].services)) {
      FlippedGrants(c, i, id, name, t, u, s);
    }
    forall u ensures Visible(c, i, u, s) <==>
                     s in c.services && (GrantedBeside(c, i, id, u, s) || Grants(c, i, id, u, s)) {
      GrantsSplit(c, i, id, u, s);
    }
    if forall u :: Visible(c, i, u, s) <==> Visible(d, i, u, s) {
      assert Visible(c, i, Dial, s) <==> Visible(d, i, Dial, s);
      assert Visible(c, i, Bind, s) <==> Visible(d, i, Bind, s);
    }
  }

  /** A type flip leaves a member's view alone iff each of the policy's services is granted both ways by others. */
  lemma FlipViewIff(c: Content, e: Event, i: Id)
    requires e.PolicyEvent? && !e.action.Delete? && Member(c, i, e.id) && c.policies[e.id].policyType != e.policyType
    ensures SameView(c, Step(c, e), i) <==> !Silent(c, e, i)
  {
    var d, id := Step(c, e), e.id;
    if Silent(c, e, i) {
      var s :| s in c.policies[id].services && s in c.services &&
               !(GrantedBeside(c, i, id, Dial, s) && GrantedBeside(c, i, id, Bind, s));
      FlipAt(c, i, id, e.policyName, e.policyType, s);
    } else {
      forall t, s ensures Visible(c, i, t, s) <==> Visible(d, i, t, s) {
        FlipAt(c, i, id, e.policyName, e.policyType, s);
      }
      forall s | Reaches(c, i, s) ensures SameService(c, d, i, s) {
        SameServiceAt(c, d, i, s);
      }
      forall k ensures Checked(c, i, k) <==> Checked(d, i, k) {
        FlipChecks(c, i, id, e.policyName, e.policyType, k);
      }
    }
  }

  lemma FlipChecks(c: Content, i: Id, id: Id, name: Text, t: PolicyType, k: Id)
    requires id in c.policies
    ensures Checked(c, i, k) <==> Checked(PutPolicyContent(c, id, name, t), i, k)
  {
    var d := PutPolicyContent(c, id, name, t);
    assert forall p :: Member(c, i, p) <==> Member(d, i, p);
    assert forall p :: Member(c, i, p) ==>
                       c.policies[p].checks == d.policies[p].checks && c.policies[p].services == d.policies[p].services;
  }

  // ---- configs and their types ------------------------------------------------------------------------------------

  /** Only configs and config types differ. */
  lemma ConfigView(c: Content, d: Content, i: Id)
    requires d == c.(configs := d.configs, configTypes := d.configTypes)
    ensures SameView(c, d, i) <==> forall s, k :: Reaches(c, i, s) && Uses(c, i, s, k) ==> Load(c, k) == Load(d, k)
  {
    assert forall p, t, s :: Grants(c, i, p, t, s) <==> Grants(d, i, p, t, s);
    assert forall t, s :: Visible(c, i, t, s) <==> Visible(d, i, t, s);
    assert forall p :: Member(c, i, p) <==> Member(d, i, p);
    assert forall k :: Checked(c, i, k) <==> Checked(d, i, k);
    assert forall s :: OverridesOf(c, i, s) == OverridesOf(d, i, s);
  }

  /** A config an identity's list takes in is one it uses. */
  lemma UsedIsUsed(c: Content, i: Id, s: Id, k: Id)
    requires Reaches(c, i, s) && Uses(c, i, s, k)
    ensures UsesConfig(c, i, k)
  {
    var p, t := GrantorOf(c, i, s);
    if k in c.services[s].configs {
      assert Member(c, i, p) && s in c.policies[p].services;
    }
  }

  lemma ConfigTypeEventView(c: Content, e: Event, i: Id)
    requires e.ConfigTypeEvent? && !Noticed(c, e, i)
    ensures SameView(c, Step(c, e), i) <==> !Silent(c, e, i)
  {
    var d := Step(c, e);
    ConfigView(c, d, i);
    forall s, k | Reaches(c, i, s) && Uses(c, i, s, k)
      ensures Load(c, k) == Load(d, k) <==>
              !(e.action.Delete? && e.id in c.configTypes && k in c.configs && c.configs[k].typeId == e.id)
    {
      UsedIsUsed(c, i, s, k);
    }
  }

  lemma ConfigEventView(c: Content, e: Event, i: Id)
    requires e.ConfigEvent? && !Noticed(c, e, i)
    ensures SameView(c, Step(c, e), i) <==> !Silent(c, e, i)
  {
    var d := Step(c, e);
    ConfigView(c, d, i);
    forall s, k | Reaches(c, i, s) && Uses(c, i, s, k)
      ensures Load(c, k) == Load(d, k) <==>
              !(k == e.id && !e.action.Delete? && e.id !in c.configs && e.config.typeId in c.configTypes)
    {
      UsedIsUsed(c, i, s, k);
    }
  }

  // ---- the main result --------------------------------------------------------------------------------------------

  lemma SilentNoticesNobody(c: Content, e: Event, i: Id)
    requires Silent(c, e, i)
    ensures !Noticed(c, e, i)
  {
  }

  /** An identity that stays is affected without being noticed exactly by the three kinds of silent events. */
  lemma ViewChangesUnnoticedIff(c: Content, e: Event, i: Id)
    requires Closed(c) && WellFormed(c, e) && !(e.IdentityEvent? && e.action.Delete? && e.id == i)
    ensures !SameView(c, Step(c, e), i) && !Noticed(c, e, i) <==> Silent(c, e, i)
  {
    if Silent(c, e, i) {
      SilentNoticesNobody(c, e, i);
    }
    if !Noticed(c, e, i) {
      match e {
        case ConfigTypeEvent(_, _, _) => ConfigTypeEventView(c, e, i);
        case ConfigEvent(_, _, _) => ConfigEventView(c, e, i);
        case IdentityEvent(_, _, _) => IdentityEventView(c, e, i);
        case ServiceEvent(_, _, _) => ServiceEventView(c, e, i);
        case CheckEvent(_, _, _) => CheckEventView(c, e, i);
        case ChangeEvent(_) => MembershipView(c, e, i);
        case PolicyEvent(a, id, _, t) =>
          if !Member(c, i, id) {
            MembershipView(c, e, i);
          } else if c.policies[id].policyType != t {
            FlipViewIff(c, e, i);
          } else {
            SameTypeView(c, e, i);
          }
      }
    }
  }

  lemma SameTypeView(c: Content, e: Event, i: Id)
    requires e.PolicyEvent? && !e.action.Delete? && e.id in c.policies && c.policies[e.id].policyType == e.policyType
    ensures SameView(c, Step(c, e), i)
  {
    var d := Step(c, e);
    forall s | s in c.services ensures SameService(c, d, i, s) {
      SameServiceAt(c, d, i, s);
    }
    SameViewFrame(c, d, i);
  }

  // ---- and on the receiver ----------------------------------------------------------------------------------------

  /** The back-references that decide whom to notify are exact. */
  ghost predicate ReferencesExact(m: R.Model) {
    ReceiverOk(m) && Refs.ServiceRefsExact(m)
  }

  lemma MemberIsNotified(m: R.Model, i: Id, p: Id, touched: set<Id>)
    requires i in m.identities && Member(ReceiverContent(m), i, p) && p in touched
    ensures i in MembersOf(m.policies, m.identities.Keys, touched)
  {
    assert p in m.policies && i in m.policies[p].identities;
  }

  lemma LinkedPolicy(m: R.Model, p: Id, s: Id)
    requires Refs.Links(m) && p in m.policies && s in m.policies[p].services && s in m.services
    ensures p in m.services[s].policies
  {
  }

  /** The users of a config are reached through its references. */
  lemma UserIsNotified(m: R.Model, i: Id, k: Id, services: set<Id>, identities: set<Id>)
    requires ReferencesExact(m) && i in m.identities && k in m.configs && UsesConfig(ReceiverContent(m), i, k)
    requires m.configs[k].services <= services && m.configs[k].identities <= identities
    ensures i in ConfigUsers(m, services, identities)
  {
    var c := ReceiverContent(m);
    if s, p :| Member(c, i, p) && s in c.policies[p].services && s in c.services && k in c.services[s].configs {
      assert Refs.ServiceRefsExactAt(m, k, s);
      LinkedPolicy(m, p, s);
      assert s in services && s in m.services && p in m.services[s].policies;
      assert p in R.PoliciesOf(m.services, services);
      MemberIsNotified(m, i, p, R.PoliciesOf(m.services, services));
    } else {
      assert i in m.configs[k].identities;
    }
  }

  lemma TypeUserIsNotified(m: R.Model, i: Id, k: Id, t: Id)
    requires ReferencesExact(m) && i in m.identities && k in m.configs && m.configs[k].data.typeId == t
    requires UsesConfig(ReceiverContent(m), i, k)
    ensures i in ConfigUsers(m, R.ServicesOfType(m.configs, t), IdentitiesOfType(m.configs, t))
  {
    var services, identities := R.ServicesOfType(m.configs, t), IdentitiesOfType(m.configs, t);
    forall s | s in m.configs[k].services ensures s in services {
    }
    forall j | j in m.configs[k].identities ensures j in identities {
    }
    UserIsNotified(m, i, k, services, identities);
  }

  /** Everyone the content says is concerned is found by the handlers. */
  lemma NoticedIsNotified(m: R.Model, e: Event, i: Id)
    requires ReferencesExact(m) && i in m.identities && Noticed(ReceiverContent(m), e, i)
    ensures i in Notified(m, e)
  {
    var c := ReceiverContent(m);
    match e {
      case ConfigTypeEvent(_, id, _) =>
        var k :| k in c.configs && c.configs[k].typeId == id && UsesConfig(c, i, k);
        TypeUserIsNotified(m, i, k, id);
      case ConfigEvent(_, id, _) =>
        UserIsNotified(m, i, id, m.configs[id].services, m.configs[id].identities);
      case ServiceEvent(a, id, _) =>
        var p :| Member(c, i, p) && id in c.policies[p].services;
        LinkedPolicy(m, p, id);
        MemberIsNotified(m, i, p, if a.Delete? then R.PoliciesWithService(m, id) else m.services[id].policies);
      case CheckEvent(a, id, _) =>
        var p :| Member(c, i, p) && id in c.policies[p].checks;
        assert p in m.policies && id in m.policies[p].checks;
        MemberIsNotified(m, i, p, if a.Delete? then R.PoliciesWithCheck(m, id) else m.checks[id].policies);
      case _ =>
    }
  }

  lemma SilentNotifiesNobody(m: R.Model, e: Event, i: Id)
    requires Silent(ReceiverContent(m), e, i)
    ensures Notified(m, e) == {}
  {
  }

  /**
   On the receiver: an event changes what a remaining identity's list is computed from without asking for its re-check
   if and only if it is silent about that identity.
   */
  lemma UninformedIff(m: R.Model, index: nat, e: Event, i: Id)
    requires ReferencesExact(m) && Closed(ReceiverContent(m)) && WellFormed(ReceiverContent(m), e)
    requires i in m.identities && !(e.IdentityEvent? && e.action.Delete? && e.id == i)
    ensures !SameView(ReceiverContent(m), ReceiverContent(R.Handle(m, index, e)), i) && i !in Notified(m, e) <==>
            Silent(ReceiverContent(m), e, i)
  {
    var c := ReceiverContent(m);
    ReceiverRefines(m, index, e);
    ViewChangesUnnoticedIff(c, e, i);
    if Noticed(c, e, i) {
      NoticedIsNotified(m, e, i);
    }
    if Silent(c, e, i) {
      SilentNotifiesNobody(m, e, i);
    }
  }
}
