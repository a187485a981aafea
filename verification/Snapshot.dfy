/**
 Full state snapshots (getDataStateAlreadyLocked on both sides) and the receiver rebuilt from one
 (NewReceiverRouterDataModelFromDataState).
 */
module Snapshot {
  import opened Types
  import opened Relations
  import opened IdentityExactness
  import opened Refinement
  import Identities
  import Inv = ReceiverInvariants
  import R = Receiver
  import S = Sender

  /** What a snapshot reads: the content, with service config lists as lists. */
  datatype Source = Source(
    configTypes: map<Id, Text>,
    configs: map<Id, ConfigData>,
    identities: map<Id, IdentityData>,
    services: map<Id, ServiceData>,
    checks: map<Id, Text>,
    policies: map<Id, PolicyContent>)

  ghost function ContentOf(src: Source): Content {
    Content(src.configTypes, src.configs, src.identities, SenderServices(src.services), src.checks, src.policies)
  }

  ghost function SenderSource(s: S.SenderModel): Source {
    Source(s.configTypes, s.configs, SenderIdentities(s.identities), s.services, s.checks,
           SenderPolicies(s.policies, s.identities))
  }

  /** The receiver, too, takes a policy's identities from the identities' own lists. */
  ghost function ReceiverMembers(m: R.Model, p: Id): set<Id> {
    set i | i in m.identities && p in m.identities[i].policies
  }

  ghost function ReceiverSource(m: R.Model): Source {
    Source(TypeContents(m.configTypes), ConfigContents(m.configs), IdentityContents(m.identities),
           map s | s in m.services :: m.services[s].data, CheckContents(m.checks),
           map p | p in m.policies :: PolicyContentOf(m.policies[p]).(identities := ReceiverMembers(m, p)))
  }

  /** The orders in which the maps happen to be walked. */
  datatype Order = Order(
    configTypes: seq<Id>, configs: seq<Id>, identities: seq<Id>, services: seq<Id>, checks: seq<Id>, policies: seq<Id>,
    policyServices: map<Id, seq<Id>>, policyChecks: map<Id, seq<Id>>, policyIdentities: map<Id, seq<Id>>)

  ghost predicate OrdersPolicy(src: Source, o: Order, p: Id)
    requires p in src.policies
  {
    && p in o.policyServices && Enumerates(o.policyServices[p], src.policies[p].services)
    && p in o.policyChecks && Enumerates(o.policyChecks[p], src.policies[p].checks)
    && p in o.policyIdentities && Enumerates(o.policyIdentities[p], src.policies[p].identities)
  }

  ghost predicate Orders(src: Source, o: Order) {
    && Enumerates(o.configTypes, src.configTypes.Keys)
    && Enumerates(o.configs, src.configs.Keys)
    && Enumerates(o.identities, src.identities.Keys)
    && Enumerates(o.services, src.services.Keys)
    && Enumerates(o.checks, src.checks.Keys)
    && Enumerates(o.policies, src.policies.Keys)
    && (forall p :: p in src.policies ==> OrdersPolicy(src, o, p))
  }

  // ---- the events of a snapshot --------------------------------------------------------------------------

  function TypeEvents(types: map<Id, Text>, ids: seq<Id>): seq<Event>
    requires Known(ids, types.Keys)
  {
    seq(|ids|, k requires 0 <= k < |ids| => ConfigTypeEvent(Create, ids[k], types[ids[k]]))
  }

  function ConfigEvents(configs: map<Id, ConfigData>, ids: seq<Id>): seq<Event>
    requires Known(ids, configs.Keys)
  {
    seq(|ids|, k requires 0 <= k < |ids| => ConfigEvent(Create, ids[k], configs[ids[k]]))
  }

  function IdentityEvents(identities: map<Id, IdentityData>, ids: seq<Id>): seq<Event>
    requires Known(ids, identities.Keys)
  {
    seq(|ids|, k requires 0 <= k < |ids| => IdentityEvent(Create, ids[k], identities[ids[k]]))
  }

  function ServiceEvents(services: map<Id, ServiceData>, ids: seq<Id>): seq<Event>
    requires Known(ids, services.Keys)
  {
    seq(|ids|, k requires 0 <= k < |ids| => ServiceEvent(Create, ids[k], services[ids[k]]))
  }

  function CheckEvents(checks: map<Id, Text>, ids: seq<Id>): seq<Event>
    requires Known(ids, checks.Keys)
  {
    seq(|ids|, k requires 0 <= k < |ids| => CheckEvent(Create, ids[k], checks[ids[k]]))
  }

  /** A policy, its services, its checks, and its identities if it has any. */
  function PolicyEvents(p: Id, name: Text, t: PolicyType, services: seq<Id>, checks: seq<Id>, identities: seq<Id>)
    : seq<Event>
  {
    [PolicyEvent(Create, p, name, t),
     ChangeEvent(PolicyChange(p, RelatedService, services, true)),
     ChangeEvent(PolicyChange(p, RelatedPostureCheck, checks, true))] +
    if identities == [] then [] else [ChangeEvent(PolicyChange(p, RelatedIdentity, identities, true))]
  }

  ghost function PolicyEventsOf(src: Source, o: Order, p: Id): seq<Event>
    requires p in src.policies && OrdersPolicy(src, o, p)
  {
    PolicyEvents(p, src.policies[p].name, src.policies[p].policyType,
                 o.policyServices[p], o.policyChecks[p], o.policyIdentities[p])
  }

  ghost function AllPolicyEvents(src: Source, o: Order, ids: seq<Id>): seq<Event>
    requires Known(ids, src.policies.Keys)
    requires forall p :: p in src.policies ==> OrdersPolicy(src, o, p)
  {
    if ids == [] then [] else PolicyEventsOf(src, o, ids[0]) + AllPolicyEvents(src, o, ids[1..])
  }

  ghost function SnapshotEvents(src: Source, o: Order): seq<Event>
    requires Orders(src, o)
  {
    TypeEvents(src.configTypes, o.configTypes) + ConfigEvents(src.configs, o.configs) +
    IdentityEvents(src.identities, o.identities) + ServiceEvents(src.services, o.services) +
    CheckEvents(src.checks, o.checks) + AllPolicyEvents(src, o, o.policies)
  }

  // ---- events on the content -----------------------------------------------------------------------------

  ghost function StepAll(c: Content, events: seq<Event>): Content
    decreases |events|
  {
    if events == [] then c else StepAll(Step(c, events[0]), events[1..])
  }

  ghost predicate WellFormedAll(c: Content, events: seq<Event>)
    decreases |events|
  {
    events == [] || (WellFormed(c, events[0]) && WellFormedAll(Step(c, events[0]), events[1..]))
  }

  /** Events that only add, by genuine service and posture check deltas. What they name need not exist. */
  ghost predicate Filling(c: Content, e: Event) {
    match e
    case ChangeEvent(change) =>
      && change.add
      && (change.policyId in c.policies ==>
            match change.related
            case RelatedIdentity => true
            case RelatedService => Genuine(c.policies[change.policyId].services, change.ids, true)
            case RelatedPostureCheck => Genuine(c.policies[change.policyId].checks, change.ids, true))
    case _ => !e.action.Delete?
  }

  /** A filling event that, where everything referred to exists, is also well-formed. */
  ghost predicate Fills(c: Content, e: Event, closed: bool) {
    Filling(c, e) && (closed ==> WellFormed(c, e))
  }

  ghost predicate FillingAll(c: Content, events: seq<Event>, closed: bool)
    decreases |events|
  {
    events == [] || (Fills(c, events[0], closed) && FillingAll(Step(c, events[0]), events[1..], closed))
  }

  lemma {:induction false} Sequenced(c: Content, es: seq<Event>, fs: seq<Event>, closed: bool)
    ensures StepAll(c, es + fs) == StepAll(StepAll(c, es), fs)
    ensures FillingAll(c, es + fs, closed) <==> FillingAll(c, es, closed) && FillingAll(StepAll(c, es), fs, closed)
    decreases |es|
  {
    if es == [] {
      assert es + fs == fs;
    } else {
      assert (es + fs)[1..] == es[1..] + fs;
      Sequenced(Step(c, es[0]), es[1..], fs, closed);
    }
  }

  lemma {:induction false} FillingIsWellFormed(c: Content, events: seq<Event>)
    requires FillingAll(c, events, true)
    ensures WellFormedAll(c, events)
    decreases |events|
  {
    if events != [] {
      FillingIsWellFormed(Step(c, events[0]), events[1..]);
    }
  }

  lemma FillingIsSafe(m: R.Model, e: Event)
    requires Filling(ReceiverContent(m), e)
    ensures Inv.SafeEvent(m, e)
  {
    if e.ChangeEvent? && e.change.policyId in m.policies {
      var change := e.change;
      assert PolicyContents(m.policies)[change.policyId] == PolicyContentOf(m.policies[change.policyId]);
      match change.related
      case RelatedIdentity =>
      case RelatedService => Inv.GenuineIsSafe(m, change.policyId, change.ids, change.add);
      case RelatedPostureCheck => Inv.GenuineCheckIsSafe(m, change.policyId, change.ids, change.add);
    }
  }

  lemma FillingContent(m: R.Model, index: nat, e: Event)
    requires Filling(ReceiverContent(m), e)
    ensures ReceiverContent(R.Handle(m, index, e)) == Step(ReceiverContent(m), e)
  {
    match e
    case ConfigTypeEvent(_, id, name) => ReceiverPutConfigType(m, index, id, name);
    case ConfigEvent(_, id, data) => ReceiverPutConfig(m, index, id, data);
    case IdentityEvent(_, id, data) => ReceiverPutIdentity(m, index, id, data);
    case ServiceEvent(_, id, data) => ReceiverPutService(m, index, id, data);
    case PolicyEvent(_, id, name, t) => ReceiverPutPolicy(m, index, id, name, t);
    case CheckEvent(_, id, data) => ReceiverPutCheck(m, index, id, data);
    case ChangeEvent(change) => if change.policyId in m.policies { ReceiverChange(m, index, change); }
  }

  /** A receiver that applies filling events follows the content, with its counters and use counts exact throughout. */
  lemma {:induction false} ReceiverFills(m: R.Model, index: nat, events: seq<Event>)
    requires Inv.Exact(m) && FillingAll(ReceiverContent(m), events, false)
    ensures ReceiverContent(R.HandleAll(m, index, events)) == StepAll(ReceiverContent(m), events)
    ensures Inv.Exact(R.HandleAll(m, index, events))
    decreases |events|
  {
    if events != [] {
      FillingIsSafe(m, events[0]);
      FillingContent(m, index, events[0]);
      Inv.HandleKeepsExact(m, index, events[0]);
      ReceiverFills(R.Handle(m, index, events[0]), index, events[1..]);
    }
  }

  /** A receiver that applies well-formed events follows the content and keeps its invariants. */
  lemma {:induction false} ReceiverFollows(m: R.Model, index: nat, events: seq<Event>)
    requires ReceiverOk(m) && Closed(ReceiverContent(m)) && WellFormedAll(ReceiverContent(m), events)
    ensures ReceiverContent(R.HandleAll(m, index, events)) == StepAll(ReceiverContent(m), events)
    ensures ReceiverOk(R.HandleAll(m, index, events)) && Closed(StepAll(ReceiverContent(m), events))
    decreases |events|
  {
    if events != [] {
      ReceiverRefines(m, index, events[0]);
      StepKeepsClosed(ReceiverContent(m), events[0]);
      ReceiverFollows(R.Handle(m, index, events[0]), index, events[1..]);
    }
  }

  // ---- phases --------------------------------------------------------------------------------------------

  function Restrict<T>(m: map<Id, T>, ids: seq<Id>): map<Id, T> {
    map x | x in ids && x in m :: m[x]
  }

  lemma RestrictAll<T>(m: map<Id, T>, ids: seq<Id>)
    requires Enumerates(ids, m.Keys)
    ensures map[] + Restrict(m, ids) == m
  {
    assert forall x :: x in m <==> x in ToSet(ids);
  }

  lemma RestrictTail<T>(m: map<Id, T>, base: map<Id, T>, ids: seq<Id>)
    requires ids != [] && Known(ids, m.Keys)
    ensures base[ids[0] := m[ids[0]]] + Restrict(m, ids[1..]) == base + Restrict(m, ids)
  {
    assert ids == [ids[0]] + ids[1..];
    assert forall x :: x in ids <==> x == ids[0] || x in ids[1..];
  }

  lemma {:induction false} TypePhase(c: Content, types: map<Id, Text>, ids: seq<Id>, closed: bool)
    requires Known(ids, types.Keys)
    ensures FillingAll(c, TypeEvents(types, ids), closed)
    ensures StepAll(c, TypeEvents(types, ids)) == c.(configTypes := c.configTypes + Restrict(types, ids))
    decreases |ids|
  {
    if ids == [] {
      assert c.configTypes + Restrict(types, ids) == c.configTypes;
    } else {
      assert TypeEvents(types, ids)[1..] == TypeEvents(types, ids[1..]);
      TypePhase(c.(configTypes := c.configTypes[ids[0] := types[ids[0]]]), types, ids[1..], closed);
      RestrictTail(types, c.configTypes, ids);
    }
  }

  lemma {:induction false} ConfigPhase(c: Content, configs: map<Id, ConfigData>, ids: seq<Id>, closed: bool)
    requires Known(ids, configs.Keys)
    ensures FillingAll(c, ConfigEvents(configs, ids), closed)
    ensures StepAll(c, ConfigEvents(configs, ids)) == c.(configs := c.configs + Restrict(configs, ids))
    decreases |ids|
  {
    if ids == [] {
      assert c.configs + Restrict(configs, ids) == c.configs;
    } else {
      assert ConfigEvents(configs, ids)[1..] == ConfigEvents(configs, ids[1..]);
      ConfigPhase(c.(configs := c.configs[ids[0] := configs[ids[0]]]), configs, ids[1..], closed);
      RestrictTail(configs, c.configs, ids);
    }
  }

  lemma {:induction false} IdentityPhase(c: Content, identities: map<Id, IdentityData>, ids: seq<Id>, closed: bool)
    requires Known(ids, identities.Keys)
    requires closed ==> forall x :: x in identities ==> Referenced(identities[x].serviceConfigs) <= c.configs.Keys
    ensures FillingAll(c, IdentityEvents(identities, ids), closed)
    ensures StepAll(c, IdentityEvents(identities, ids)) == c.(identities := c.identities + Restrict(identities, ids))
    decreases |ids|
  {
    if ids == [] {
      assert c.identities + Restrict(identities, ids) == c.identities;
    } else {
      assert IdentityEvents(identities, ids)[1..] == IdentityEvents(identities, ids[1..]);
      IdentityPhase(c.(identities := c.identities[ids[0] := identities[ids[0]]]), identities, ids[1..], closed);
      RestrictTail(identities, c.identities, ids);
    }
  }

  lemma {:induction false} ServicePhase(c: Content, services: map<Id, ServiceData>, ids: seq<Id>, closed: bool)
    requires Known(ids, services.Keys)
    ensures FillingAll(c, ServiceEvents(services, ids), closed)
    ensures StepAll(c, ServiceEvents(services, ids)) ==
            c.(services := c.services + Restrict(SenderServices(services), ids))
    decreases |ids|
  {
    if ids == [] {
      assert c.services + Restrict(SenderServices(services), ids) == c.services;
    } else {
      assert ServiceEvents(services, ids)[1..] == ServiceEvents(services, ids[1..]);
      ServicePhase(c.(services := c.services[ids[0] := ServiceContentOf(services[ids[0]])]), services, ids[1..],
                   closed);
      RestrictTail(SenderServices(services), c.services, ids);
    }
  }

  lemma {:induction false} CheckPhase(c: Content, checks: map<Id, Text>, ids: seq<Id>, closed: bool)
    requires Known(ids, checks.Keys)
    ensures FillingAll(c, CheckEvents(checks, ids), closed)
    ensures StepAll(c, CheckEvents(checks, ids)) == c.(checks := c.checks + Restrict(checks, ids))
    decreases |ids|
  {
    if ids == [] {
      assert c.checks + Restrict(checks, ids) == c.checks;
    } else {
      assert CheckEvents(checks, ids)[1..] == CheckEvents(checks, ids[1..]);
      CheckPhase(c.(checks := c.checks[ids[0] := checks[ids[0]]]), checks, ids[1..], closed);
      RestrictTail(checks, c.checks, ids);
    }
  }

  /** Everything policies refer to is in place. */
  ghost predicate Ready(c: Content, src: Source) {
    c.services.Keys == src.services.Keys && c.checks.Keys == src.checks.Keys && c.identities.Keys == src.identities.Keys
  }

  ghost function WithPolicy(c: Content, p: Id, q: PolicyContent): Content {
    c.(policies := c.policies[p := q])
  }

  lemma FillServices(c: Content, p: Id, q: PolicyContent, ids: seq<Id>)
    requires Enumerates(ids, q.services)
    ensures
      var e := ChangeEvent(PolicyChange(p, RelatedService, ids, true));
      && Filling(WithPolicy(c, p, q.(services := {})), e)
      && (q.services <= c.services.Keys ==> WellFormed(WithPolicy(c, p, q.(services := {})), e))
      && Step(WithPolicy(c, p, q.(services := {})), e) == WithPolicy(c, p, q)
  {
    assert {} + ToSet(ids) == q.services;
  }

  lemma FillChecks(c: Content, p: Id, q: PolicyContent, ids: seq<Id>)
    requires Enumerates(ids, q.checks)
    ensures
      var e := ChangeEvent(PolicyChange(p, RelatedPostureCheck, ids, true));
      && Filling(WithPolicy(c, p, q.(checks := {})), e)
      && (q.checks <= c.checks.Keys ==> WellFormed(WithPolicy(c, p, q.(checks := {})), e))
      && Step(WithPolicy(c, p, q.(checks := {})), e) == WithPolicy(c, p, q)
  {
    assert {} + ToSet(ids) == q.checks;
  }

  lemma FillIdentities(c: Content, p: Id, q: PolicyContent, ids: seq<Id>)
    requires Enumerates(ids, q.identities) && q.identities <= c.identities.Keys
    ensures
      var e := ChangeEvent(PolicyChange(p, RelatedIdentity, ids, true));
      && Filling(WithPolicy(c, p, q.(identities := {})), e)
      && WellFormed(WithPolicy(c, p, q.(identities := {})), e)
      && Step(WithPolicy(c, p, q.(identities := {})), e) == WithPolicy(c, p, q)
  {
    assert ToSet(ids) * c.identities.Keys == q.identities;
    assert {} + q.identities == q.identities;
  }

  /** The identities a policy lists are there: the one reference a snapshot cannot reproduce dangling. */
  ghost predicate MembersKnown(src: Source) {
    forall p :: p in src.policies ==> src.policies[p].identities <= src.identities.Keys
  }

  lemma OnePolicy(c: Content, src: Source, o: Order, p: Id, closed: bool)
    requires p in src.policies && OrdersPolicy(src, o, p) && Ready(c, src) && MembersKnown(src) && p !in c.policies
    requires closed ==> Closed(ContentOf(src))
    ensures FillingAll(c, PolicyEventsOf(src, o, p), closed)
    ensures StepAll(c, PolicyEventsOf(src, o, p)) == WithPolicy(c, p, src.policies[p])
  {
    var q := src.policies[p];
    assert SenderServices(src.services).Keys == src.services.Keys;
    PolicyFromParts(c, p, q, o.policyServices[p], o.policyChecks[p], o.policyIdentities[p], closed);
  }

  lemma PolicyFromParts(
    c: Content, p: Id, q: PolicyContent, ss: seq<Id>, ks: seq<Id>, members: seq<Id>, closed: bool)
    requires Enumerates(ss, q.services) && Enumerates(ks, q.checks) && Enumerates(members, q.identities)
    requires q.identities <= c.identities.Keys && p !in c.policies
    requires closed ==> q.services <= c.services.Keys && q.checks <= c.checks.Keys
    ensures FillingAll(c, PolicyEvents(p, q.name, q.policyType, ss, ks, members), closed)
    ensures StepAll(c, PolicyEvents(p, q.name, q.policyType, ss, ks, members)) == WithPolicy(c, p, q)
  {
    var e0 := PolicyEvent(Create, p, q.name, q.policyType);
    var e1 := ChangeEvent(PolicyChange(p, RelatedService, ss, true));
    var e2 := ChangeEvent(PolicyChange(p, RelatedPostureCheck, ks, true));
    var e3 := ChangeEvent(PolicyChange(p, RelatedIdentity, members, true));
    var q2 := q.(identities := {});
    FillServices(c, p, q2.(checks := {}), ss);
    FillChecks(c, p, q2, ks);
    ThreeSteps(c, e0, e1, e2, closed);
    assert StepAll(c, [e0, e1, e2]) == WithPolicy(c, p, q2);
    if members == [] {
      assert PolicyEvents(p, q.name, q.policyType, ss, ks, members) == [e0, e1, e2];
      assert q.identities == ToSet(members) == {};
      assert q2 == q;
    } else {
      assert PolicyEvents(p, q.name, q.policyType, ss, ks, members) == [e0, e1, e2] + [e3];
      FillIdentities(c, p, q, members);
      Sequenced(c, [e0, e1, e2], [e3], closed);
      OneStep(WithPolicy(c, p, q2), e3, closed);
    }
  }

  lemma OneStep(c: Content, e: Event, closed: bool)
    ensures StepAll(c, [e]) == Step(c, e)
    ensures FillingAll(c, [e], closed) <==> Fills(c, e, closed)
  {
    assert [e][1..] == [];
    assert StepAll(Step(c, e), []) == Step(c, e);
  }

  lemma ThreeSteps(c: Content, e0: Event, e1: Event, e2: Event, closed: bool)
    ensures StepAll(c, [e0, e1, e2]) == Step(Step(Step(c, e0), e1), e2)
    ensures FillingAll(c, [e0, e1, e2], closed) <==>
            Fills(c, e0, closed) && Fills(Step(c, e0), e1, closed) && Fills(Step(Step(c, e0), e1), e2, closed)
  {
    assert [e0, e1, e2] == [e0] + ([e1] + [e2]);
    Sequenced(c, [e0], [e1] + [e2], closed);
    Sequenced(Step(c, e0), [e1], [e2], closed);
    OneStep(c, e0, closed);
    OneStep(Step(c, e0), e1, closed);
    OneStep(Step(Step(c, e0), e1), e2, closed);
  }

  lemma {:induction false} PolicyPhase(c: Content, src: Source, o: Order, ids: seq<Id>, closed: bool)
    requires Known(ids, src.policies.Keys) && forall p :: p in src.policies ==> OrdersPolicy(src, o, p)
    requires forall k :: 0 <= k < |ids| ==> ids[k] !in c.policies
    requires Distinct(ids) && Ready(c, src) && MembersKnown(src) && (closed ==> Closed(ContentOf(src)))
    ensures FillingAll(c, AllPolicyEvents(src, o, ids), closed)
    ensures StepAll(c, AllPolicyEvents(src, o, ids)) == c.(policies := c.policies + Restrict(src.policies, ids))
    decreases |ids|
  {
    if ids == [] {
      assert c.policies + Restrict(src.policies, ids) == c.policies;
    } else {
      var p := ids[0];
      var next := WithPolicy(c, p, src.policies[p]);
      OnePolicy(c, src, o, p, closed);
      PolicyPhase(next, src, o, ids[1..], closed);
      Sequenced(c, PolicyEventsOf(src, o, p), AllPolicyEvents(src, o, ids[1..]), closed);
      RestrictTail(src.policies, c.policies, ids);
    }
  }

  // ---- round trip ----------------------------------------------------------------------------------------

  ghost function Empty5(types: map<Id, Text>, configs: map<Id, ConfigData>, identities: map<Id, IdentityData>,
                        services: map<Id, ServiceContent>, checks: map<Id, Text>): Content {
    Content(types, configs, identities, services, checks, map[])
  }

  lemma EntityPhases(src: Source, o: Order, closed: bool)
    requires Orders(src, o) && (closed ==> Closed(ContentOf(src)))
    ensures
      var events := TypeEvents(src.configTypes, o.configTypes) + ConfigEvents(src.configs, o.configs) +
                    IdentityEvents(src.identities, o.identities) + ServiceEvents(src.services, o.services) +
                    CheckEvents(src.checks, o.checks);
      && FillingAll(EmptyContent, events, closed)
      && StepAll(EmptyContent, events) == ContentOf(src).(policies := map[])
  {
    var services := SenderServices(src.services);
    var e1, e2 := TypeEvents(src.configTypes, o.configTypes), ConfigEvents(src.configs, o.configs);
    var e3 := IdentityEvents(src.identities, o.identities);
    var e4, e5 := ServiceEvents(src.services, o.services), CheckEvents(src.checks, o.checks);
    RestrictAll(src.configTypes, o.configTypes);
    RestrictAll(src.configs, o.configs);
    RestrictAll(src.identities, o.identities);
    assert services.Keys == src.services.Keys;
    RestrictAll(services, o.services);
    RestrictAll(src.checks, o.checks);
    var c1 := Empty5(src.configTypes, map[], map[], map[], map[]);
    var c2 := Empty5(src.configTypes, src.configs, map[], map[], map[]);
    var c3 := Empty5(src.configTypes, src.configs, src.identities, map[], map[]);
    var c4 := Empty5(src.configTypes, src.configs, src.identities, services, map[]);
    TypePhase(EmptyContent, src.configTypes, o.configTypes, closed);
    ConfigPhase(c1, src.configs, o.configs, closed);
    IdentityPhase(c2, src.identities, o.identities, closed);
    ServicePhase(c3, src.services, o.services, closed);
    CheckPhase(c4, src.checks, o.checks, closed);
    Sequenced(EmptyContent, e1, e2, closed);
    Sequenced(EmptyContent, e1 + e2, e3, closed);
    Sequenced(EmptyContent, e1 + e2 + e3, e4, closed);
    Sequenced(EmptyContent, e1 + e2 + e3 + e4, e5, closed);
  }

  lemma SnapshotContent(src: Source, o: Order, closed: bool)
    requires Orders(src, o) && MembersKnown(src) && (closed ==> Closed(ContentOf(src)))
    ensures FillingAll(EmptyContent, SnapshotEvents(src, o), closed)
    ensures StepAll(EmptyContent, SnapshotEvents(src, o)) == ContentOf(src)
  {
    EntityPhases(src, o, closed);
    var entities := TypeEvents(src.configTypes, o.configTypes) + ConfigEvents(src.configs, o.configs) +
                    IdentityEvents(src.identities, o.identities) + ServiceEvents(src.services, o.services) +
                    CheckEvents(src.checks, o.checks);
    var c := ContentOf(src).(policies := map[]);
    assert SenderServices(src.services).Keys == src.services.Keys;
    PolicyPhase(c, src, o, o.policies, closed);
    RestrictAll(src.policies, o.policies);
    Sequenced(EmptyContent, entities, AllPolicyEvents(src, o, o.policies), closed);
  }

  /** The receiver built from a snapshot's events. */
  ghost function Rebuilt(events: seq<Event>, endIndex: nat): R.Model {
    R.HandleAll(R.EmptyModel, endIndex, events)
  }

  lemma EmptyOk()
    ensures ReceiverOk(R.EmptyModel) && ReceiverContent(R.EmptyModel) == EmptyContent && Closed(EmptyContent)
  {
    var c := ReceiverContent(R.EmptyModel);
    assert c.configTypes == map[] && c.configs == map[] && c.identities == map[];
    assert c.services == map[] && c.checks == map[] && c.policies == map[];
  }

  /**
   Snapshot round trip: whatever order the maps are walked in, the receiver rebuilt from a snapshot has exactly the
   snapshot's content, memberships included, with all counters and use counts exact. Configs, services and posture
   checks that are referred to need not exist. If they do, the references are exact too.
   */
  lemma RoundTrip(src: Source, o: Order, endIndex: nat)
    requires Orders(src, o) && MembersKnown(src)
    ensures ReceiverContent(Rebuilt(SnapshotEvents(src, o), endIndex)) == ContentOf(src)
    ensures Inv.Exact(Rebuilt(SnapshotEvents(src, o), endIndex))
    ensures Closed(ContentOf(src)) ==> ReceiverOk(Rebuilt(SnapshotEvents(src, o), endIndex))
  {
    EmptyOk();
    SnapshotContent(src, o, false);
    ReceiverFills(R.EmptyModel, endIndex, SnapshotEvents(src, o));
    if Closed(ContentOf(src)) {
      SnapshotContent(src, o, true);
      FillingIsWellFormed(EmptyContent, SnapshotEvents(src, o));
      ReceiverFollows(R.EmptyModel, endIndex, SnapshotEvents(src, o));
    }
  }

  lemma SenderSourceContent(s: S.SenderModel)
    ensures ContentOf(SenderSource(s)) == SenderContent(s) && MembersKnown(SenderSource(s))
  {
  }

  /** The controller's snapshot. The walk over the identities panics at a nil entry. */
  ghost function SenderSnapshot(s: S.SenderModel, o: Order): Option<seq<Event>>
    requires Orders(SenderSource(s), o)
  {
    if NoNil(s) then Some(SnapshotEvents(SenderSource(s), o)) else None
  }

  /**
   The controller has a snapshot to give exactly if it has no nil identity entry, and whatever else dangles in its
   model, the snapshot gives a receiver with the controller's content.
   */
  lemma SenderRoundTrip(s: S.SenderModel, o: Order, endIndex: nat)
    requires Orders(SenderSource(s), o)
    ensures SenderSnapshot(s, o).Some? <==> NoNil(s)
    ensures NoNil(s) ==>
              var m := Rebuilt(SenderSnapshot(s, o).value, endIndex);
              ReceiverContent(m) == SenderContent(s) && Inv.Exact(m) && (Closed(SenderContent(s)) ==> ReceiverOk(m))
  {
    SenderSourceContent(s);
    RoundTrip(SenderSource(s), o, endIndex);
  }

  lemma ReceiverSourceContent(m: R.Model)
    requires Inv.Symmetric(m)
    ensures ContentOf(ReceiverSource(m)) == ReceiverContent(m) && MembersKnown(ReceiverSource(m))
  {
    var c := ContentOf(ReceiverSource(m));
    assert c.services == ServiceContents(m.services);
    forall p | p in m.policies ensures ReceiverMembers(m, p) == m.policies[p].identities {
      forall i ensures i in ReceiverMembers(m, p) <==> i in m.policies[p].identities {
      }
    }
    assert c.policies == PolicyContents(m.policies);
  }

  /** A router's own snapshot, saved and loaded, gives back its content and its posture check use counts. */
  lemma ReceiverRoundTrip(m: R.Model, o: Order, endIndex: nat)
    requires Inv.Exact(m) && Orders(ReceiverSource(m), o)
    ensures
      var n := Rebuilt(SnapshotEvents(ReceiverSource(m), o), endIndex);
      && ReceiverContent(n) == ReceiverContent(m) && Inv.Exact(n)
      && forall i :: i in m.identities ==> i in n.identities && n.identities[i].checks == m.identities[i].checks
  {
    ReceiverSourceContent(m);
    RoundTrip(ReceiverSource(m), o, endIndex);
    UsesFollowContent(m, Rebuilt(SnapshotEvents(ReceiverSource(m), o), endIndex));
  }

  /** Exact use counts are a function of the content. */
  lemma UsesFollowContent(m: R.Model, n: R.Model)
    requires Inv.Exact(m) && Inv.Exact(n) && ReceiverContent(m) == ReceiverContent(n)
    ensures forall i :: i in m.identities ==> i in n.identities && n.identities[i].checks == m.identities[i].checks
  {
    assert m.identities.Keys == IdentityContents(m.identities).Keys;
    assert n.identities.Keys == IdentityContents(n.identities).Keys;
    forall i | i in m.identities ensures n.identities[i].checks == m.identities[i].checks {
      SamePolicyList(m, n, i);
      SameUses(m, n, i);
    }
  }

  lemma PolicyContentAt(m: R.Model, n: R.Model, p: Id)
    requires PolicyContents(m.policies) == PolicyContents(n.policies) && p in m.policies
    ensures p in n.policies && PolicyContentOf(m.policies[p]) == PolicyContentOf(n.policies[p])
  {
    assert p in PolicyContents(m.policies);
    assert PolicyContents(m.policies)[p] == PolicyContentOf(m.policies[p]);
    assert PolicyContents(n.policies)[p] == PolicyContentOf(n.policies[p]);
  }

  lemma SamePolicyList(m: R.Model, n: R.Model, i: Id)
    requires Inv.Symmetric(m) && Inv.Symmetric(n) && ReceiverContent(m) == ReceiverContent(n)
    requires i in m.identities && i in n.identities
    ensures m.identities[i].policies == n.identities[i].policies
  {
    forall p ensures p in m.identities[i].policies <==> p in n.identities[i].policies {
      if p in m.identities[i].policies {
        PolicyContentAt(m, n, p);
      } else if p in n.identities[i].policies {
        PolicyContentAt(n, m, p);
      }
    }
  }

  lemma SameUses(m: R.Model, n: R.Model, i: Id)
    requires Inv.Exact(m) && Inv.Exact(n) && ReceiverContent(m) == ReceiverContent(n)
    requires i in m.identities && i in n.identities && m.identities[i].policies == n.identities[i].policies
    ensures m.identities[i].checks == n.identities[i].checks
  {
    var x, y := m.identities[i], n.identities[i];
    assert Identities.ChecksExact(m.policies, x) && Identities.ChecksExact(n.policies, y);
    forall p | p in x.policies
      ensures p in m.policies && p in n.policies && SameGrants(m.policies[p], n.policies[p])
    {
      PolicyContentAt(m, n, p);
    }
    CountsAgree(m.policies, n.policies, x.policies);
    forall c ensures c in x.checks <==> c in y.checks {
      assert Identities.ChecksExactAt(m.policies, x, c) && Identities.ChecksExactAt(n.policies, y, c);
    }
    forall c | c in x.checks ensures x.checks[c] == y.checks[c] {
      assert Identities.ChecksExactAt(m.policies, x, c) && Identities.ChecksExactAt(n.policies, y, c);
    }
  }
}
