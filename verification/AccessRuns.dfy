/**
 The policy indexes kept with an identity's counters (common/router_data_model.go), by which a subscription decides
 whether to say that the dial or bind policies of a service changed. While an identity is tracked, a counter moves only
 together with its index.
 */
module AccessRuns {
  import opened Types
  import opened Identities
  import opened Receiver
  import opened IndexRuns
  import Inv = ReceiverInvariants

  function Count(a: ServiceAccess, t: PolicyType): int {
    if t == Dial then a.dial else a.bind
  }

  function IndexOf(a: ServiceAccess, t: PolicyType): nat {
    if t == Dial then a.dialIndex else a.bindIndex
  }

  /** A counter that grants something is as before, with its index, or its index is at least the given one. */
  ghost predicate CounterMoved(a: AccessMap, b: AccessMap, index: nat, t: PolicyType, s: Id) {
    s in b ==>
      && (Count(b[s], t) == 0 || IndexOf(b[s], t) >= index ||
          (s in a && Count(b[s], t) == Count(a[s], t) && IndexOf(b[s], t) == IndexOf(a[s], t)))
      && IndexOf(b[s], t) <= Max(IndexOf(Get(a, s), t), index)
  }

  ghost predicate AccessMoved(a: AccessMap, b: AccessMap, index: nat) {
    forall t, s :: CounterMoved(a, b, index, t, s)
  }

  lemma AccessSame(a: AccessMap, index: nat)
    ensures AccessMoved(a, a, index)
  {
  }

  lemma AccessMovedTwice(a: AccessMap, b: AccessMap, c: AccessMap, index: nat)
    requires AccessMoved(a, b, index) && AccessMoved(b, c, index)
    ensures AccessMoved(a, c, index)
  {
    forall t, s ensures CounterMoved(a, c, index, t, s) {
      assert CounterMoved(a, b, index, t, s) && CounterMoved(b, c, index, t, s);
    }
  }

  lemma RegrantedMoved(a: AccessMap, t: PolicyType, n: multiset<Id>, index: nat, add: bool)
    ensures AccessMoved(a, Regranted(a, t, n, index, add), index)
  {
  }

  lemma TouchedMoved(a: AccessMap, t: PolicyType, services: set<Id>, index: nat)
    ensures AccessMoved(a, Touched(a, t, services, index), index)
  {
  }

  lemma LoweredMoved(a: AccessMap, s: Id, dial: nat, bind: nat, index: nat)
    ensures AccessMoved(a, AccessLowered(a, s, dial, bind, index), index)
  {
  }

  lemma ActiveTouchedMoved(ps: Policies, active: set<Id>, a: AccessMap, index: nat)
    ensures AccessMoved(a, AccessTouched(ps, active, a, index), index)
  {
  }

  // ---- one identity ----------------------------------------------------------------------------------------------

  ghost predicate MemberMoved(x: Identity, y: Identity, index: nat) {
    y.tracked == x.tracked && AccessMoved(x.access, y.access, index)
  }

  lemma JoinedMoved(x: Identity, pid: Id, p: Policy, index: nat)
    ensures MemberMoved(x, Joined(x, pid, p, index), index)
  {
    RegrantedMoved(x.access, p.policyType, multiset(p.services), index, true);
    AccessSame(x.access, index);
  }

  lemma LeftMoved(x: Identity, pid: Id, p: Policy, index: nat)
    ensures MemberMoved(x, Left(x, pid, p, index), index)
  {
    RegrantedMoved(x.access, p.policyType, multiset(p.services), index, false);
    AccessSame(x.access, index);
  }

  lemma FlippedMoved(x: Identity, pid: Id, prev: Policy, next: Policy, index: nat)
    ensures MemberMoved(x, Flipped(x, pid, prev, next, index), index)
  {
    var y := Left(x, pid, prev, index);
    LeftMoved(x, pid, prev, index);
    JoinedMoved(y, pid, next, index);
    AccessMovedTwice(x.access, y.access, Flipped(x, pid, prev, next, index).access, index);
  }

  lemma ChecksMovedMoved(x: Identity, pid: Id, p: Policy, ids: multiset<Id>, index: nat, add: bool)
    ensures MemberMoved(x, ChecksMoved(x, pid, p, ids, index, add), index)
  {
    TouchedMoved(x.access, p.policyType, p.services, index);
    AccessSame(x.access, index);
  }

  lemma ServicesMovedMoved(x: Identity, pid: Id, p: Policy, q: Policy, ids: multiset<Id>, index: nat, add: bool)
    ensures MemberMoved(x, MemberServicesMoved(x, pid, p, q, ids, index, add), index)
  {
    var y, z := ServicesMoved(x, pid, p, ids, index, add), MemberServicesMoved(x, pid, p, q, ids, index, add);
    RegrantedMoved(x.access, p.policyType, ids, index, add);
    AccessSame(x.access, index);
    assert MemberMoved(x, y, index);
    ChecksMovedMoved(y, pid, q, multiset(q.checks), index, true);
    ChecksMovedMoved(y, pid, q, multiset(q.checks), index, false);
    if z != y {
      AccessMovedTwice(x.access, y.access, z.access, index);
    }
  }

  lemma ServiceLostMoved(ps: Policies, via: set<Id>, x: Identity, s: Id, index: nat)
    ensures MemberMoved(x, ServiceLost(ps, via, x, s, index), index)
  {
    LoweredMoved(x.access, s, |OfType(ps, via, Dial)|, |OfType(ps, via, Bind)|, index);
    AccessSame(x.access, index);
  }

  lemma CheckLostMoved(ps: Policies, active: set<Id>, x: Identity, c: Id, index: nat)
    ensures MemberMoved(x, CheckLost(ps, active, x, c, index), index)
  {
    ActiveTouchedMoved(ps, active, x.access, index);
    AccessSame(x.access, index);
  }

  // ---- one event -------------------------------------------------------------------------------------------------

  /** An identity that stays keeps its tracking, and its counters move with their indexes. A new one is untracked. */
  ghost predicate AccessStep(m: Model, n: Model, index: nat, x: Id) {
    x in n.identities ==>
      if x in m.identities then MemberMoved(m.identities[x], n.identities[x], index)
      else !n.identities[x].tracked && n.identities[x].access == map[]
  }

  lemma SameAccess(m: Model, n: Model, index: nat, x: Id)
    requires x in n.identities ==>
               x in m.identities && n.identities[x].tracked == m.identities[x].tracked &&
               n.identities[x].access == m.identities[x].access
    ensures AccessStep(m, n, index, x)
  {
    if x in n.identities {
      AccessSame(m.identities[x].access, index);
    }
  }

  lemma PolicyAccess(m: Model, index: nat, id: Id, name: Text, t: PolicyType, x: Id)
    ensures AccessStep(m, PutPolicy(m, index, id, name, t), index, x)
    ensures AccessStep(m, DeletePolicy(m, index, id), index, x)
  {
    if x in m.identities {
      AccessSame(m.identities[x].access, index);
      if id in m.policies {
        var prev, next := m.policies[id], PutPolicy(m, index, id, name, t).policies[id];
        FlippedMoved(m.identities[x], id, prev, next, index);
        LeftMoved(m.identities[x], id, prev, index);
      }
    }
  }

  lemma IdentitiesAccess(m: Model, index: nat, pid: Id, ids: set<Id>, add: bool, x: Id)
    requires pid in m.policies && x in m.identities
    ensures AccessStep(m, ChangeIdentities(m, index, pid, ids, add), index, x)
  {
    AccessSame(m.identities[x].access, index);
    JoinedMoved(m.identities[x], pid, m.policies[pid], index);
    LeftMoved(m.identities[x], pid, m.policies[pid], index);
  }

  lemma ServicesAccess(m: Model, index: nat, pid: Id, ids: seq<Id>, add: bool, x: Id)
    requires pid in m.policies && x in m.identities
    ensures AccessStep(m, ChangeServices(m, index, pid, ids, add), index, x)
  {
    var p, q := m.policies[pid], ChangeServices(m, index, pid, ids, add).policies[pid];
    AccessSame(m.identities[x].access, index);
    ServicesMovedMoved(m.identities[x], pid, p, q, multiset(ids), index, add);
  }

  lemma ChecksAccess(m: Model, index: nat, pid: Id, ids: seq<Id>, add: bool, x: Id)
    requires pid in m.policies && x in m.identities
    ensures AccessStep(m, ChangeChecks(m, index, pid, ids, add), index, x)
  {
    AccessSame(m.identities[x].access, index);
    ChecksMovedMoved(m.identities[x], pid, m.policies[pid], multiset(ids), index, add);
  }

  lemma ChangeAccess(m: Model, index: nat, change: PolicyChange, x: Id)
    ensures AccessStep(m, Change(m, index, change), index, x)
  {
    if x in m.identities {
      var pid, ids, add := change.policyId, change.ids, change.add;
      if pid !in m.policies {
        SameAccess(m, m, index, x);
      } else {
        match change.related
        case RelatedIdentity => IdentitiesAccess(m, index, pid, ToSet(ids), add, x);
        case RelatedService => ServicesAccess(m, index, pid, ids, add, x);
        case RelatedPostureCheck => ChecksAccess(m, index, pid, ids, add, x);
      }
    }
  }

  lemma DeleteAccess(m: Model, index: nat, id: Id, x: Id)
    ensures AccessStep(m, DeleteService(m, index, id), index, x)
    ensures AccessStep(m, DeleteCheck(m, index, id), index, x)
  {
    if x in m.identities {
      var i := m.identities[x];
      AccessSame(i.access, index);
      ServiceLostMoved(m.policies, Via(m.policies, PoliciesWithService(m, id), x, i.policies), i, id, index);
      CheckLostMoved(m.policies, Active(m.policies, PoliciesWithCheck(m, id), x), i, id, index);
    }
  }

  lemma ConfigAccess(m: Model, index: nat, id: Id, data: ConfigData, name: Text, x: Id)
    ensures AccessStep(m, PutConfig(m, index, id, data), index, x)
    ensures AccessStep(m, DeleteConfig(m, index, id), index, x)
    ensures AccessStep(m, PutConfigType(m, index, id, name), index, x)
  {
    SameAccess(m, PutConfig(m, index, id, data), index, x);
    SameAccess(m, DeleteConfig(m, index, id), index, x);
    SameAccess(m, PutConfigType(m, index, id, name), index, x);
  }

  lemma EventAccess(m: Model, index: nat, e: Event, x: Id)
    ensures AccessStep(m, Handle(m, index, e), index, x)
  {
    match e
    case PolicyEvent(_, id, name, t) => PolicyAccess(m, index, id, name, t, x);
    case ChangeEvent(change) => ChangeAccess(m, index, change, x);
    case ServiceEvent(a, id, data) =>
      if a.Delete? { DeleteAccess(m, index, id, x); } else { SameAccess(m, PutService(m, index, id, data), index, x); }
    case CheckEvent(a, id, data) =>
      if a.Delete? { DeleteAccess(m, index, id, x); } else { SameAccess(m, PutCheck(m, index, id, data), index, x); }
    case IdentityEvent(a, id, data) => IdentityAccess(m, index, a, id, data, x);
    case ConfigEvent(_, id, data) => ConfigAccess(m, index, id, data, data.name, x);
    case ConfigTypeEvent(a, id, name) =>
      if a.Delete? { SameAccess(m, DeleteConfigType(m, id), index, x); }
      else { ConfigAccess(m, index, id, ConfigData(id, name, name), name, x); }
  }

  lemma IdentityAccess(m: Model, index: nat, a: Action, id: Id, data: IdentityData, x: Id)
    ensures AccessStep(m, Handle(m, index, IdentityEvent(a, id, data)), index, x)
  {
    if x in m.identities {
      SameAccess(m, Handle(m, index, IdentityEvent(a, id, data)), index, x);
    }
  }

  // ---- over a run ------------------------------------------------------------------------------------------------

  /** The identity is there and tracked in every state of the run. */
  ghost predicate TrackedThroughout(m: Model, ops: seq<Inv.Op>, x: Id)
    decreases |ops|
  {
    && x in m.identities && m.identities[x].tracked
    && (ops == [] || TrackedThroughout(Inv.Step(m, ops[0]), ops[1..], x))
  }

  ghost predicate CounterSince(a: AccessMap, b: AccessMap, i: nat, t: PolicyType, s: Id) {
    s in b ==>
      || Count(b[s], t) == 0 || IndexOf(b[s], t) > i
      || (s in a && Count(b[s], t) == Count(a[s], t) && IndexOf(b[s], t) == IndexOf(a[s], t))
  }

  lemma OpAccess(m: Model, op: Inv.Op, x: Id, index: nat)
    requires x in m.identities && m.identities[x].tracked
    requires x in Inv.Step(m, op).identities && Inv.Step(m, op).identities[x].tracked
    requires op.Receive? ==> index == op.index
    ensures AccessMoved(m.identities[x].access, Inv.Step(m, op).identities[x].access, index)
  {
    if op.Receive? {
      EventAccess(m, op.index, op.event, x);
    } else {
      AccessSame(m.identities[x].access, index);
    }
  }

  /**
   While an identity is tracked, through events of index above i, a counter that grants something and is not what it was
   has an index above i. So wherever the number of dial (bind) policies that grant a service changes and some are left,
   the index tells.
   */
  lemma {:induction false} CounterTells(m: Model, ops: seq<Inv.Op>, i: nat, x: Id, t: PolicyType, s: Id)
    requires Above(ops, i) && TrackedThroughout(m, ops, x)
    ensures x in Inv.AfterAll(m, ops).identities
    ensures CounterSince(m.identities[x].access, Inv.AfterAll(m, ops).identities[x].access, i, t, s)
    decreases |ops|
  {
    if ops != [] {
      var n := Inv.Step(m, ops[0]);
      AboveRest(ops, i);
      CounterTells(n, ops[1..], i, x, t, s);
      var index := if ops[0].Receive? then ops[0].index else i + 1;
      OpAccess(m, ops[0], x, index);
      assert CounterMoved(m.identities[x].access, n.identities[x].access, index, t, s);
    }
  }

  // ---- the indexes stay at or below the router's ------------------------------------------------------------------

  ghost predicate PolicyBounded(ps: Policies, i: nat, p: Id) {
    p in ps ==> ps[p].servicesIndex <= i && ps[p].checksIndex <= i
  }

  ghost predicate AccessBounded(m: Model, i: nat, x: Id) {
    x in m.identities ==>
      forall t, s :: s in m.identities[x].access ==> IndexOf(m.identities[x].access[s], t) <= i
  }

  ghost predicate IndexesBounded(m: Model, i: nat) {
    (forall p :: PolicyBounded(m.policies, i, p)) && forall x :: AccessBounded(m, i, x)
  }

  lemma EventKeepsAccess(m: Model, i: nat, index: nat, e: Event, x: Id)
    requires AccessBounded(m, i, x) && i <= index
    ensures AccessBounded(Handle(m, index, e), index, x)
  {
    var n := Handle(m, index, e);
    EventAccess(m, index, e, x);
    if x in n.identities && x in m.identities {
      forall t, s | s in n.identities[x].access ensures IndexOf(n.identities[x].access[s], t) <= index {
        assert CounterMoved(m.identities[x].access, n.identities[x].access, index, t, s);
      }
    }
  }

  lemma TouchedPolicies(ps: Policies, touched: set<Id>, i: nat, index: nat, p: Id)
    requires PolicyBounded(ps, i, p) && i <= index
    ensures PolicyBounded(PoliciesTouched(ps, touched, index), index, p)
    ensures PolicyBounded(PolicyChecksTouched(ps, touched, index), index, p)
  {
  }

  lemma ConfigKeepsPolicies(m: Model, i: nat, index: nat, id: Id, data: ConfigData, name: Text, p: Id)
    requires PolicyBounded(m.policies, i, p) && i <= index
    ensures PolicyBounded(PutConfig(m, index, id, data).policies, index, p)
    ensures PolicyBounded(DeleteConfig(m, index, id).policies, index, p)
    ensures PolicyBounded(PutConfigType(m, index, id, name).policies, index, p)
  {
    TouchedPolicies(m.policies, PoliciesOf(m.services, ServicesOfType(m.configs, id)), i, index, p);
    if id in m.configs {
      TouchedPolicies(m.policies, PoliciesOf(m.services, m.configs[id].services), i, index, p);
    }
  }

  lemma PutsKeepPolicies(m: Model, i: nat, index: nat, id: Id, service: ServiceData, check: Text, p: Id)
    requires PolicyBounded(m.policies, i, p) && i <= index
    ensures PolicyBounded(PutService(m, index, id, service).policies, index, p)
    ensures PolicyBounded(PutCheck(m, index, id, check).policies, index, p)
  {
    if id in m.services {
      TouchedPolicies(m.policies, m.services[id].policies, i, index, p);
    }
    if id in m.checks {
      TouchedPolicies(m.policies, m.checks[id].policies, i, index, p);
    }
  }

  lemma RestBounded(ps: Policies, gone: set<Id>, id: Id, i: nat, index: nat, p: Id)
    requires PolicyBounded(ps, i, p) && i <= index
    ensures PolicyBounded(PoliciesWithoutService(ps, gone, id, index), index, p)
    ensures PolicyBounded(PoliciesWithoutCheck(ps, gone, id, index), index, p)
    ensures PolicyBounded(PoliciesWithoutIdentity(ps, gone, id), index, p)
  {
  }

  lemma DeletesKeepPolicies(m: Model, i: nat, index: nat, id: Id, p: Id)
    requires PolicyBounded(m.policies, i, p) && i <= index
    ensures PolicyBounded(DeleteService(m, index, id).policies, index, p)
    ensures PolicyBounded(DeleteCheck(m, index, id).policies, index, p)
    ensures PolicyBounded(DeleteIdentity(m, id).policies, index, p)
  {
    RestBounded(m.policies, PoliciesWithService(m, id), id, i, index, p);
    RestBounded(m.policies, PoliciesWithCheck(m, id), id, i, index, p);
    if id in m.identities {
      RestBounded(m.policies, m.identities[id].policies, id, i, index, p);
    }
  }

  lemma OneSetBounded(ps: Policies, id: Id, q: Policy, i: nat, index: nat, p: Id)
    requires PolicyBounded(ps, i, p) && i <= index && (p == id ==> q.servicesIndex <= index && q.checksIndex <= index)
    ensures PolicyBounded(ps[id := q], index, p)
  {
  }

  lemma PolicyPutKeeps(m: Model, i: nat, index: nat, id: Id, name: Text, t: PolicyType, p: Id)
    requires PolicyBounded(m.policies, i, p) && i <= index
    ensures PolicyBounded(PutPolicy(m, index, id, name, t).policies, index, p)
  {
    var q := if id in m.policies
             then m.policies[id].(name := name, policyType := t, servicesIndex := index, checksIndex := 0)
             else Policy(name, t, {}, {}, {}, index, 0);
    OneSetBounded(m.policies, id, q, i, index, p);
    assert PutPolicy(m, index, id, name, t).policies == m.policies[id := q];
  }

  lemma PolicyGoneKeeps(m: Model, i: nat, index: nat, id: Id, p: Id)
    requires PolicyBounded(m.policies, i, p) && i <= index
    ensures PolicyBounded(DeletePolicy(m, index, id).policies, index, p)
  {
  }

  lemma IdentitiesKeepPolicies(m: Model, i: nat, index: nat, pid: Id, ids: set<Id>, add: bool, p: Id)
    requires PolicyBounded(m.policies, i, p) && i <= index && pid in m.policies
    ensures PolicyBounded(ChangeIdentities(m, index, pid, ids, add).policies, index, p)
  {
  }

  lemma ServicesKeepPolicies(m: Model, i: nat, index: nat, pid: Id, ids: seq<Id>, add: bool, p: Id)
    requires PolicyBounded(m.policies, i, p) && i <= index && pid in m.policies
    ensures PolicyBounded(ChangeServices(m, index, pid, ids, add).policies, index, p)
  {
  }

  lemma ChecksKeepPolicies(m: Model, i: nat, index: nat, pid: Id, ids: seq<Id>, add: bool, p: Id)
    requires PolicyBounded(m.policies, i, p) && i <= index && pid in m.policies
    ensures PolicyBounded(ChangeChecks(m, index, pid, ids, add).policies, index, p)
  {
  }

  lemma ChangeKeepsPolicies(m: Model, i: nat, index: nat, change: PolicyChange, p: Id)
    requires PolicyBounded(m.policies, i, p) && i <= index
    ensures PolicyBounded(Change(m, index, change).policies, index, p)
  {
    var pid, ids, add := change.policyId, change.ids, change.add;
    if pid in m.policies {
      match change.related
      case RelatedIdentity => IdentitiesKeepPolicies(m, i, index, pid, ToSet(ids), add, p);
      case RelatedService => ServicesKeepPolicies(m, i, index, pid, ids, add, p);
      case RelatedPostureCheck => ChecksKeepPolicies(m, i, index, pid, ids, add, p);
    }
  }

  lemma EventKeepsPolicies(m: Model, i: nat, index: nat, e: Event, p: Id)
    requires PolicyBounded(m.policies, i, p) && i <= index
    ensures PolicyBounded(Handle(m, index, e).policies, index, p)
  {
    match e
    case ConfigTypeEvent(_, id, name) => ConfigKeepsPolicies(m, i, index, id, ConfigData(id, name, name), name, p);
    case ConfigEvent(_, id, data) => ConfigKeepsPolicies(m, i, index, id, data, data.name, p);
    case ServiceEvent(_, id, data) =>
      PutsKeepPolicies(m, i, index, id, data, data.name, p);
      DeletesKeepPolicies(m, i, index, id, p);
    case CheckEvent(_, id, data) =>
      PutsKeepPolicies(m, i, index, id, ServiceData(data, false, []), data, p);
      DeletesKeepPolicies(m, i, index, id, p);
    case IdentityEvent(_, id, _) => DeletesKeepPolicies(m, i, index, id, p);
    case PolicyEvent(_, id, name, t) =>
      PolicyPutKeeps(m, i, index, id, name, t, p);
      PolicyGoneKeeps(m, i, index, id, p);
    case ChangeEvent(change) => ChangeKeepsPolicies(m, i, index, change, p);
  }

  /** Every event keeps the policy indexes, in policies and with counters, at or below its own. */
  lemma EventKeepsIndexes(m: Model, i: nat, index: nat, e: Event)
    requires IndexesBounded(m, i) && i <= index
    ensures IndexesBounded(Handle(m, index, e), index)
  {
    forall p {
      EventKeepsPolicies(m, i, index, e, p);
    }
    forall x {
      EventKeepsAccess(m, i, index, e, x);
    }
  }

  /** And so does switching tracking on with a list counted from the policies, or off. */
  lemma TrackingKeepsIndexes(m: Model, i: nat, op: Inv.Op)
    requires IndexesBounded(m, i) && !op.Receive? && Inv.Enabled(m, op)
    ensures IndexesBounded(Inv.Step(m, op), i)
  {
    var n := Inv.Step(m, op);
    forall x ensures AccessBounded(n, i, x) {
      assert AccessBounded(m, i, x);
      if op.Enable? && x == op.id && x in m.identities && !m.identities[x].tracked {
        forall t, s | s in op.access ensures IndexOf(op.access[s], t) <= i {
          assert AccessListedAt(m.policies, m.identities[x].policies, op.access, s);
          LatestBounded(m.policies, Granting(m.policies, m.identities[x].policies, t, s), IndexOf(op.access[s], t), i);
        }
      }
    }
  }

  lemma LatestBounded(ps: Policies, via: set<Id>, latest: nat, i: nat)
    requires IsLatest(ps, via, latest) && forall p :: PolicyBounded(ps, i, p)
    ensures latest <= i
  {
    if latest != 0 {
      var p :| p in via && p in ps && Max(ps[p].checksIndex, ps[p].servicesIndex) == latest;
      assert PolicyBounded(ps, i, p);
    }
  }

  /** The events come with indexes from i up to k that do not fall. */
  ghost predicate Rising(ops: seq<Inv.Op>, i: nat, k: nat)
    decreases |ops|
  {
    if ops == [] then i == k
    else if ops[0].Receive? then i <= ops[0].index && Rising(ops[1..], ops[0].index, k)
    else Rising(ops[1..], i, k)
  }

  lemma {:induction false} RunKeepsIndexes(m: Model, i: nat, ops: seq<Inv.Op>, n: Model, k: nat)
    requires IndexesBounded(m, i) && Inv.Run(m, ops, n) && Rising(ops, i, k)
    ensures IndexesBounded(n, k)
    decreases |ops|
  {
    if ops != [] {
      if ops[0].Receive? {
        EventKeepsIndexes(m, i, ops[0].index, ops[0].event);
        RunKeepsIndexes(Inv.Step(m, ops[0]), ops[0].index, ops[1..], n, k);
      } else {
        TrackingKeepsIndexes(m, i, ops[0]);
        RunKeepsIndexes(Inv.Step(m, ops[0]), i, ops[1..], n, k);
      }
    }
  }

  /** In every state a router reaches, no policy index lies above the index of the last event. */
  lemma ReachableIndexes(ops: seq<Inv.Op>, n: Model, k: nat)
    requires Inv.Run(EmptyModel, ops, n) && Rising(ops, 0, k)
    ensures IndexesBounded(n, k)
  {
    RunKeepsIndexes(EmptyModel, 0, ops, n, k);
  }
}
