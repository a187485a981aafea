/**
 Deletes of services and posture checks send the model a change event per policy that still holds the entity
 (common/router_data_model.go). Whatever order those events come in, together they have the effect that module
 Receiver states in closed form: here is the step from some of the policies to one more.
 */
module Cleanup {
  import opened Types
  import opened Identities
  import opened IdentityLoops
  import opened Receiver

  // ---- services ----------------------------------------------------------------------------------------

  /** One more revocation of a service some of whose grants are gone already. */
  lemma LoweredOneMore(access: AccessMap, s: Id, dial: nat, bind: nat, t: PolicyType, index: nat)
    requires AccessOk(access)
    ensures Regranted(AccessLowered(access, s, dial, bind, index), t, multiset{s}, index, false) ==
            AccessLowered(access, s, if t == Dial then dial + 1 else dial, if t == Bind then bind + 1 else bind, index)
  {
    var a := AccessLowered(access, s, dial, bind, index);
    var d, b := if t == Dial then dial + 1 else dial, if t == Bind then bind + 1 else bind;
    var now, more := Regranted(a, t, multiset{s}, index, false), AccessLowered(access, s, d, b, index);
    forall x ensures (x in now <==> x in more) && (x in now ==> now[x] == more[x]) {
      assert x in multiset{s} <==> x == s;
    }
    assert now.Keys == more.Keys;
  }

  lemma OneMoreOfType(ps: Policies, via: set<Id>, p: Id, t: PolicyType)
    requires p in ps && p !in via
    ensures |OfType(ps, via + {p}, t)| == |OfType(ps, via, t)| + if ps[p].policyType == t then 1 else 0
  {
    assert OfType(ps, via + {p}, t) == OfType(ps, via, t) + if ps[p].policyType == t then {p} else {};
  }

  lemma OneMoreEmptied(ps: Policies, via: set<Id>, p: Id, s: Id, c: Id)
    requires p in ps && p !in via
    ensures |Emptied(ps, via + {p}, s, c)| ==
            |Emptied(ps, via, s, c)| + if ps[p].services == {s} && c in ps[p].checks then 1 else 0
  {
    assert Emptied(ps, via + {p}, s, c) ==
           Emptied(ps, via, s, c) + if ps[p].services == {s} && c in ps[p].checks then {p} else {};
  }

  lemma ServiceLostAccess(ps: Policies, via: set<Id>, p: Id, x: Identity, s: Id, index: nat)
    requires p in ps && p !in via && p in x.policies && AccessOk(x.access)
    ensures ServiceLost(ps, via + {p}, x, s, index).access ==
            ServicesMoved(ServiceLost(ps, via, x, s, index), p, ps[p], multiset{s}, index, false).access
  {
    OneMoreOfType(ps, via, p, Dial);
    OneMoreOfType(ps, via, p, Bind);
    LoweredOneMore(x.access, s, |OfType(ps, via, Dial)|, |OfType(ps, via, Bind)|, ps[p].policyType, index);
  }

  lemma ServiceLostChecks(ps: Policies, via: set<Id>, p: Id, x: Identity, s: Id, index: nat)
    requires p in ps && p !in via && p in x.policies
    ensures ServiceLost(ps, via + {p}, x, s, index).checks ==
            if ps[p].services == {s} then UsesDropped(ServiceLost(ps, via, x, s, index).checks, multiset(ps[p].checks))
            else ServiceLost(ps, via, x, s, index).checks
  {
    forall c {
      OneMoreEmptied(ps, via, p, s, c);
    }
    var a := ServiceLost(ps, via + {p}, x, s, index).checks;
    var b := ServiceLost(ps, via, x, s, index).checks;
    var d := if ps[p].services == {s} then UsesDropped(b, multiset(ps[p].checks)) else b;
    forall c ensures (c in a <==> c in d) && (c in a ==> a[c] == d[c]) {
      OneMoreEmptied(ps, via, p, s, c);
    }
    assert a.Keys == d.Keys;
  }

  /** The cleanup event of policy p, for one identity that lists it. */
  lemma ServiceLostOneMore(ps: Policies, via: set<Id>, p: Id, q: Policy, x: Identity, s: Id, index: nat)
    requires p in ps && p !in via && p in x.policies && AccessOk(x.access) && s in ps[p].services
    requires q == ps[p].(services := ps[p].services - {s}, servicesIndex := index)
    ensures MemberServicesMoved(ServiceLost(ps, via, x, s, index), p, ps[p], q, multiset{s}, index, false) ==
            ServiceLost(ps, via + {p}, x, s, index)
  {
    ServiceLostAccess(ps, via, p, x, s, index);
    ServiceLostChecks(ps, via, p, x, s, index);
    assert q.services == {} <==> ps[p].services == {s};
    var j := ServicesMoved(ServiceLost(ps, via, x, s, index), p, ps[p], multiset{s}, index, false);
    assert q.services == {} ==> Touched(j.access, q.policyType, q.services, index) == j.access;
  }

  lemma ViaOneMore(ps: Policies, done: set<Id>, p: Id, i: Id, mine: set<Id>)
    requires p in ps
    ensures Via(ps, done + {p}, i, mine) ==
            Via(ps, done, i, mine) + if i in ps[p].identities && p in mine then {p} else {}
  {
  }

  lemma StrangerUnmoved(x: Identity, p: Id, before: Policy, q: Policy, n: multiset<Id>, index: nat)
    requires p !in x.policies && q.services < before.services
    ensures MemberServicesMoved(x, p, before, q, n, index, false) == x
  {
    assert q.services == {} ==> Touched(x.access, q.policyType, q.services, index) == x.access;
  }

  /** The state after the cleanup events of the policies in done. */
  ghost function ServiceDropped(m: Model, done: set<Id>, s: Id, index: nat): Model {
    m.(policies := PoliciesWithoutService(m.policies, done, s, index),
       identities := AllServiceLost(m.identities, m.policies, done, s, index))
  }

  lemma MemberServicesOneMore(ps: Policies, done: set<Id>, p: Id, q: Policy, i: Id, x: Identity, s: Id, index: nat)
    requires p in ps && p !in done && s in ps[p].services && AccessOk(x.access)
    requires q == ps[p].(services := ps[p].services - {s}, servicesIndex := index)
    ensures
      var lost := ServiceLost(ps, Via(ps, done, i, x.policies), x, s, index);
      ServiceLost(ps, Via(ps, done + {p}, i, x.policies), x, s, index) ==
      if i in ps[p].identities then MemberServicesMoved(lost, p, ps[p], q, multiset{s}, index, false) else lost
  {
    var via := Via(ps, done, i, x.policies);
    ViaOneMore(ps, done, p, i, x.policies);
    if i !in ps[p].identities {
      assert via + {} == via;
    } else if p in x.policies {
      ServiceLostOneMore(ps, via, p, q, x, s, index);
    } else {
      assert via + {} == via;
      StrangerUnmoved(ServiceLost(ps, via, x, s, index), p, ps[p], q, multiset{s}, index);
    }
  }

  lemma IdentitiesOneMore(all: map<Id, Identity>, ps: Policies, done: set<Id>, p: Id, q: Policy, s: Id, index: nat)
    requires p in ps && p !in done && s in ps[p].services
    requires q == ps[p].(services := ps[p].services - {s}, servicesIndex := index)
    requires forall i :: i in all ==> AccessOk(all[i].access)
    ensures AllServicesMoved(AllServiceLost(all, ps, done, s, index), p, ps[p], q, multiset{s}, index, false) ==
            AllServiceLost(all, ps, done + {p}, s, index)
  {
    forall i | i in all {
      MemberServicesOneMore(ps, done, p, q, i, all[i], s, index);
    }
  }

  lemma PoliciesOneMore(ps: Policies, done: set<Id>, p: Id, s: Id, index: nat)
    requires p in ps && p !in done
    ensures PoliciesWithoutService(ps, done, s, index)
              [p := ps[p].(services := ps[p].services - {s}, servicesIndex := index)] ==
            PoliciesWithoutService(ps, done + {p}, s, index)
  {
  }

  lemma ServiceDroppedOneMore(m: Model, done: set<Id>, p: Id, s: Id, index: nat)
    requires s !in m.services && p in m.policies && p !in done && s in m.policies[p].services
    requires forall i :: i in m.identities ==> AccessOk(m.identities[i].access)
    ensures ChangeServices(ServiceDropped(m, done, s, index), index, p, [s], false) ==
            ServiceDropped(m, done + {p}, s, index)
  {
    var before := m.policies[p];
    var q := before.(services := before.services - {s}, servicesIndex := index);
    assert Relisted(before.services, ToSet([s]), false) == before.services - {s};
    assert multiset([s]) == multiset{s};
    assert ServicesLinked(m.services, [s], p, false) == m.services;
    PoliciesOneMore(m.policies, done, p, s, index);
    IdentitiesOneMore(m.identities, m.policies, done, p, q, s, index);
  }

  lemma NothingDropped(m: Model, s: Id, index: nat)
    ensures ServiceDropped(m, {}, s, index) == m
  {
    var n := ServiceDropped(m, {}, s, index);
    assert n.policies == m.policies;
    forall i | i in m.identities ensures n.identities[i] == m.identities[i] {
      var x := m.identities[i];
      assert Via(m.policies, {}, i, x.policies) == {};
      assert OfType(m.policies, {}, Dial) == {} && OfType(m.policies, {}, Bind) == {};
      assert forall c :: Emptied(m.policies, {}, s, c) == {};
      assert n.identities[i].checks == x.checks;
    }
    assert n.identities == m.identities;
  }

  /** A service removed, with the configs' references to it, before any cleanup event. */
  ghost function WithoutService(m: Model, id: Id): Model
    requires id in m.services
  {
    m.(services := m.services - {id},
       configs := ServiceReferences(m.configs, id, multiset(m.services[id].data.configs), multiset{}))
  }

  lemma ServiceDeleteDrops(m: Model, index: nat, id: Id)
    requires id in m.services
    ensures DeleteService(m, index, id) == ServiceDropped(WithoutService(m, id), PoliciesWithService(m, id), id, index)
  {
  }

  /** The cleanup events of the policies in order, one after the other. */
  ghost function ServiceCleaned(m: Model, order: seq<Id>, s: Id, index: nat): Model {
    if order == [] then m
    else
      var n := |order| - 1;
      Change(ServiceCleaned(m, order[..n], s, index), index, PolicyChange(order[n], RelatedService, [s], false))
  }

  /** Whatever order they come in, the cleanup events have the one effect that depends on the policies alone. */
  lemma {:induction false} ServiceCleanedInAnyOrder(m: Model, order: seq<Id>, s: Id, index: nat)
    requires s !in m.services && Distinct(order) && forall i :: i in m.identities ==> AccessOk(m.identities[i].access)
    requires forall k :: 0 <= k < |order| ==> order[k] in m.policies && s in m.policies[order[k]].services
    ensures ServiceCleaned(m, order, s, index) == ServiceDropped(m, ToSet(order), s, index)
  {
    if order == [] {
      NothingDropped(m, s, index);
      assert ToSet(order) == {};
    } else {
      var n := |order| - 1;
      var done := ToSet(order[..n]);
      ServiceCleanedInAnyOrder(m, order[..n], s, index);
      assert order[n] !in done;
      ServiceDroppedOneMore(m, done, order[n], s, index);
      assert order == order[..n] + [order[n]];
      assert ToSet(order) == done + {order[n]};
    }
  }

  /** A service delete is the removal of the service followed by a removal event for each policy that had it. */
  lemma ServiceDeleteByCleanup(m: Model, index: nat, id: Id, order: seq<Id>)
    requires id in m.services && Enumerates(order, PoliciesWithService(m, id))
    requires forall i :: i in m.identities ==> AccessOk(m.identities[i].access)
    ensures DeleteService(m, index, id) == ServiceCleaned(WithoutService(m, id), order, id, index)
  {
    ServiceDeleteDrops(m, index, id);
    ServiceCleanedInAnyOrder(WithoutService(m, id), order, id, index);
  }

  // ---- posture checks ----------------------------------------------------------------------------------

  function Unlinked(checks: map<Id, Check>, done: set<Id>, c: Id): map<Id, Check> {
    if c in checks then checks[c := checks[c].(policies := checks[c].policies - done)] else checks
  }

  ghost function CheckDropped(m: Model, done: set<Id>, c: Id, index: nat): Model {
    m.(policies := PoliciesWithoutCheck(m.policies, done, c, index),
       identities := AllCheckLost(m.identities, m.policies, done, c, index),
       checks := Unlinked(m.checks, done, c),
       panicked := m.panicked || AnyCheckLostPanics(m.identities, m.policies, done))
  }

  lemma ActiveOneMore(ps: Policies, done: set<Id>, p: Id, i: Id)
    requires p in ps
    ensures Active(ps, done + {p}, i) ==
            Active(ps, done, i) + if i in ps[p].identities && ps[p].services != {} then {p} else {}
  {
  }

  lemma TouchedOneMore(ps: Policies, active: set<Id>, p: Id, access: AccessMap, index: nat)
    requires p in ps
    ensures Touched(AccessTouched(ps, active, access, index), ps[p].policyType, ps[p].services, index) ==
            AccessTouched(ps, active + {p}, access, index)
  {
    var more := active + {p};
    forall t, s ensures TouchedBy(ps, more, t, s) <==>
                        TouchedBy(ps, active, t, s) || (ps[p].policyType == t && s in ps[p].services) {
      if ps[p].policyType == t && s in ps[p].services {
        assert p in more;
      }
      if TouchedBy(ps, active, t, s) {
        var q :| q in active && q in ps && ps[q].policyType == t && s in ps[q].services;
        assert q in more;
      }
    }
  }

  lemma CheckLostOneMore(ps: Policies, active: set<Id>, p: Id, x: Identity, c: Id, index: nat)
    requires p in ps && p !in active
    ensures ChecksMoved(CheckLost(ps, active, x, c, index), p, ps[p], multiset{c}, index, false) ==
            CheckLost(ps, active + {p}, x, c, index)
  {
    TouchedOneMore(ps, active, p, x.access, index);
    if p in x.policies {
      assert (active + {p}) * x.policies == (active * x.policies) + {p};
    } else {
      assert (active + {p}) * x.policies == active * x.policies;
    }
    CheckLostChecks(ps, active, p, x, c, index);
  }

  lemma CheckLostChecks(ps: Policies, active: set<Id>, p: Id, x: Identity, c: Id, index: nat)
    requires p in ps && p !in active
    ensures (if p in x.policies then UsesDropped(CheckLost(ps, active, x, c, index).checks, multiset{c})
             else CheckLost(ps, active, x, c, index).checks) ==
            CheckLost(ps, active + {p}, x, c, index).checks
  {
    if p in x.policies {
      assert (active + {p}) * x.policies == (active * x.policies) + {p};
      var a, b := CheckLost(ps, active, x, c, index).checks, CheckLost(ps, active + {p}, x, c, index).checks;
      var d := UsesDropped(a, multiset{c});
      forall k ensures (k in d <==> k in b) && (k in d ==> d[k] == b[k]) {
        assert k in multiset{c} <==> k == c;
      }
      assert d.Keys == b.Keys;
    } else {
      assert (active + {p}) * x.policies == active * x.policies;
    }
  }

  lemma PanicOneMore(ps: Policies, active: set<Id>, p: Id, x: Identity, c: Id, index: nat)
    requires p in ps
    ensures CheckLostPanics(ps, active + {p}, x) <==>
            CheckLostPanics(ps, active, x) || NilLookup(CheckLost(ps, active, x, c, index), ps[p])
  {
    var more := active + {p};
    assert NilLookup(CheckLost(ps, active, x, c, index), ps[p]) <==> NilLookup(x, ps[p]) by {
      assert CheckLost(ps, active, x, c, index).access.Keys == x.access.Keys;
    }
    if CheckLostPanics(ps, active, x) {
      var q :| q in active && q in ps && NilLookup(x, ps[q]);
      assert q in more;
    }
    assert p in more;
  }

  lemma MemberChecksOneMore(ps: Policies, done: set<Id>, p: Id, i: Id, x: Identity, c: Id, index: nat)
    requires p in ps && p !in done
    ensures
      var lost := CheckLost(ps, Active(ps, done, i), x, c, index);
      CheckLost(ps, Active(ps, done + {p}, i), x, c, index) ==
      if ps[p].services != {} && i in ps[p].identities
      then ChecksMoved(lost, p, ps[p], multiset{c}, index, false)
      else lost
  {
    ActiveOneMore(ps, done, p, i);
    CheckLostOneMore(ps, Active(ps, done, i), p, x, c, index);
  }

  lemma IdentityChecksOneMore(all: map<Id, Identity>, ps: Policies, done: set<Id>, p: Id, c: Id, index: nat)
    requires p in ps && p !in done
    ensures
      var lost := AllCheckLost(all, ps, done, c, index);
      (if ps[p].services != {} then AllChecksMoved(lost, p, ps[p], multiset{c}, index, false) else lost) ==
      AllCheckLost(all, ps, done + {p}, c, index)
  {
    forall i | i in all {
      MemberChecksOneMore(ps, done, p, i, all[i], c, index);
    }
  }

  lemma PolicyChecksOneMore(ps: Policies, done: set<Id>, p: Id, c: Id, index: nat)
    requires p in ps && p !in done
    ensures PoliciesWithoutCheck(ps, done, c, index)[p := ps[p].(checks := ps[p].checks - {c}, checksIndex := index)] ==
            PoliciesWithoutCheck(ps, done + {p}, c, index)
  {
  }

  lemma ChecksOneMore(checks: map<Id, Check>, done: set<Id>, p: Id, c: Id)
    ensures ChecksLinked(Unlinked(checks, done, c), [c], p, false) == Unlinked(checks, done + {p}, c)
  {
    if c in checks {
      assert checks[c].policies - done - {p} == checks[c].policies - (done + {p});
    }
  }

  lemma CheckDroppedOneMore(m: Model, done: set<Id>, p: Id, c: Id, index: nat)
    requires p in m.policies && p !in done
    ensures ChangeChecks(CheckDropped(m, done, c, index), index, p, [c], false) ==
            CheckDropped(m, done + {p}, c, index)
  {
    var before := m.policies[p];
    assert Relisted(before.checks, ToSet([c]), false) == before.checks - {c};
    assert multiset([c]) == multiset{c};
    PolicyChecksOneMore(m.policies, done, p, c, index);
    ChecksOneMore(m.checks, done, p, c);
    IdentityChecksOneMore(m.identities, m.policies, done, p, c, index);
    CheckDroppedPanic(m, done, p, c, index);
  }

  lemma CheckDroppedPanic(m: Model, done: set<Id>, p: Id, c: Id, index: nat)
    requires p in m.policies && p !in done
    ensures ChangeChecks(CheckDropped(m, done, c, index), index, p, [c], false).panicked ==
            CheckDropped(m, done + {p}, c, index).panicked
  {
    var lost := AllCheckLost(m.identities, m.policies, done, c, index);
    var before := m.policies[p];
    assert CheckDropped(m, done, c, index).policies[p] == before;
    forall i | i in m.identities
      ensures CheckLostPanics(m.policies, Active(m.policies, done + {p}, i), m.identities[i]) <==>
              CheckLostPanics(m.policies, Active(m.policies, done, i), m.identities[i]) ||
              (i in before.identities && before.services != {} && NilLookup(lost[i], before))
    {
      ActiveOneMore(m.policies, done, p, i);
      PanicOneMore(m.policies, Active(m.policies, done, i), p, m.identities[i], c, index);
    }
  }

  lemma CheckKept(ps: Policies, i: Id, x: Identity, c: Id, index: nat)
    ensures Active(ps, {}, i) == {} && CheckLost(ps, {}, x, c, index) == x && !CheckLostPanics(ps, {}, x)
  {
    assert {} * x.policies == {};
    assert AccessTouched(ps, {}, x.access, index) == x.access;
  }

  lemma NobodyLost(all: map<Id, Identity>, ps: Policies, c: Id, index: nat)
    ensures AllCheckLost(all, ps, {}, c, index) == all && !AnyCheckLostPanics(all, ps, {})
  {
    forall i | i in all {
      CheckKept(ps, i, all[i], c, index);
    }
  }

  lemma NoCheckDropped(m: Model, c: Id, index: nat)
    ensures CheckDropped(m, {}, c, index) == m
  {
    NobodyLost(m.identities, m.policies, c, index);
    assert PoliciesWithoutCheck(m.policies, {}, c, index) == m.policies;
    assert Unlinked(m.checks, {}, c) == m.checks by {
      if c in m.checks {
        assert m.checks[c].policies - {} == m.checks[c].policies;
      }
    }
  }

  /** The cleanup events of the policies in order, one after the other. */
  ghost function CheckCleaned(m: Model, order: seq<Id>, c: Id, index: nat): Model {
    if order == [] then m
    else
      var n := |order| - 1;
      Change(CheckCleaned(m, order[..n], c, index), index, PolicyChange(order[n], RelatedPostureCheck, [c], false))
  }

  lemma {:induction false} CheckCleanedInAnyOrder(m: Model, order: seq<Id>, c: Id, index: nat)
    requires Distinct(order) && forall k :: 0 <= k < |order| ==> order[k] in m.policies
    ensures CheckCleaned(m, order, c, index) == CheckDropped(m, ToSet(order), c, index)
  {
    if order == [] {
      NoCheckDropped(m, c, index);
      assert ToSet(order) == {};
    } else {
      var n := |order| - 1;
      CheckCleanedInAnyOrder(m, order[..n], c, index);
      CheckDroppedOneMore(m, ToSet(order[..n]), order[n], c, index);
      assert order == order[..n] + [order[n]];
      assert ToSet(order) == ToSet(order[..n]) + {order[n]};
    }
  }

  lemma CheckDeleteDrops(m: Model, index: nat, id: Id)
    requires id in m.checks
    ensures DeleteCheck(m, index, id) ==
            CheckDropped(m, PoliciesWithCheck(m, id), id, index).(checks := m.checks - {id})
  {
  }

  /** A posture check delete is a removal event for each policy that had it followed by the removal of the check. */
  lemma CheckDeleteByCleanup(m: Model, index: nat, id: Id, order: seq<Id>)
    requires id in m.checks && Enumerates(order, PoliciesWithCheck(m, id))
    ensures
      var cleaned := CheckCleaned(m, order, id, index);
      DeleteCheck(m, index, id) == cleaned.(checks := cleaned.checks - {id})
  {
    CheckDeleteDrops(m, index, id);
    CheckCleanedInAnyOrder(m, order, id, index);
    assert Unlinked(m.checks, ToSet(order), id) - {id} == m.checks - {id};
  }
}
