/**
 The router's data model as the source runs it: an object whose handlers update its maps in place, walking other
 maps in whatever order they come. Every handler has exactly the effect that module Receiver states in closed form,
 and asks for exactly the re-checks that module Notifications lists.
 */
module RouterDataModels {
  import opened Types
  import opened Identities
  import opened Receiver
  import opened ReceiverLoops
  import opened Notifications
  import opened Cleanup
  import opened ServiceLists
  import opened Replication
  import opened Snapshot
  import opened SnapshotLoops
  import SliceDiff

  lemma TouchedMore(ps: Policies, some: set<Id>, p: Id, index: nat)
    ensures PoliciesTouched(PoliciesTouched(ps, some, index), {p}, index) == PoliciesTouched(ps, some + {p}, index)
    ensures PolicyChecksTouched(PolicyChecksTouched(ps, some, index), {p}, index) ==
            PolicyChecksTouched(ps, some + {p}, index)
  {
  }

  lemma TouchedAgain(ps: Policies, some: set<Id>, more: set<Id>, index: nat)
    ensures PoliciesTouched(PoliciesTouched(ps, some, index), more, index) == PoliciesTouched(ps, some + more, index)
  {
    var a, b := PoliciesTouched(PoliciesTouched(ps, some, index), more, index), PoliciesTouched(ps, some + more, index);
    assert a.Keys == b.Keys == ps.Keys;
    forall p | p in ps ensures a[p] == b[p] {
    }
  }

  lemma RaisedAgain(services: map<Id, Service>, some: set<Id>, more: set<Id>, index: nat)
    ensures ServicesRaised(ServicesRaised(services, some, index), more, index) ==
            ServicesRaised(services, some + more, index)
  {
    var a, b := ServicesRaised(ServicesRaised(services, some, index), more, index),
                ServicesRaised(services, some + more, index);
    assert a.Keys == b.Keys == services.Keys;
    forall s | s in services ensures a[s] == b[s] {
    }
  }

  lemma PoliciesOfOne(services: map<Id, Service>, s: Id)
    ensures PoliciesOf(services, {s}) == if s in services then services[s].policies else {}
  {
    var one := {s};
    assert s in one;
    forall p | s in services && p in services[s].policies ensures p in PoliciesOf(services, one) {
    }
  }

  /** Raising indexes changes no link, so the policies of more services are those they had before. */
  lemma PoliciesOfMore(services: map<Id, Service>, now: map<Id, Service>, some: set<Id>, more: set<Id>)
    requires services.Keys == now.Keys && forall x :: x in services ==> now[x].policies == services[x].policies
    ensures PoliciesOf(services, some + more) == PoliciesOf(services, some) + PoliciesOf(services, more)
    ensures PoliciesOf(now, more) == PoliciesOf(services, more)
  {
  }

  /** The users of the configs of type t among those in ids. */
  ghost predicate AreUsers(configs: map<Id, Config>, ids: set<Id>, t: Id, services: set<Id>, identities: set<Id>) {
    && (forall s :: s in services <==>
                    exists c :: c in ids && c in configs && configs[c].data.typeId == t && s in configs[c].services)
    && (forall i :: i in identities <==>
                    exists c :: c in ids && c in configs && configs[c].data.typeId == t && i in configs[c].identities)
  }

  lemma AreUsersMore(configs: map<Id, Config>, ids: set<Id>, c: Id, t: Id, services: set<Id>, identities: set<Id>)
    requires AreUsers(configs, ids, t, services, identities) && c in configs
    ensures if configs[c].data.typeId == t
            then AreUsers(configs, ids + {c}, t, services + configs[c].services, identities + configs[c].identities)
            else AreUsers(configs, ids + {c}, t, services, identities)
  {
    var more := ids + {c};
    assert c in more;
    assert forall x :: x in more <==> x in ids || x == c;
  }

  lemma AreAllUsers(configs: map<Id, Config>, t: Id, services: set<Id>, identities: set<Id>)
    requires AreUsers(configs, configs.Keys, t, services, identities)
    ensures services == ServicesOfType(configs, t) && identities == IdentitiesOfType(configs, t)
  {
    forall s ensures s in services <==> s in ServicesOfType(configs, t) {
      if s in services {
        var c :| c in configs.Keys && c in configs && configs[c].data.typeId == t && s in configs[c].services;
        assert c in configs;
      }
    }
    forall i ensures i in identities <==> i in IdentitiesOfType(configs, t) {
      if i in identities {
        var c :| c in configs.Keys && c in configs && configs[c].data.typeId == t && i in configs[c].identities;
        assert c in configs;
      }
    }
  }

  /** Notifying more services and identities after some is notifying all of them. */
  lemma UsersMore(m: Model, some: set<Id>, more: set<Id>, users: set<Id>, others: set<Id>, index: nat)
    ensures
      var n := ServicesTouched(m, some, index);
      && ServicesTouched(n, more, index) == ServicesTouched(m, some + more, index)
      && ConfigUsers(m, some, users) + ConfigUsers(n, more, others) == ConfigUsers(m, some + more, users + others)
  {
    var n := ServicesTouched(m, some, index);
    RaisedAgain(m.services, some, more, index);
    PoliciesOfMore(m.services, n.services, some, more);
    TouchedAgain(m.policies, PoliciesOf(m.services, some), PoliciesOf(m.services, more), index);
    MembersOfSame(m.policies, n.policies, m.identities.Keys, PoliciesOf(m.services, more));
    MembersOfMore(m.policies, m.identities.Keys, PoliciesOf(m.services, some), PoliciesOf(m.services, more));
  }

  lemma NobodyTouched(m: Model, index: nat)
    ensures ServicesTouched(m, {}, index) == m && ConfigUsers(m, {}, {}) == {}
  {
    assert PoliciesOf(m.services, {}) == {};
    assert ServicesRaised(m.services, {}, index) == m.services;
    assert PoliciesTouched(m.policies, {}, index) == m.policies;
  }

  /** The lookups that may miss an entry are those on the counted identities. */
  lemma SwitchPanics(all: map<Id, Identity>, pid: Id, p: Policy, q: Policy, ids: multiset<Id>, index: nat, add: bool)
    ensures
      var counted := AllServicesCounted(all, p.identities, pid, p, ids, index, add);
      (exists i :: i in counted && i in p.identities && NilLookup(counted[i], q)) <==>
      exists i :: i in all && i in p.identities && NilLookup(ServicesMoved(all[i], pid, p, ids, index, add), q)
  {
    var counted := AllServicesCounted(all, p.identities, pid, p, ids, index, add);
    assert forall i :: i in all && i in p.identities ==> counted[i] == ServicesMoved(all[i], pid, p, ids, index, add);
  }

  /** Identity id has left the policies in done; nothing else has changed but the identity itself. */
  ghost predicate Leaving(m: Model, n: Model, done: set<Id>, id: Id) {
    && n == m.(policies := PoliciesWithoutIdentity(m.policies, done, id), identities := n.identities)
    && n.identities.Keys == m.identities.Keys && n.identities - {id} == m.identities - {id}
  }

  lemma LeavingOneMore(m: Model, n: Model, done: set<Id>, p: Id, id: Id, index: nat)
    requires Leaving(m, n, done, id) && p in PoliciesWithIdentity(m, id) && p !in done
    ensures
      var change := PolicyChange(p, RelatedIdentity, [id], false);
      && Leaving(m, Change(n, index, change), done + {p}, id)
      && ChangeNotified(n, change) == MembersOf(m.policies, m.identities.Keys, {p})
  {
    MembersOfOne(m.policies, m.identities.Keys, p);
    assert ToSet([id]) == {id};
    assert n.policies[p] == m.policies[p];
    var next := ChangeIdentities(n, index, p, {id}, false);
    assert {id} * n.identities.Keys == {id};
    assert next.policies == PoliciesWithoutIdentity(m.policies, done + {p}, id);
    assert next.identities - {id} == m.identities - {id};
  }

  lemma LeavingAll(m: Model, n: Model, gone: set<Id>, id: Id)
    requires id in m.identities && gone == PoliciesWithIdentity(m, id)
    requires Leaving(m.(configs := n.configs), n, gone, id)
    requires n.configs == IdentityReferences(m.configs, id, Referenced(m.identities[id].data.serviceConfigs), {})
    ensures n.(identities := n.identities - {id}) == DeleteIdentity(m, id)
  {
    assert PoliciesWithoutIdentity(m.policies, gone, id) ==
           PoliciesWithoutIdentity(m.policies, m.identities[id].policies, id) by {
      forall p | p in m.policies && p in m.identities[id].policies && p !in gone
        ensures m.policies[p].(identities := m.policies[p].identities - {id}) == m.policies[p]
      {
        assert m.policies[p].identities - {id} == m.policies[p].identities;
      }
    }
  }

  lemma DropServiceStep(m: Model, done: set<Id>, p: Id, id: Id, index: nat)
    requires id !in m.services && p in m.policies && p !in done && id in m.policies[p].services
    requires AllAccessOk(m.identities)
    ensures
      var n, change := ServiceDropped(m, done, id, index), PolicyChange(p, RelatedService, [id], false);
      && Change(n, index, change) == ServiceDropped(m, done + {p}, id, index)
      && MembersOf(m.policies, m.identities.Keys, done) + ChangeNotified(n, change) ==
         MembersOf(m.policies, m.identities.Keys, done + {p})
  {
    ServiceDroppedOneMore(m, done, p, id, index);
    MembersOfMore(m.policies, m.identities.Keys, done, {p});
    MembersOfOne(m.policies, m.identities.Keys, p);
  }

  lemma {:induction false} CheckCleanedMembers(m: Model, order: seq<Id>, id: Id, index: nat)
    ensures CheckCleaned(m, order, id, index).identities.Keys == m.identities.Keys
    ensures CheckCleaned(m, order, id, index).policies.Keys == m.policies.Keys
    ensures forall p :: p in m.policies ==>
                        CheckCleaned(m, order, id, index).policies[p].identities == m.policies[p].identities
  {
    if order != [] {
      CheckCleanedMembers(m, order[..|order| - 1], id, index);
    }
  }

  lemma CheckCleanedNotifies(m: Model, order: seq<Id>, p: Id, id: Id, index: nat)
    ensures
      var change := PolicyChange(p, RelatedPostureCheck, [id], false);
      MembersOf(m.policies, m.identities.Keys, ToSet(order + [p])) ==
      MembersOf(m.policies, m.identities.Keys, ToSet(order)) + ChangeNotified(CheckCleaned(m, order, id, index), change)
  {
    CheckCleanedMembers(m, order, id, index);
    assert ToSet(order + [p]) == ToSet(order) + {p};
    MembersOfMore(m.policies, m.identities.Keys, ToSet(order), {p});
    MembersOfOne(m.policies, m.identities.Keys, p);
  }

  function DataOf(configTypes: map<Id, ConfigType>, configs: map<Id, Config>, identities: map<Id, Identity>,
                  services: map<Id, Service>, policies: Policies, checks: map<Id, Check>): Data {
    Data(map t | t in configTypes :: configTypes[t].name,
         map c | c in configs :: configs[c].data,
         map i | i in identities :: Some(identities[i].data),
         map i | i in identities :: identities[i].policies,
         map s | s in services :: services[s].data,
         map c | c in checks :: checks[c].data,
         map p | p in policies ::
           PolicyContent(policies[p].name, policies[p].policyType, policies[p].services, policies[p].checks, {}))
  }

  lemma DataSource(m: Model, d: Data)
    requires d == DataOf(m.configTypes, m.configs, m.identities, m.services, m.policies, m.checks)
    ensures SourceOf(d) == ReceiverSource(m) && AllPresent(d.identities) && d.lists.Keys == Present(d.identities).Keys
  {
    assert Present(d.identities) == ReceiverSource(m).identities;
    forall p ensures Listing(d.lists, d.lists.Keys, p) == ReceiverMembers(m, p) {
      assert forall i :: i in Listing(d.lists, d.lists.Keys, p) <==> i in ReceiverMembers(m, p);
    }
  }

  class RouterDataModel {
    var index: nat
    var configTypes: map<Id, ConfigType>
    var configs: map<Id, Config>
    var identities: map<Id, Identity>
    var services: map<Id, Service>
    var policies: map<Id, Policy>
    var checks: map<Id, Check>
    var panicked: bool
    /** The identities queued for a re-check so far. */
    var marked: set<Id>

    ghost function State(): Model
      reads this
    {
      Model(configTypes, configs, identities, services, policies, checks, panicked)
    }

    /** The model as a value, for those that only read it. */
    method Value() returns (m: Model)
      ensures m == State()
    {
      m := Model(configTypes, configs, identities, services, policies, checks, panicked);
    }

    /** A service access entry that grants nothing is never kept. */
    ghost predicate Valid()
      reads this
    {
      AllAccessOk(identities)
    }

    constructor ()
      ensures Valid() && State() == EmptyModel && marked == {} && index == 0
    {
      configTypes, configs, identities, services, policies, checks := map[], map[], map[], map[], map[], map[];
      panicked, marked, index := false, {}, 0;
    }

    // ---- notifications ---------------------------------------------------------------------------------

    /** NotifyServiceChange on each known identity of the set. */
    method MarkAll(ids: set<Id>)
      modifies `marked
      ensures marked == old(marked) + ids * identities.Keys
    {
      var todo := ids;
      while todo != {}
        modifies `marked
        invariant todo <= ids
        invariant marked == old(marked) + (ids - todo) * identities.Keys
      {
        var i := Next(todo);
        if i in identities {
          marked := marked + {i};
        }
        todo := todo - {i};
      }
    }

    method NotifyServicePolicyServiceChange(pid: Id, at: nat)
      modifies `policies, `marked
      ensures policies == PoliciesTouched(old(policies), {pid}, at)
      ensures pid in policies ==>
                policies[pid] ==
                old(policies)[pid].(servicesIndex := Max(old(policies)[pid].servicesIndex, at))
      ensures marked == old(marked) + MembersOf(old(policies), identities.Keys, {pid})
    {
      MembersOfOne(policies, identities.Keys, pid);
      if pid in policies {
        var p := policies[pid];
        if p.servicesIndex < at {
          policies := policies[pid := p.(servicesIndex := at)];
        }
        MarkAll(p.identities);
      }
    }

    method NotifyServicePolicyPostureChecksChange(pid: Id, at: nat)
      modifies `policies, `marked
      ensures policies == PolicyChecksTouched(old(policies), {pid}, at)
      ensures pid in policies ==>
                policies[pid] == old(policies)[pid].(checksIndex := Max(old(policies)[pid].checksIndex, at))
      ensures marked == old(marked) + MembersOf(old(policies), identities.Keys, {pid})
    {
      MembersOfOne(policies, identities.Keys, pid);
      if pid in policies {
        var p := policies[pid];
        if p.checksIndex < at {
          policies := policies[pid := p.(checksIndex := at)];
        }
        MarkAll(p.identities);
      }
    }

    method TouchPolicies(touched: set<Id>, at: nat)
      modifies `policies, `marked
      ensures policies == PoliciesTouched(old(policies), touched, at)
      ensures marked == old(marked) + MembersOf(old(policies), identities.Keys, touched)
    {
      var todo := touched;
      ghost var done: set<Id> := {};
      while todo != {}
        modifies `policies, `marked
        invariant touched == done + todo && done !! todo
        invariant policies == PoliciesTouched(old(policies), done, at)
        invariant marked == old(marked) + MembersOf(old(policies), identities.Keys, done)
      {
        var p := Next(todo);
        TouchedMore(old(policies), done, p, at);
        MembersOfSame(old(policies), policies, identities.Keys, {p});
        MembersOfMore(old(policies), identities.Keys, done, {p});
        NotifyServicePolicyServiceChange(p, at);
        todo, done := todo - {p}, done + {p};
      }
    }

    method TouchPolicyChecks(touched: set<Id>, at: nat)
      modifies `policies, `marked
      ensures policies == PolicyChecksTouched(old(policies), touched, at)
      ensures marked == old(marked) + MembersOf(old(policies), identities.Keys, touched)
    {
      var todo := touched;
      ghost var done: set<Id> := {};
      while todo != {}
        modifies `policies, `marked
        invariant touched == done + todo && done !! todo
        invariant policies == PolicyChecksTouched(old(policies), done, at)
        invariant marked == old(marked) + MembersOf(old(policies), identities.Keys, done)
      {
        var p := Next(todo);
        TouchedMore(old(policies), done, p, at);
        MembersOfSame(old(policies), policies, identities.Keys, {p});
        MembersOfMore(old(policies), identities.Keys, done, {p});
        NotifyServicePolicyPostureChecksChange(p, at);
        todo, done := todo - {p}, done + {p};
      }
    }

    method NotifyServiceOfConfigChange(s: Id, at: nat)
      modifies `services, `policies, `marked
      ensures services == ServicesRaised(old(services), {s}, at)
      ensures s in services ==> services[s] == old(services)[s].(index := Max(old(services)[s].index, at))
      ensures policies == PoliciesTouched(old(policies), PoliciesOf(old(services), {s}), at)
      ensures marked == old(marked) + MembersOf(old(policies), identities.Keys, PoliciesOf(old(services), {s}))
    {
      PoliciesOfOne(services, s);
      if s in services {
        var service := services[s];
        if service.index < at {
          services := services[s := service.(index := at)];
        }
        TouchPolicies(service.policies, at);
      } else {
        assert policies == PoliciesTouched(policies, {}, at);
      }
    }

    method TouchServices(touched: set<Id>, at: nat)
      modifies `services, `policies, `marked
      ensures services == ServicesRaised(old(services), touched, at)
      ensures policies == PoliciesTouched(old(policies), PoliciesOf(old(services), touched), at)
      ensures marked == old(marked) + MembersOf(old(policies), identities.Keys, PoliciesOf(old(services), touched))
    {
      var todo := touched;
      ghost var done: set<Id> := {};
      assert policies == PoliciesTouched(policies, PoliciesOf(services, {}), at);
      while todo != {}
        modifies `services, `policies, `marked
        invariant touched == done + todo && done !! todo
        invariant services == ServicesRaised(old(services), done, at)
        invariant policies == PoliciesTouched(old(policies), PoliciesOf(old(services), done), at)
        invariant marked == old(marked) + MembersOf(old(policies), identities.Keys, PoliciesOf(old(services), done))
      {
        var s := Next(todo);
        ghost var some, more := PoliciesOf(old(services), done), PoliciesOf(old(services), {s});
        PoliciesOfMore(old(services), services, done, {s});
        TouchedAgain(old(policies), some, more, at);
        MembersOfSame(old(policies), policies, identities.Keys, more);
        MembersOfMore(old(policies), identities.Keys, some, more);
        NotifyServiceOfConfigChange(s, at);
        RaisedAgain(old(services), done, {s}, at);
        todo, done := todo - {s}, done + {s};
      }
    }

    // ---- service policy changes ------------------------------------------------------------------------

    method ChangeRelatedIdentities(at: nat, pid: Id, ids: seq<Id>, add: bool)
      requires Valid() && pid in policies
      modifies `identities, `policies
      ensures Valid() && State() == ChangeIdentities(old(State()), at, pid, ToSet(ids), add)
    {
      var all, members := ChangeMembers(identities, ids, pid, policies[pid], at, add);
      policies := policies[pid := policies[pid].(identities := members)];
      identities := all;
    }

    /** When the policy's service set becomes empty or stops being so, its checks go or come with it. */
    method ChangeRelatedServices(at: nat, pid: Id, ids: seq<Id>, add: bool)
      requires Valid() && pid in policies
      modifies `identities, `policies, `services, `panicked
      ensures Valid() && State() == ChangeServices(old(State()), at, pid, ids, add)
    {
      var p := policies[pid];
      var all := CountMemberServices(identities, pid, p, ids, at, add);
      var moved := MoveIds(p.services, ids, add);
      var q := p.(services := moved, servicesIndex := at);
      services := LinkServices(services, ids, pid, add);
      CountThenSwitch(identities, pid, p, q, multiset(ids), at, add);
      SwitchPanics(identities, pid, p, q, multiset(ids), at, add);
      if (add && p.services == {} && moved != {}) || (!add && p.services != {} && moved == {}) {
        var keys := KeysOf(p.checks);
        var missing: bool;
        all, missing := MoveMemberChecks(all, pid, q, keys, at, add);
        panicked := panicked || missing;
      }
      policies := policies[pid := q];
      identities := all;
    }

    method ChangeRelatedChecks(at: nat, pid: Id, ids: seq<Id>, add: bool)
      requires Valid() && pid in policies
      modifies `identities, `policies, `checks, `panicked
      ensures Valid() && State() == ChangeChecks(old(State()), at, pid, ids, add)
    {
      var p := policies[pid];
      if p.services != {} {
        var missing: bool;
        identities, missing := MoveMemberChecks(identities, pid, p, ids, at, add);
        panicked := panicked || missing;
      }
      var moved := MoveIds(p.checks, ids, add);
      checks := LinkChecks(checks, ids, pid, add);
      policies := policies[pid := p.(checks := moved, checksIndex := at)];
    }

    method HandleServicePolicyChange(at: nat, change: PolicyChange)
      requires Valid()
      modifies `identities, `policies, `services, `checks, `panicked, `marked
      ensures Valid() && State() == Change(old(State()), at, change)
      ensures marked == old(marked) + ChangeNotified(old(State()), change)
    {
      var pid, ids, add := change.policyId, change.ids, change.add;
      if pid !in policies {
        return;
      }
      match change.related {
        case RelatedIdentity => ChangeRelatedIdentities(at, pid, ids, add);
        case RelatedService => ChangeRelatedServices(at, pid, ids, add);
        case RelatedPostureCheck => ChangeRelatedChecks(at, pid, ids, add);
      }
      MarkAll(policies[pid].identities);
      if change.related.RelatedIdentity? && !add {
        MarkAll(ToSet(ids));
      }
    }

    // ---- config types and configs ----------------------------------------------------------------------

    /** NotifyServiceOfConfigChange for each service, then NotifyIdentityChange for each identity. */
    method NotifyUsers(at: nat, users: set<Id>, others: set<Id>)
      requires Valid()
      modifies `services, `policies, `marked
      ensures Valid() && State() == ServicesTouched(old(State()), users, at)
      ensures marked == old(marked) + ConfigUsers(old(State()), users, others)
    {
      TouchServices(users, at);
      MarkAll(others);
    }

    /** Everyone who uses a config of the type, config by config. */
    method NotifyUsersOfType(at: nat, t: Id)
      requires Valid()
      modifies `services, `policies, `marked
      ensures Valid() && State() == ServicesTouched(old(State()), ServicesOfType(configs, t), at)
      ensures marked ==
              old(marked) + ConfigUsers(old(State()), ServicesOfType(configs, t), IdentitiesOfType(configs, t))
    {
      var todo := configs.Keys;
      ghost var m, before := State(), marked;
      ghost var done: set<Id>, some: set<Id>, others: set<Id> := {}, {}, {};
      NobodyTouched(m, at);
      while todo != {}
        modifies `services, `policies, `marked
        invariant configs.Keys == done + todo && done !! todo && Valid()
        invariant AreUsers(configs, done, t, some, others)
        invariant State() == ServicesTouched(m, some, at)
        invariant marked == before + ConfigUsers(m, some, others)
      {
        var c := Next(todo);
        AreUsersMore(configs, done, c, t, some, others);
        if configs[c].data.typeId == t {
          UsersMore(m, some, configs[c].services, others, configs[c].identities, at);
          NotifyUsers(at, configs[c].services, configs[c].identities);
          some, others := some + configs[c].services, others + configs[c].identities;
        }
        todo, done := todo - {c}, done + {c};
      }
      assert done == configs.Keys;
      AreAllUsers(configs, t, some, others);
    }

    method HandleConfigTypeEvent(at: nat, action: Action, id: Id, name: Text)
      requires Valid()
      modifies this
      ensures Valid() && State() == Receiver.Handle(old(State()), at, ConfigTypeEvent(action, id, name))
      ensures marked == old(marked) + Notified(old(State()), ConfigTypeEvent(action, id, name)) && index == old(index)
    {
      if action.Delete? {
        configTypes := configTypes - {id};
      } else {
        configTypes := configTypes[id := ConfigType(name, at)];
        NotifyUsersOfType(at, id);
      }
    }

    method HandleConfigEvent(at: nat, action: Action, id: Id, data: ConfigData)
      requires Valid()
      modifies this
      ensures Valid() && State() == Receiver.Handle(old(State()), at, ConfigEvent(action, id, data))
      ensures marked == old(marked) + Notified(old(State()), ConfigEvent(action, id, data)) && index == old(index)
    {
      if action.Delete? {
        if id in configs {
          NotifyUsers(at, configs[id].services, configs[id].identities);
          identities := PurgeAll(identities, configs[id].identities, id);
          configs := configs - {id};
        }
      } else if id in configs {
        if configs[id].data != data {
          NotifyUsers(at, configs[id].services, configs[id].identities);
        }
        configs := configs[id := configs[id].(data := data, index := at)];
      } else {
        configs := configs[id := Config(data, {}, {}, at)];
      }
    }

    // ---- identities ------------------------------------------------------------------------------------

    method UpsertIdentity(at: nat, id: Id, data: IdentityData)
      requires Valid()
      modifies `configs, `identities
      ensures Valid() && State() == PutIdentity(old(State()), at, id, data)
    {
      var after := GetReferencedConfigs(data.serviceConfigs);
      var next: Identity;
      if id in identities {
        var before := GetReferencedConfigs(identities[id].data.serviceConfigs);
        ReferTwice(configs, id, before, after);
        configs := ReferTo(configs, id, before, false);
        next := identities[id].(data := data, index := at);
      } else {
        next := Identity(data, {}, map[], map[], at, false);
      }
      configs := ReferTo(configs, id, after, true);
      identities := identities[id := next];
    }

    /** The cleanup events of an identity delete, one per policy that has it. */
    method LeavePolicies(at: nat, id: Id, gone: set<Id>)
      requires Valid() && id in identities && gone == PoliciesWithIdentity(State(), id)
      modifies `identities, `policies, `services, `checks, `panicked, `marked
      ensures Valid() && Leaving(old(State()), State(), gone, id)
      ensures marked == old(marked) + MembersOf(old(policies), old(identities).Keys, gone)
    {
      var todo := gone;
      ghost var m, before, done: set<Id> := State(), marked, {};
      while todo != {}
        modifies `identities, `policies, `services, `checks, `panicked, `marked
        invariant gone == done + todo && done !! todo && Valid()
        invariant Leaving(m, State(), done, id)
        invariant marked == before + MembersOf(m.policies, m.identities.Keys, done)
      {
        var p := Next(todo);
        LeavingOneMore(m, State(), done, p, id, at);
        MembersOfMore(m.policies, m.identities.Keys, done, {p});
        HandleServicePolicyChange(at, PolicyChange(p, RelatedIdentity, [id], false));
        todo, done := todo - {p}, done + {p};
      }
    }

    method HandleIdentityEvent(at: nat, action: Action, id: Id, data: IdentityData)
      requires Valid()
      modifies this
      ensures Valid() && State() == Receiver.Handle(old(State()), at, IdentityEvent(action, id, data))
      ensures marked == old(marked) + Notified(old(State()), IdentityEvent(action, id, data)) && index == old(index)
    {
      if action.Delete? {
        ghost var m := State();
        if id in identities {
          var before := GetReferencedConfigs(identities[id].data.serviceConfigs);
          configs := ReferTo(configs, id, before, false);
          var gone := set p | p in policies && p in identities[id].policies && id in policies[p].identities;
          LeavePolicies(at, id, gone);
          LeavingAll(m, State(), gone, id);
          identities := identities - {id};
        }
      } else {
        UpsertIdentity(at, id, data);
        marked := marked + {id};
      }
    }

    // ---- services --------------------------------------------------------------------------------------

    /** The cleanup events of a service delete, one per policy that has it. */
    method DropService(at: nat, id: Id, gone: set<Id>)
      requires Valid() && id !in services
      requires forall p :: p in gone ==> p in policies && id in policies[p].services
      modifies `identities, `policies, `services, `checks, `panicked, `marked
      ensures Valid() && State() == ServiceDropped(old(State()), gone, id, at)
      ensures marked == old(marked) + MembersOf(old(policies), old(identities).Keys, gone)
    {
      var todo := gone;
      ghost var m, before, done: set<Id> := State(), marked, {};
      NothingDropped(m, id, at);
      while todo != {}
        modifies `identities, `policies, `services, `checks, `panicked, `marked
        invariant gone == done + todo && done !! todo && Valid()
        invariant State() == ServiceDropped(m, done, id, at)
        invariant marked == before + MembersOf(m.policies, m.identities.Keys, done)
      {
        var p := Next(todo);
        DropServiceStep(m, done, p, id, at);
        HandleServicePolicyChange(at, PolicyChange(p, RelatedService, [id], false));
        todo, done := todo - {p}, done + {p};
      }
    }

    method UpsertService(at: nat, id: Id, data: ServiceData)
      requires Valid()
      modifies `configs, `services, `policies, `marked
      ensures Valid() && State() == PutService(old(State()), at, id, data)
      ensures marked == old(marked) +
                if id in old(services) then MembersOf(old(policies), identities.Keys, old(services)[id].policies)
                else {}
    {
      var toRemove: seq<Id>, toAdd, sorted, linked: set<Id> := [], data.configs, data.configs, {};
      if id in services {
        var sortedBefore: seq<Id>;
        toRemove, toAdd, sortedBefore, sorted := SliceDiff.DiffStringSlices(services[id].data.configs, data.configs);
        linked := services[id].policies;
      }
      ListedTwice(configs, id, multiset(toRemove), multiset(toAdd));
      configs := ListService(configs, id, toRemove, false);
      configs := ListService(configs, id, toAdd, true);
      services := services[id := Service(data.(configs := sorted), linked, at)];
      TouchPolicies(linked, at);
    }

    method HandleServiceEvent(at: nat, action: Action, id: Id, data: ServiceData)
      requires Valid()
      modifies this
      ensures Valid() && State() == Receiver.Handle(old(State()), at, ServiceEvent(action, id, data))
      ensures marked == old(marked) + Notified(old(State()), ServiceEvent(action, id, data)) && index == old(index)
    {
      if action.Delete? {
        ghost var m := State();
        if id in services {
          var listed := services[id].data.configs;
          ListedGone(configs, id, multiset(listed));
          configs := ListService(configs, id, listed, false);
          var gone := set p | p in policies && p in services[id].policies && id in policies[p].services;
          assert gone == PoliciesWithService(m, id);
          services := services - {id};
          ServiceDeleteDrops(m, at, id);
          DropService(at, id, gone);
        }
      } else {
        UpsertService(at, id, data);
      }
    }

    // ---- posture checks --------------------------------------------------------------------------------

    /** The cleanup events of a posture check delete, one per policy that has it. */
    method DropCheck(at: nat, id: Id, gone: set<Id>) returns (ghost order: seq<Id>)
      requires Valid()
      modifies `identities, `policies, `services, `checks, `panicked, `marked
      ensures Enumerates(order, gone)
      ensures Valid() && State() == CheckCleaned(old(State()), order, id, at)
      ensures marked == old(marked) + MembersOf(old(policies), old(identities).Keys, gone)
    {
      var todo := gone;
      ghost var m, before := State(), marked;
      order := [];
      while todo != {}
        modifies `identities, `policies, `services, `checks, `panicked, `marked
        invariant ToSet(order) == gone - todo && todo <= gone && Distinct(order) && Valid()
        invariant State() == CheckCleaned(m, order, id, at)
        invariant marked == before + MembersOf(m.policies, m.identities.Keys, ToSet(order))
      {
        var p := Next(todo);
        CheckCleanedNotifies(m, order, p, id, at);
        HandleServicePolicyChange(at, PolicyChange(p, RelatedPostureCheck, [id], false));
        assert (order + [p])[..|order|] == order;
        todo, order := todo - {p}, order + [p];
      }
      assert forall k :: 0 <= k < |order| ==> order[k] in ToSet(order);
    }

    method HandlePostureCheckEvent(at: nat, action: Action, id: Id, data: Text)
      requires Valid()
      modifies this
      ensures Valid() && State() == Receiver.Handle(old(State()), at, CheckEvent(action, id, data))
      ensures marked == old(marked) + Notified(old(State()), CheckEvent(action, id, data)) && index == old(index)
    {
      if action.Delete? {
        ghost var m := State();
        if id in checks {
          var gone := set p | p in policies && p in checks[id].policies && id in policies[p].checks;
          assert gone == PoliciesWithCheck(m, id);
          ghost var order := DropCheck(at, id, gone);
          CheckDeleteByCleanup(m, at, id, order);
          checks := checks - {id};
        }
      } else {
        var linked := if id in checks then checks[id].policies else {};
        checks := checks[id := Check(data, linked, at)];
        TouchPolicyChecks(linked, at);
      }
    }

    // ---- service policies ------------------------------------------------------------------------------

    method HandleServicePolicyEvent(at: nat, action: Action, id: Id, name: Text, t: PolicyType)
      requires Valid()
      modifies this
      ensures Valid() && State() == Receiver.Handle(old(State()), at, PolicyEvent(action, id, name, t))
      ensures marked == old(marked) + Notified(old(State()), PolicyEvent(action, id, name, t)) && index == old(index)
    {
      if action.Delete? {
        if id in policies {
          var p := policies[id];
          identities := ChangeAllMembers(identities, p.identities, id, p, at, false);
          marked := marked + p.identities;
          policies := policies - {id};
        }
      } else if id in policies {
        var prev := policies[id];
        var next := Policy(name, t, prev.services, prev.checks, prev.identities, at, 0);
        if prev.policyType != t {
          identities := FlipAll(identities, id, prev, next, at);
        }
        policies := policies[id := next];
      } else {
        policies := policies[id := Policy(name, t, {}, {}, {}, at, 0)];
      }
    }

    // ---- dispatch --------------------------------------------------------------------------------------

    method Handle(at: nat, e: Event)
      requires Valid()
      modifies this
      ensures Valid() && State() == Receiver.Handle(old(State()), at, e)
      ensures marked == old(marked) + Notified(old(State()), e) && index == old(index)
    {
      match e {
        case ConfigTypeEvent(a, id, name) => HandleConfigTypeEvent(at, a, id, name);
        case ConfigEvent(a, id, data) => HandleConfigEvent(at, a, id, data);
        case IdentityEvent(a, id, data) => HandleIdentityEvent(at, a, id, data);
        case ServiceEvent(a, id, data) => HandleServiceEvent(at, a, id, data);
        case PolicyEvent(a, id, name, t) => HandleServicePolicyEvent(at, a, id, name, t);
        case CheckEvent(a, id, data) => HandlePostureCheckEvent(at, a, id, data);
        case ChangeEvent(change) => HandleServicePolicyChange(at, change);
      }
    }

    method HandleAll(at: nat, events: seq<Event>)
      requires Valid()
      modifies this
      ensures Valid() && State() == Receiver.HandleAll(old(State()), at, events) && index == old(index)
    {
      ghost var m := State();
      for k := 0 to |events|
        invariant Valid() && index == old(index)
        invariant Receiver.HandleAll(m, at, events) == Receiver.HandleAll(State(), at, events[k..])
      {
        assert events[k..][1..] == events[k + 1..];
        Handle(at, events[k]);
      }
      assert events[|events|..] == [];
    }

    /** Store and its callback: a change set at or below the index is refused, a synthetic one leaves the index. */
    method ApplyChangeSet(change: ChangeSet)
      requires Valid()
      modifies this
      ensures Valid() && Router(State(), index) == Receive(Router(old(State()), old(index)), change)
    {
      if !change.synthetic {
        if index > 0 && index >= change.index {
          return;
        }
        index := change.index;
      }
      HandleAll(change.index, change.changes);
    }

    /** The members of a policy are taken from the identities' own lists. */
    method GetDataState() returns (events: seq<Event>, o: Order)
      ensures Orders(ReceiverSource(State()), o) && events == SnapshotEvents(ReceiverSource(State()), o)
    {
      var d := DataOf(configTypes, configs, identities, services, policies, checks);
      DataSource(State(), d);
      var r: Option<seq<Event>>;
      r, o := SnapshotLoops.GetDataState(d);
      events := r.value;
    }

    // ---- service access tracking -----------------------------------------------------------------------

    method EnableServiceAccessTracking(id: Id) returns (ghost access: AccessMap)
      requires Valid()
      modifies `identities
      ensures id in old(identities) && !old(identities)[id].tracked ==>
                IsAccessList(policies, old(identities)[id].policies, access)
      ensures Valid() && State() == EnableTracking(old(State()), id, access)
      ensures identities.Keys == old(identities).Keys && (id in identities ==> identities[id].tracked)
      ensures id in identities && !old(identities)[id].tracked ==> identities[id].access == access
      ensures forall i :: i in identities && (i != id || old(identities)[i].tracked) ==>
                            identities[i] == old(identities)[i]
    {
      access := map[];
      if id in identities && !identities[id].tracked {
        var list := BuildServiceAccessList(policies, identities[id].policies);
        identities := identities[id := identities[id].(tracked := true, access := list)];
        access := list;
      }
    }

    method DisableServiceAccessTracking(id: Id)
      requires Valid()
      modifies `identities
      ensures Valid() && State() == DisableTracking(old(State()), id)
      ensures identities.Keys == old(identities).Keys && (id in identities ==> !identities[id].tracked)
      ensures id in identities && old(identities)[id].tracked ==> identities[id].access == map[]
      ensures forall i :: i in identities && (i != id || !old(identities)[i].tracked) ==>
                            identities[i] == old(identities)[i]
    {
      if id in identities && identities[id].tracked {
        identities := identities[id := identities[id].(tracked := false, access := map[])];
      }
    }
  }
}
