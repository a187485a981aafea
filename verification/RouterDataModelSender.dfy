/**
 The controller's side as it runs (common/router_data_model_sender.go): a log, and maps updated in place by the
 change sets the log accepts.
 */
module RouterDataModelSenders {
  import opened Types
  import opened EventCache
  import opened Sender
  import opened Relations
  import opened Refinement
  import opened Replication
  import opened Snapshot
  import opened SnapshotLoops

  /** The nil entry left for an unknown identity is found again as nil. */
  function Relist(identities: map<Id, Option<SenderIdentity>>, i: Id, pid: Id, add: bool)
    : map<Id, Option<SenderIdentity>>
  {
    identities[i := if i in identities then RelistedIdentity(identities[i], pid, add) else None]
  }

  lemma RelistOneMore(s: SenderModel, pid: Id, some: set<Id>, i: Id, add: bool)
    ensures Relist(Sender.ChangeIdentities(s, pid, some, add).identities, i, pid, add) ==
            Sender.ChangeIdentities(s, pid, some + {i}, add).identities
  {
    var a := Relist(Sender.ChangeIdentities(s, pid, some, add).identities, i, pid, add);
    var b := Sender.ChangeIdentities(s, pid, some + {i}, add).identities;
    assert a.Keys == b.Keys;
    forall x | x in a ensures a[x] == b[x] {
      if i in s.identities && s.identities[i].Some? {
        var mine := s.identities[i].value.policies;
        assert Relisted(Relisted(mine, {pid}, add), {pid}, add) == Relisted(mine, {pid}, add);
      }
    }
  }

  function Datas(identities: map<Id, Option<SenderIdentity>>): map<Id, Option<IdentityData>> {
    map i | i in identities :: if identities[i].None? then None else Some(identities[i].value.data)
  }

  function Lists(identities: map<Id, Option<SenderIdentity>>): map<Id, set<Id>> {
    map i | i in identities && identities[i].Some? :: identities[i].value.policies
  }

  function Shapes(policies: map<Id, SenderPolicy>): map<Id, PolicyContent> {
    map p | p in policies ::
      PolicyContent(policies[p].name, policies[p].policyType, policies[p].services, policies[p].checks, {})
  }

  /** A policy's identities are the identities that list it. */
  lemma DataSource(s: SenderModel, d: Data)
    requires
      d == Data(s.configTypes, s.configs, Datas(s.identities), Lists(s.identities), s.services, s.checks,
                Shapes(s.policies))
    ensures SourceOf(d) == SenderSource(s) && (AllPresent(d.identities) <==> NoNil(s))
    ensures d.lists.Keys == Present(d.identities).Keys
  {
    assert Present(d.identities) == SenderIdentities(s.identities);
    assert d.lists.Keys == Present(d.identities).Keys;
    assert forall i :: i in s.identities ==> (d.identities[i].Some? <==> s.identities[i].Some?);
    forall p ensures Listing(d.lists, d.lists.Keys, p) == Members(s.identities, p) {
      assert forall i :: i in Listing(d.lists, d.lists.Keys, p) <==> i in Members(s.identities, p);
    }
    assert SourceOf(d).policies == SenderPolicies(s.policies, s.identities);
  }

  class RouterDataModelSender {
    const log: LoggingEventCache
    var configTypes: map<Id, Text>
    var configs: map<Id, ConfigData>
    var identities: map<Id, Option<SenderIdentity>>
    var services: map<Id, ServiceData>
    var policies: map<Id, SenderPolicy>
    var checks: map<Id, Text>

    ghost function State(): SenderModel
      reads this
    {
      SenderModel(configTypes, configs, identities, services, policies, checks)
    }

    ghost function Side(): Controller
      reads this, log, log.log
    {
      Controller(log.View(), State())
    }

    constructor (logSize: nat)
      requires logSize >= 1
      ensures log.Valid() && fresh(log) && fresh(log.log)
      ensures Side() == Controller(LogView(logSize, 0, [], 0), EmptySender)
    {
      log := new LoggingEventCache(logSize);
      configTypes, configs, identities, services, policies, checks := map[], map[], map[], map[], map[], map[];
    }

    /** Set or Remove for each listed id. */
    method RelistIds(current: set<Id>, ids: seq<Id>, add: bool) returns (r: set<Id>)
      ensures r == Relisted(current, ToSet(ids), add)
    {
      r := current;
      for k := 0 to |ids|
        invariant r == Relisted(current, ToSet(ids[..k]), add)
      {
        assert ids[..k + 1] == ids[..k] + [ids[k]];
        r := if add then r + {ids[k]} else r - {ids[k]};
      }
      assert ids[..|ids|] == ids;
    }

    method ChangeRelatedIdentities(pid: Id, ids: seq<Id>, add: bool)
      modifies `identities
      ensures State() == Sender.ChangeIdentities(old(State()), pid, ToSet(ids), add)
    {
      ghost var s, done: set<Id> := State(), {};
      assert Sender.ChangeIdentities(s, pid, {}, add).identities == s.identities;
      for k := 0 to |ids|
        invariant done == ToSet(ids[..k])
        invariant identities == Sender.ChangeIdentities(s, pid, done, add).identities
      {
        assert ids[..k + 1] == ids[..k] + [ids[k]];
        RelistOneMore(s, pid, done, ids[k], add);
        identities := Relist(identities, ids[k], pid, add);
        done := done + {ids[k]};
      }
      assert ids[..|ids|] == ids;
    }

    method HandleServicePolicyChange(change: PolicyChange)
      modifies `identities, `policies
      ensures State() == Sender.Change(old(State()), change)
    {
      var pid := change.policyId;
      if change.related.RelatedIdentity? {
        ChangeRelatedIdentities(pid, change.ids, change.add);
        return;
      }
      if pid !in policies {
        return;
      }
      var p := policies[pid];
      if change.related.RelatedService? {
        var moved := RelistIds(p.services, change.ids, change.add);
        policies := policies[pid := p.(services := moved)];
      } else {
        var moved := RelistIds(p.checks, change.ids, change.add);
        policies := policies[pid := p.(checks := moved)];
      }
    }

    method RemoveService(id: Id)
      modifies `services, `policies
      ensures State() == Sender.DeleteService(old(State()), id)
    {
      services := services - {id};
      var todo := policies.Keys;
      ghost var before, done: set<Id> := policies, {};
      while todo != {}
        modifies `policies
        invariant before.Keys == done + todo && done !! todo
        invariant policies == WithoutService(before, done, id)
      {
        var p := Next(todo);
        policies := policies[p := policies[p].(services := policies[p].services - {id})];
        todo, done := todo - {p}, done + {p};
      }
      assert done == before.Keys;
    }

    method Handle(e: Event)
      modifies this
      ensures State() == Sender.Handle(old(State()), e)
    {
      match e {
        case ConfigTypeEvent(a, id, name) =>
          configTypes := if a.Delete? then configTypes - {id} else configTypes[id := name];
        case ConfigEvent(a, id, data) =>
          configs := if a.Delete? then configs - {id} else configs[id := data];
        case IdentityEvent(a, id, data) =>
          if a.Delete? {
            identities := identities - {id};
          } else {
            var listed := if id in identities && identities[id].Some? then identities[id].value.policies else {};
            identities := identities[id := Some(SenderIdentity(data, listed))];
          }
        case ServiceEvent(a, id, data) =>
          if a.Delete? {
            RemoveService(id);
          } else {
            services := services[id := data];
          }
        case PolicyEvent(a, id, name, t) =>
          if a.Delete? {
            policies := policies - {id};
          } else {
            var p := if id in policies then policies[id].(name := name, policyType := t)
                     else SenderPolicy(name, t, {}, {});
            policies := policies[id := p];
          }
        case CheckEvent(a, id, data) =>
          checks := if a.Delete? then checks - {id} else checks[id := data];
        case ChangeEvent(change) =>
          HandleServicePolicyChange(change);
      }
    }

    method HandleAll(events: seq<Event>)
      modifies this
      ensures State() == Sender.HandleAll(old(State()), events)
    {
      ghost var s := State();
      for k := 0 to |events|
        invariant Sender.HandleAll(s, events) == Sender.HandleAll(State(), events[k..])
      {
        assert events[k..][1..] == events[k + 1..];
        Handle(events[k]);
      }
      assert events[|events|..] == [];
    }

    /** The events of a change set are handled if and only if the log stores it; a synthetic one is always handled. */
    method ApplyChangeSet(change: ChangeSet)
      requires log.Valid()
      modifies this, log, log.log
      ensures log.Valid() && log.log == old(log.log)
      ensures Side() == Publish(old(Side()), change)
    {
      ghost var s := State();
      var accepted := log.Store(change);
      assert State() == s;
      if accepted {
        HandleAll(change.changes);
      }
    }

    /** At a nil identity entry the walk panics, so there is a snapshot if and only if there is no such entry. */
    method GetDataState() returns (r: Option<seq<Event>>, o: Order)
      ensures r.Some? <==> NoNil(State())
      ensures r.Some? ==> Orders(SenderSource(State()), o) && r == SenderSnapshot(State(), o)
    {
      var d := Data(configTypes, configs, Datas(identities), Lists(identities), services, checks, Shapes(policies));
      DataSource(State(), d);
      r, o := SnapshotLoops.GetDataState(d);
    }
  }
}
