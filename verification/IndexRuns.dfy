/**
 The index a router keeps with each service, posture check and identity (common/router_data_model.go), by which
 subscriptions decide without looking whether one changed. Over the runs of a router, later states differ in the data of
 an entity only where they differ in its index. The one exception is named exactly.
 */
module IndexRuns {
  import opened Types
  import opened Identities
  import opened Receiver
  import opened Relations
  import opened Replication
  import SliceDiff
  import Inv = ReceiverInvariants
  import Refs = ReceiverReferences

  // ---- overrides that go by a purge ---------------------------------------------------------------------------

  type ServiceConfigs = map<Id, map<Id, Id>>

  /** What is left of overrides. */
  ghost predicate Within(a: ServiceConfigs, b: ServiceConfigs) {
    forall s :: s in a ==> s in b && forall t :: t in a[s] ==> t in b[s] && a[s][t] == b[s][t]
  }

  lemma SameMap<K, V>(a: map<K, V>, b: map<K, V>)
    requires forall k :: (k in a <==> k in b) && (k in a ==> a[k] == b[k])
    ensures a == b
  {
  }

  lemma WithinBoth(a: ServiceConfigs, b: ServiceConfigs)
    requires Within(a, b) && Within(b, a)
    ensures a == b
  {
    forall s ensures (s in a <==> s in b) && (s in a ==> a[s] == b[s]) {
      if s in a {
        forall t ensures (t in a[s] <==> t in b[s]) && (t in a[s] ==> a[s][t] == b[s][t]) {
        }
        SameMap(a[s], b[s]);
      }
    }
    SameMap(a, b);
  }

  lemma WithinAll(a: ServiceConfigs, b: ServiceConfigs, c: ServiceConfigs)
    requires Within(a, b) && Within(b, c)
    ensures Within(a, c)
  {
  }

  /** A purge of config c changes overrides that name it, and drops services without any. */
  ghost predicate Affected(sc: ServiceConfigs, c: Id) {
    c in Referenced(sc) || exists s :: s in sc && sc[s] == map[]
  }

  lemma PurgedIff(sc: ServiceConfigs, c: Id)
    ensures Within(Purged(sc, c), sc)
    ensures Purged(sc, c) == sc <==> !Affected(sc, c)
  {
    if Affected(sc, c) {
      if c in Referenced(sc) {
        Refs.PurgedReferences(sc, c);
      } else {
        var s :| s in sc && sc[s] == map[];
        assert WithoutConfig(sc[s], c) == map[];
        assert s !in Purged(sc, c);
      }
    } else {
      forall s | s in sc ensures WithoutConfig(sc[s], c) == sc[s] {
        forall t | t in sc[s] ensures sc[s][t] != c {
        }
      }
      forall s ensures (s in Purged(sc, c) <==> s in sc) && (s in sc ==> Purged(sc, c)[s] == sc[s]) {
        assert s in sc ==> sc[s] != map[];
      }
      SameMap(Purged(sc, c), sc);
    }
  }

  /** The event deletes a config that lists identity i, and so changes the identity's overrides. */
  ghost predicate Purges(m: Model, e: Event, i: Id) {
    && e.ConfigEvent? && e.action.Delete? && e.id in m.configs && i in m.configs[e.id].identities
    && i in m.identities && Affected(m.identities[i].data.serviceConfigs, e.id)
  }

  // ---- one event ------------------------------------------------------------------------------------------------

  /** An update stores the event's data under its index, and every other event leaves both alone. */
  ghost predicate CheckMoved(m: Model, n: Model, index: nat, e: Event, c: Id) {
    c in n.checks ==>
      if e.CheckEvent? && !e.action.Delete? && e.id == c
      then n.checks[c].index == index && n.checks[c].data == e.check
      else c in m.checks && n.checks[c].index == m.checks[c].index && n.checks[c].data == m.checks[c].data
  }

  /** The event changes a config, or a config type, that the service uses as far as the config's references say. */
  ghost predicate Touches(m: Model, e: Event, s: Id) {
    match e
    case ConfigTypeEvent(a, t, _) =>
      !a.Delete? && exists c :: c in m.configs && m.configs[c].data.typeId == t && s in m.configs[c].services
    case ConfigEvent(a, c, data) =>
      c in m.configs && s in m.configs[c].services && (a.Delete? || m.configs[c].data != data)
    case _ => false
  }

  ghost predicate ServiceMoved(m: Model, n: Model, index: nat, e: Event, s: Id) {
    s in n.services ==>
      if e.ServiceEvent? && !e.action.Delete? && e.id == s
      then n.services[s].index == index && ServiceContentOf(n.services[s].data) == ServiceContentOf(e.service)
      else
        && s in m.services && n.services[s].data == m.services[s].data
        && n.services[s].index == if Touches(m, e, s) then Max(m.services[s].index, index) else m.services[s].index
  }

  /** Only the overrides of an identity change without its index. */
  ghost predicate IdentityKept(m: Model, n: Model, i: Id, purged: bool)
    requires i in n.identities
  {
    && i in m.identities && n.identities[i].index == m.identities[i].index
    && n.identities[i].data.info == m.identities[i].data.info
    && Within(n.identities[i].data.serviceConfigs, m.identities[i].data.serviceConfigs)
    && (n.identities[i].data == m.identities[i].data <==> !purged)
  }

  ghost predicate IdentityMoved(m: Model, n: Model, index: nat, e: Event, i: Id) {
    i in n.identities ==>
      if e.IdentityEvent? && !e.action.Delete? && e.id == i
      then n.identities[i].index == index && n.identities[i].data == e.identity
      else IdentityKept(m, n, i, Purges(m, e, i))
  }

  ghost predicate Moved(m: Model, n: Model, index: nat, e: Event, x: Id) {
    CheckMoved(m, n, index, e, x) && ServiceMoved(m, n, index, e, x) && IdentityMoved(m, n, index, e, x)
  }

  ghost predicate SameEntities(m: Model, n: Model) {
    && (forall c :: c in n.checks ==> c in m.checks && n.checks[c].index == m.checks[c].index &&
                                      n.checks[c].data == m.checks[c].data)
    && (forall s :: s in n.services ==> s in m.services && n.services[s].index == m.services[s].index &&
                                        n.services[s].data == m.services[s].data)
    && SameIdentities(m.identities, n.identities)
  }

  ghost predicate SameIdentities(all: map<Id, Identity>, now: map<Id, Identity>) {
    forall i :: i in now ==> i in all && now[i].index == all[i].index && now[i].data == all[i].data
  }

  /** Events that put nothing under x and are not about configs. */
  lemma SameEntitiesMoved(m: Model, n: Model, index: nat, e: Event, x: Id)
    requires SameEntities(m, n)
    requires || e.ChangeEvent? || e.PolicyEvent?
             || ((e.CheckEvent? || e.ServiceEvent? || e.IdentityEvent?) && e.action.Delete?)
    ensures Moved(m, n, index, e, x)
  {
  }

  lemma ConfigTypeMoved(m: Model, index: nat, id: Id, name: Text, x: Id)
    ensures Moved(m, PutConfigType(m, index, id, name), index, ConfigTypeEvent(Update, id, name), x)
    ensures Moved(m, DeleteConfigType(m, id), index, ConfigTypeEvent(Delete, id, name), x)
  {
  }

  lemma ConfigMoved(m: Model, index: nat, id: Id, data: ConfigData, x: Id)
    ensures Moved(m, PutConfig(m, index, id, data), index, ConfigEvent(Update, id, data), x)
  {
  }

  lemma ConfigGone(m: Model, index: nat, id: Id, data: ConfigData, x: Id)
    ensures Moved(m, DeleteConfig(m, index, id), index, ConfigEvent(Delete, id, data), x)
  {
    if x in m.identities {
      PurgedIff(m.identities[x].data.serviceConfigs, id);
    }
  }

  lemma IdentityPut(m: Model, index: nat, id: Id, data: IdentityData, x: Id)
    ensures Moved(m, PutIdentity(m, index, id, data), index, IdentityEvent(Update, id, data), x)
  {
  }

  lemma IdentityGone(m: Model, id: Id)
    ensures SameEntities(m, DeleteIdentity(m, id))
  {
  }

  lemma ServicePut(m: Model, index: nat, id: Id, data: ServiceData, x: Id)
    ensures Moved(m, PutService(m, index, id, data), index, ServiceEvent(Update, id, data), x)
  {
    SliceDiff.SortPermutes(data.configs);
  }

  lemma ServiceGone(m: Model, index: nat, id: Id)
    ensures SameEntities(m, DeleteService(m, index, id))
  {
  }

  lemma CheckPut(m: Model, index: nat, id: Id, data: Text, x: Id)
    ensures Moved(m, PutCheck(m, index, id, data), index, CheckEvent(Update, id, data), x)
  {
  }

  lemma CheckGone(m: Model, index: nat, id: Id)
    ensures SameEntities(m, DeleteCheck(m, index, id))
  {
  }

  lemma PolicyMoved(m: Model, index: nat, id: Id, name: Text, t: PolicyType)
    ensures SameEntities(m, PutPolicy(m, index, id, name, t)) && SameEntities(m, DeletePolicy(m, index, id))
  {
  }

  lemma IdentitiesChanged(m: Model, index: nat, pid: Id, ids: set<Id>, add: bool)
    requires pid in m.policies
    ensures SameEntities(m, ChangeIdentities(m, index, pid, ids, add))
  {
  }

  lemma ServicesChanged(m: Model, index: nat, pid: Id, ids: seq<Id>, add: bool)
    requires pid in m.policies
    ensures SameEntities(m, ChangeServices(m, index, pid, ids, add))
  {
    var p, n := m.policies[pid], ChangeServices(m, index, pid, ids, add);
    AllMovedSame(m.identities, pid, p, n.policies[pid], multiset(ids), index, add);
  }

  lemma AllMovedSame(all: map<Id, Identity>, pid: Id, p: Policy, q: Policy, ids: multiset<Id>, index: nat, add: bool)
    ensures SameIdentities(all, AllServicesMoved(all, pid, p, q, ids, index, add))
  {
  }

  lemma ChecksChanged(m: Model, index: nat, pid: Id, ids: seq<Id>, add: bool)
    requires pid in m.policies
    ensures SameEntities(m, ChangeChecks(m, index, pid, ids, add))
  {
  }

  lemma ChangeMoved(m: Model, index: nat, change: PolicyChange)
    ensures SameEntities(m, Change(m, index, change))
  {
    if change.policyId in m.policies {
      match change.related
      case RelatedIdentity => IdentitiesChanged(m, index, change.policyId, ToSet(change.ids), change.add);
      case RelatedService => ServicesChanged(m, index, change.policyId, change.ids, change.add);
      case RelatedPostureCheck => ChecksChanged(m, index, change.policyId, change.ids, change.add);
    }
  }

  /** Creates and updates are handled alike. */
  lemma PutMoved(m: Model, index: nat, e: Event, x: Id)
    requires !e.ChangeEvent? && !e.PolicyEvent? && !e.action.Delete?
    ensures Moved(m, Handle(m, index, e), index, e, x)
  {
    match e
    case ConfigTypeEvent(a, id, name) => ConfigTypeMoved(m, index, id, name, x);
    case ConfigEvent(a, id, data) => ConfigMoved(m, index, id, data, x);
    case IdentityEvent(a, id, data) => IdentityPut(m, index, id, data, x);
    case ServiceEvent(a, id, data) => ServicePut(m, index, id, data, x);
    case CheckEvent(a, id, data) => CheckPut(m, index, id, data, x);
  }

  /** What an event at an index does to the index and data of any service, posture check and identity. */
  lemma EventMoves(m: Model, index: nat, e: Event, x: Id)
    ensures Moved(m, Handle(m, index, e), index, e, x)
  {
    if e.ChangeEvent? {
      ChangeMoved(m, index, e.change);
      SameEntitiesMoved(m, Handle(m, index, e), index, e, x);
    } else if e.PolicyEvent? {
      PolicyMoved(m, index, e.id, e.policyName, e.policyType);
      SameEntitiesMoved(m, Handle(m, index, e), index, e, x);
    } else if !e.action.Delete? {
      PutMoved(m, index, e, x);
    } else {
      match e
      case ConfigTypeEvent(_, id, name) => ConfigTypeMoved(m, index, id, name, x);
      case ConfigEvent(_, id, data) => ConfigGone(m, index, id, data, x);
      case IdentityEvent(_, id, _) => IdentityGone(m, id); SameEntitiesMoved(m, DeleteIdentity(m, id), index, e, x);
      case ServiceEvent(_, id, _) =>
        ServiceGone(m, index, id);
        SameEntitiesMoved(m, DeleteService(m, index, id), index, e, x);
      case CheckEvent(_, id, _) =>
        CheckGone(m, index, id);
        SameEntitiesMoved(m, DeleteCheck(m, index, id), index, e, x);
    }
  }

  // ---- over a run -----------------------------------------------------------------------------------------------

  lemma OpMoves(m: Model, op: Inv.Op, x: Id)
    ensures
      var n := Inv.Step(m, op);
      if op.Receive? then Moved(m, n, op.index, op.event, x) else SameEntities(m, n)
  {
    match op
    case Receive(index, e) => EventMoves(m, index, e, x);
    case Enable(id, access) => if id in m.identities { IdentitySet(m, id, EnableTracking(m, id, access)); }
    case Disable(id) => if id in m.identities { IdentitySet(m, id, DisableTracking(m, id)); }
  }

  lemma IdentitySet(m: Model, id: Id, n: Model)
    requires id in m.identities && id in n.identities && n == m.(identities := m.identities[id := n.identities[id]])
    requires n.identities[id].index == m.identities[id].index && n.identities[id].data == m.identities[id].data
    ensures SameEntities(m, n)
  {
  }

  /** The events of a run all have an index above i. */
  ghost predicate Above(ops: seq<Inv.Op>, i: nat) {
    forall k :: 0 <= k < |ops| && ops[k].Receive? ==> ops[k].index > i
  }

  lemma AboveRest(ops: seq<Inv.Op>, i: nat)
    requires Above(ops, i) && ops != []
    ensures Above(ops[1..], i) && (ops[0].Receive? ==> ops[0].index > i)
  {
    assert forall k :: 0 <= k < |ops[1..]| ==> ops[1..][k] == ops[k + 1];
  }

  ghost predicate PurgesIn(m: Model, ops: seq<Inv.Op>, i: Id)
    decreases |ops|
  {
    ops != [] && ((ops[0].Receive? && Purges(m, ops[0].event, i)) || PurgesIn(Inv.Step(m, ops[0]), ops[1..], i))
  }

  /** Above index i, or untouched since m. */
  ghost predicate CheckSince(m: Model, n: Model, i: nat, c: Id) {
    c in n.checks ==>
      || n.checks[c].index > i
      || (c in m.checks && n.checks[c].index == m.checks[c].index && n.checks[c].data == m.checks[c].data)
  }

  ghost predicate ServiceSince(m: Model, n: Model, i: nat, s: Id) {
    s in n.services ==>
      || n.services[s].index > i
      || (s in m.services && n.services[s].index == m.services[s].index && n.services[s].data == m.services[s].data)
  }

  ghost predicate IdentitySince(m: Model, n: Model, i: nat, x: Id, purged: bool) {
    x in n.identities ==> n.identities[x].index > i || IdentityKept(m, n, x, purged)
  }

  lemma {:induction false} ChecksSince(m: Model, ops: seq<Inv.Op>, i: nat, x: Id)
    requires Above(ops, i)
    ensures CheckSince(m, Inv.AfterAll(m, ops), i, x) && ServiceSince(m, Inv.AfterAll(m, ops), i, x)
    decreases |ops|
  {
    if ops != [] {
      AboveRest(ops, i);
      OpMoves(m, ops[0], x);
      ChecksSince(Inv.Step(m, ops[0]), ops[1..], i, x);
    }
  }

  lemma KeptTwice(m: Model, n: Model, o: Model, i: Id, first: bool, second: bool)
    requires i in n.identities && i in o.identities && IdentityKept(m, n, i, first) && IdentityKept(n, o, i, second)
    ensures IdentityKept(m, o, i, first || second)
  {
    var a, b, c := m.identities[i].data, n.identities[i].data, o.identities[i].data;
    WithinAll(c.serviceConfigs, b.serviceConfigs, a.serviceConfigs);
    if c == a {
      WithinBoth(b.serviceConfigs, a.serviceConfigs);
      assert b == a;
    }
  }

  lemma {:induction false} IdentitiesSince(m: Model, ops: seq<Inv.Op>, i: nat, x: Id)
    requires Above(ops, i)
    ensures IdentitySince(m, Inv.AfterAll(m, ops), i, x, PurgesIn(m, ops, x))
    decreases |ops|
  {
    if ops == [] {
      if x in m.identities {
        assert Within(m.identities[x].data.serviceConfigs, m.identities[x].data.serviceConfigs);
      }
    } else {
      var n, o := Inv.Step(m, ops[0]), Inv.AfterAll(m, ops);
      AboveRest(ops, i);
      OpMoves(m, ops[0], x);
      IdentitiesSince(n, ops[1..], i, x);
      if x in o.identities && o.identities[x].index <= i {
        KeptTwice(m, n, o, x, ops[0].Receive? && Purges(m, ops[0].event, x), PurgesIn(n, ops[1..], x));
      }
    }
  }

  /** No entity has an index above i. */
  ghost predicate Bounded(m: Model, i: nat) {
    forall x :: BoundedAt(m, i, x)
  }

  /**
   The index tells whether an entity changed. Between a state and a later one reached by events of higher index, in a
   run of a router: a posture check or service of the same index has the same data; an identity of the same index has
   the same data exactly if no config delete in between purged its overrides; and an index that differs is larger.
   */
  lemma IndexTells(m: Model, i: nat, ops: seq<Inv.Op>, x: Id)
    requires Bounded(m, i) && Above(ops, i)
    ensures
      var n := Inv.AfterAll(m, ops);
      && (x in m.checks && x in n.checks && n.checks[x].index == m.checks[x].index ==>
            n.checks[x].data == m.checks[x].data)
      && (x in m.services && x in n.services && n.services[x].index == m.services[x].index ==>
            n.services[x].data == m.services[x].data)
      && (x in m.identities && x in n.identities && n.identities[x].index == m.identities[x].index ==>
            (n.identities[x].data == m.identities[x].data <==> !PurgesIn(m, ops, x)))
    ensures
      var n := Inv.AfterAll(m, ops);
      && (x in m.checks && x in n.checks ==> m.checks[x].index <= n.checks[x].index)
      && (x in m.services && x in n.services ==> m.services[x].index <= n.services[x].index)
      && (x in m.identities && x in n.identities ==> m.identities[x].index <= n.identities[x].index)
  {
    assert BoundedAt(m, i, x);
    ChecksSince(m, ops, i, x);
    IdentitiesSince(m, ops, i, x);
  }

  // ---- within one change set --------------------------------------------------------------------------------------

  /** The data of the last create or update of the posture check among the events. */
  function LastCheck(events: seq<Event>, c: Id): Option<Text>
    decreases |events|
  {
    if events == [] then None
    else
      var later := LastCheck(events[1..], c);
      if later.Some? then later
      else if events[0].CheckEvent? && !events[0].action.Delete? && events[0].id == c then Some(events[0].check)
      else None
  }

  function LastService(events: seq<Event>, s: Id): Option<ServiceData>
    decreases |events|
  {
    if events == [] then None
    else
      var later := LastService(events[1..], s);
      if later.Some? then later
      else if events[0].ServiceEvent? && !events[0].action.Delete? && events[0].id == s then Some(events[0].service)
      else None
  }

  function LastIdentity(events: seq<Event>, i: Id): Option<IdentityData>
    decreases |events|
  {
    if events == [] then None
    else
      var later := LastIdentity(events[1..], i);
      if later.Some? then later
      else if events[0].IdentityEvent? && !events[0].action.Delete? && events[0].id == i then Some(events[0].identity)
      else None
  }

  lemma {:induction false} CheckInChangeSet(m: Model, index: nat, events: seq<Event>, c: Id)
    ensures
      var n := HandleAll(m, index, events);
      c in n.checks ==>
        match LastCheck(events, c)
        case Some(data) => n.checks[c].index == index && n.checks[c].data == data
        case None => c in m.checks && n.checks[c].index == m.checks[c].index && n.checks[c].data == m.checks[c].data
    decreases |events|
  {
    if events != [] {
      EventMoves(m, index, events[0], c);
      CheckInChangeSet(Handle(m, index, events[0]), index, events[1..], c);
    }
  }

  /**
   Within one change set the index can fail to tell. For a posture check that is there before some of its events and
   after: the data changed under the same index if and only if the check had the change set's index already, from an
   event before these, and the last of these to put it brings other data.
   */
  lemma CheckBlindIff(m: Model, index: nat, events: seq<Event>, c: Id)
    requires c in m.checks && c in HandleAll(m, index, events).checks
    ensures
      var n := HandleAll(m, index, events);
      n.checks[c].index == m.checks[c].index && n.checks[c].data != m.checks[c].data <==>
      m.checks[c].index == index && LastCheck(events, c).Some? && LastCheck(events, c).value != m.checks[c].data
  {
    CheckInChangeSet(m, index, events, c);
  }

  lemma {:induction false} ServiceInChangeSet(m: Model, index: nat, events: seq<Event>, s: Id)
    ensures
      var n := HandleAll(m, index, events);
      s in n.services ==>
        match LastService(events, s)
        case Some(data) =>
          n.services[s].index == index && ServiceContentOf(n.services[s].data) == ServiceContentOf(data)
        case None =>
          && s in m.services && n.services[s].data == m.services[s].data
          && (n.services[s].index == m.services[s].index || n.services[s].index == Max(m.services[s].index, index))
    decreases |events|
  {
    if events != [] {
      EventMoves(m, index, events[0], s);
      ServiceInChangeSet(Handle(m, index, events[0]), index, events[1..], s);
    }
  }

  /** The same for a service, whose index the change set may also have raised by a config of it. */
  lemma ServiceBlindIff(m: Model, index: nat, events: seq<Event>, s: Id)
    requires s in m.services && s in HandleAll(m, index, events).services
    ensures
      var n := HandleAll(m, index, events);
      var before, now := ServiceContentOf(m.services[s].data), ServiceContentOf(n.services[s].data);
      n.services[s].index == m.services[s].index && now != before <==>
      m.services[s].index == index && LastService(events, s).Some? &&
      ServiceContentOf(LastService(events, s).value) != before
  {
    ServiceInChangeSet(m, index, events, s);
  }

  ghost predicate NoConfigDeletes(events: seq<Event>) {
    forall k :: 0 <= k < |events| ==> !(events[k].ConfigEvent? && events[k].action.Delete?)
  }

  lemma {:induction false} IdentityInChangeSet(m: Model, index: nat, events: seq<Event>, i: Id)
    requires NoConfigDeletes(events)
    ensures
      var n := HandleAll(m, index, events);
      i in n.identities ==>
        match LastIdentity(events, i)
        case Some(data) => n.identities[i].index == index && n.identities[i].data == data
        case None => IdentityKept(m, n, i, false)
    decreases |events|
  {
    if events == [] {
      if i in m.identities {
        assert Within(m.identities[i].data.serviceConfigs, m.identities[i].data.serviceConfigs);
      }
    } else {
      var next, n := Handle(m, index, events[0]), HandleAll(m, index, events);
      assert forall k :: 0 <= k < |events[1..]| ==> events[1..][k] == events[k + 1];
      EventMoves(m, index, events[0], i);
      IdentityInChangeSet(next, index, events[1..], i);
      if i in n.identities && LastIdentity(events, i).None? {
        KeptTwice(m, next, n, i, false, false);
      }
    }
  }

  /** And for an identity, in a change set that purges nothing. */
  lemma IdentityBlindIff(m: Model, index: nat, events: seq<Event>, i: Id)
    requires i in m.identities && i in HandleAll(m, index, events).identities && NoConfigDeletes(events)
    ensures
      var n := HandleAll(m, index, events);
      n.identities[i].index == m.identities[i].index && n.identities[i].data != m.identities[i].data <==>
      m.identities[i].index == index && LastIdentity(events, i).Some? &&
      LastIdentity(events, i).value != m.identities[i].data
  {
    IdentityInChangeSet(m, index, events, i);
  }

  // ---- the indexes of a router ------------------------------------------------------------------------------------

  lemma BoundedStep(m: Model, i: nat, index: nat, e: Event)
    requires Bounded(m, i) && i <= index
    ensures Bounded(Handle(m, index, e), index)
  {
    var n := Handle(m, index, e);
    forall x ensures BoundedAt(n, index, x) {
      EventMoves(m, index, e, x);
      BoundedMoved(m, n, i, index, e, x);
    }
  }

  ghost predicate BoundedAt(m: Model, i: nat, x: Id) {
    && (x in m.checks ==> m.checks[x].index <= i)
    && (x in m.services ==> m.services[x].index <= i)
    && (x in m.identities ==> m.identities[x].index <= i)
  }

  lemma BoundedMoved(m: Model, n: Model, i: nat, index: nat, e: Event, x: Id)
    requires BoundedAt(m, i, x) && i <= index && Moved(m, n, index, e, x)
    ensures BoundedAt(n, index, x)
  {
  }

  lemma {:induction false} BoundedAll(m: Model, i: nat, index: nat, events: seq<Event>)
    requires Bounded(m, i) && i <= index
    ensures Bounded(HandleAll(m, index, events), index)
    decreases |events|
  {
    if events != [] {
      BoundedStep(m, i, index, events[0]);
      BoundedAll(Handle(m, index, events[0]), index, index, events[1..]);
    } else {
      forall x ensures BoundedAt(m, index, x) {
        assert BoundedAt(m, i, x);
      }
    }
  }

  /** A router rebuilt from a snapshot has no index above the snapshot's. */
  lemma RebuiltBounded(events: seq<Event>, endIndex: nat)
    ensures Bounded(FromSnapshot(events, endIndex).model, endIndex)
  {
    BoundedAll(EmptyModel, 0, endIndex, events);
  }

  function OpsOf(index: nat, events: seq<Event>): (ops: seq<Inv.Op>)
    ensures |ops| == |events| && forall k :: 0 <= k < |ops| ==> ops[k] == Inv.Receive(index, events[k])
  {
    seq(|events|, k requires 0 <= k < |events| => Inv.Receive(index, events[k]))
  }

  lemma {:induction false} HandledByOps(m: Model, index: nat, events: seq<Event>)
    ensures HandleAll(m, index, events) == Inv.AfterAll(m, OpsOf(index, events))
    decreases |events|
  {
    if events != [] {
      assert OpsOf(index, events)[1..] == OpsOf(index, events[1..]);
      HandledByOps(Handle(m, index, events[0]), index, events[1..]);
    }
  }

  lemma {:induction false} AfterBoth(m: Model, ops: seq<Inv.Op>, more: seq<Inv.Op>)
    ensures Inv.AfterAll(m, ops + more) == Inv.AfterAll(Inv.AfterAll(m, ops), more)
    decreases |ops|
  {
    if ops == [] {
      assert ops + more == more;
    } else {
      assert (ops + more)[1..] == ops[1..] + more;
      AfterBoth(Inv.Step(m, ops[0]), ops[1..], more);
    }
  }

  /** What a router handles of a delivery: the events of the change sets it does not refuse. */
  ghost function Taken(r: Router, css: seq<ChangeSet>): seq<Inv.Op>
    decreases |css|
  {
    if css == [] then []
    else (if Refuses(r, css[0]) then [] else OpsOf(css[0].index, css[0].changes)) + Taken(Receive(r, css[0]), css[1..])
  }

  /** Change sets are indexed from one on. */
  ghost predicate Indexed(css: seq<ChangeSet>) {
    forall k :: 0 <= k < |css| ==> !css[k].synthetic && css[k].index > 0
  }

  lemma ReceivedBounded(r: Router, cs: ChangeSet)
    requires Bounded(r.model, r.index) && !cs.synthetic && cs.index > 0
    ensures r.index <= Receive(r, cs).index && Bounded(Receive(r, cs).model, Receive(r, cs).index)
    ensures !Refuses(r, cs) ==> r.index < cs.index
  {
    if !Refuses(r, cs) {
      BoundedAll(r.model, r.index, cs.index, cs.changes);
    }
  }

  /** A delivery is a run of events with higher indexes, and keeps the router's entities at or below its index. */
  lemma {:induction false} DeliveryIsRun(r: Router, css: seq<ChangeSet>)
    requires Bounded(r.model, r.index) && Indexed(css)
    ensures ReceiveAll(r, css).model == Inv.AfterAll(r.model, Taken(r, css)) && Above(Taken(r, css), r.index)
    ensures Bounded(ReceiveAll(r, css).model, ReceiveAll(r, css).index)
    decreases |css|
  {
    if css != [] {
      var next := Receive(r, css[0]);
      var ops := if Refuses(r, css[0]) then [] else OpsOf(css[0].index, css[0].changes);
      assert forall k :: 0 <= k < |css[1..]| ==> css[1..][k] == css[k + 1];
      ReceivedBounded(r, css[0]);
      DeliveryIsRun(next, css[1..]);
      HandledByOps(r.model, css[0].index, css[0].changes);
      AfterBoth(r.model, ops, Taken(next, css[1..]));
    }
  }

  /**
   So between any two states of a router that started from a snapshot and was delivered change sets since, stale ones
   included, the index tells whether a posture check or service changed, and an identity but for purged overrides.
   */
  lemma RouterIndexTells(events: seq<Event>, endIndex: nat, css: seq<ChangeSet>, more: seq<ChangeSet>, x: Id)
    requires Indexed(css) && Indexed(more)
    ensures
      var r := ReceiveAll(FromSnapshot(events, endIndex), css);
      var m, n := r.model, ReceiveAll(r, more).model;
      && (x in m.checks && x in n.checks && n.checks[x].index == m.checks[x].index ==>
            n.checks[x].data == m.checks[x].data)
      && (x in m.services && x in n.services && n.services[x].index == m.services[x].index ==>
            n.services[x].data == m.services[x].data)
      && (x in m.identities && x in n.identities && n.identities[x].index == m.identities[x].index ==>
            (n.identities[x].data == m.identities[x].data <==> !PurgesIn(m, Taken(r, more), x)))
  {
    var r := ReceiveAll(FromSnapshot(events, endIndex), css);
    RebuiltBounded(events, endIndex);
    DeliveryIsRun(FromSnapshot(events, endIndex), css);
    DeliveryIsRun(r, more);
    IndexTells(r.model, r.index, Taken(r, more), x);
  }
}
