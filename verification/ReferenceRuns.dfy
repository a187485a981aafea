/**
 The router's references over whole runs: in every reachable state they are exact as long as each event minds what
 exists, config deletes that purge overrides and service deletes that clean up policies included.
 */
module ReferenceRuns {
  import opened Types
  import opened Identities
  import opened Receiver
  import opened ReceiverReferences
  import opened Relations
  import opened Notifications
  import opened NotificationCompleteness
  import Inv = ReceiverInvariants

  /**
   The references, each with the invariant that keeps it: exact references from configs to identities and to services,
   the same together with the fact that whatever is named exists, and the two directions between policies and what
   they list.
   */
  datatype Kind = IdentityRefs | ServiceRefs | KnownOverrides | KnownLists | PolicyToListed | ListedToPolicy

  ghost predicate Holds(k: Kind, m: Model) {
    match k
    case IdentityRefs => IdentityRefsExact(m)
    case ServiceRefs => ServiceRefsExact(m)
    case KnownOverrides => IdentityRefsExact(m) && OverridesKnown(m)
    case KnownLists => ServiceRefsExact(m) && ListsKnown(m)
    case PolicyToListed => Links(m)
    case ListedToPolicy => BackLinks(m)
  }

  /** What the sender of an event has to mind for each kind. */
  ghost predicate Minds(k: Kind, m: Model, e: Event) {
    match k
    case IdentityRefs => !NamedBeforeCreated(m, e)
    case ServiceRefs => !BreaksServiceRefs(m, e)
    case KnownOverrides => NamesKnownConfigs(m, e)
    case KnownLists => ListsKnownConfigs(m, e)
    case PolicyToListed => !NamesUnknown(m, e)
    case ListedToPolicy => !StillLinked(m, e)
  }

  lemma HoldsIff(k: Kind, m: Model, index: nat, e: Event)
    requires Holds(k, m)
    ensures Holds(k, Handle(m, index, e)) <==> Minds(k, m, e)
  {
    match k
    case IdentityRefs => IdentityRefsExactIff(m, index, e);
    case ServiceRefs => ServiceRefsExactIff(m, index, e);
    case KnownOverrides => OverridesKnownIff(m, index, e);
    case KnownLists => ListsKnownIff(m, index, e);
    case PolicyToListed => LinksIff(m, index, e);
    case ListedToPolicy => BackLinksIff(m, index, e);
  }

  /** Nothing but the counters of identities changes. */
  ghost predicate CountersOnly(m: Model, n: Model) {
    && n == m.(identities := n.identities) && n.identities.Keys == m.identities.Keys
    && forall i :: i in m.identities ==> n.identities[i].data == m.identities[i].data
  }

  lemma CountersOnlyHolds(k: Kind, m: Model, n: Model)
    requires CountersOnly(m, n) && Holds(k, m)
    ensures Holds(k, n)
  {
    match k
    case IdentityRefs => SameIdentityRefs(m, n);
    case KnownOverrides => SameIdentityRefs(m, n);
    case ServiceRefs => SameServiceRefs(m, n);
    case KnownLists => SameServiceRefs(m, n);
    case _ => SameLinks(m, n);
  }

  lemma TrackingCountersOnly(m: Model, id: Id, access: AccessMap)
    ensures CountersOnly(m, EnableTracking(m, id, access)) && CountersOnly(m, DisableTracking(m, id))
  {
    if id in m.identities {
      SameData(m.identities, id, EnableTracking(m, id, access).identities[id]);
      SameData(m.identities, id, DisableTracking(m, id).identities[id]);
    }
  }

  lemma SameData(all: map<Id, Identity>, id: Id, x: Identity)
    requires id in all && x.data == all[id].data
    ensures all[id := x].Keys == all.Keys && forall i :: i in all ==> all[id := x][i].data == all[i].data
  {
  }

  // ---- runs ----------------------------------------------------------------------------------------------

  ghost predicate Minding(k: Kind, m: Model, ops: seq<Inv.Op>)
    decreases |ops|
  {
    ops == [] ||
    ((ops[0].Receive? ==> Minds(k, m, ops[0].event)) && Minding(k, Inv.Step(m, ops[0]), ops[1..]))
  }

  ghost predicate HoldsThroughout(k: Kind, m: Model, ops: seq<Inv.Op>)
    decreases |ops|
  {
    Holds(k, m) && (ops == [] || HoldsThroughout(k, Inv.Step(m, ops[0]), ops[1..]))
  }

  /** Each kind holds in every state of a run exactly when every event of the run minds it. */
  lemma {:induction false} HoldsThroughoutIff(k: Kind, m: Model, ops: seq<Inv.Op>)
    requires Holds(k, m)
    ensures HoldsThroughout(k, m, ops) <==> Minding(k, m, ops)
    ensures Minding(k, m, ops) ==> Holds(k, Inv.AfterAll(m, ops))
    decreases |ops|
  {
    if ops != [] {
      var n := Inv.Step(m, ops[0]);
      match ops[0] {
        case Receive(index, e) => HoldsIff(k, m, index, e);
        case Enable(id, access) => TrackingCountersOnly(m, id, access); CountersOnlyHolds(k, m, n);
        case Disable(id) => TrackingCountersOnly(m, id, map[]); CountersOnlyHolds(k, m, n);
      }
      if Holds(k, n) {
        HoldsThroughoutIff(k, n, ops[1..]);
      }
    }
  }

  lemma EmptyHolds(k: Kind)
    ensures Holds(k, EmptyModel)
  {
  }

  /**
   In every state reached by events whose identities name existing configs, whatever else they do, a config lists an
   identity iff that identity's overrides name it, and no override names a config that is gone.
   */
  lemma ReachableIdentityRefs(ops: seq<Inv.Op>, c: Id, i: Id)
    requires Minding(KnownOverrides, EmptyModel, ops)
    ensures
      var m := Inv.AfterAll(EmptyModel, ops);
      && (c in m.configs ==>
            (i in m.configs[c].identities <==>
             i in m.identities && c in Referenced(m.identities[i].data.serviceConfigs)))
      && (i in m.identities && c in Referenced(m.identities[i].data.serviceConfigs) ==> c in m.configs)
  {
    EmptyHolds(KnownOverrides);
    HoldsThroughoutIff(KnownOverrides, EmptyModel, ops);
  }

  /** With services that list existing configs once, and configs deleted when unlisted, the same for services. */
  lemma ReachableServiceRefs(ops: seq<Inv.Op>, c: Id, s: Id)
    requires Minding(KnownLists, EmptyModel, ops)
    ensures
      var m := Inv.AfterAll(EmptyModel, ops);
      && (c in m.configs ==> (s in m.configs[c].services <==> s in m.services && c in m.services[s].data.configs))
      && (s in m.services && c in m.services[s].data.configs ==> c in m.configs)
  {
    EmptyHolds(KnownLists);
    HoldsThroughoutIff(KnownLists, EmptyModel, ops);
    var m := Inv.AfterAll(EmptyModel, ops);
    if c in m.configs {
      assert ServiceRefsExactAt(m, c, s);
    }
    if s in m.services {
      assert ListKnown(m.configs.Keys, multiset(m.services[s].data.configs));
    }
  }

  /**
   With deltas that add what exists, and policy ids not reused while linked, a policy lists a service (or a posture
   check) iff that exists and refers back to the policy.
   */
  lemma ReachableLinks(ops: seq<Inv.Op>, p: Id, x: Id)
    requires Minding(PolicyToListed, EmptyModel, ops) && Minding(ListedToPolicy, EmptyModel, ops)
    ensures
      var m := Inv.AfterAll(EmptyModel, ops);
      p in m.policies ==>
        && (x in m.policies[p].services <==> x in m.services && p in m.services[x].policies)
        && (x in m.policies[p].checks <==> x in m.checks && p in m.checks[x].policies)
  {
    EmptyHolds(PolicyToListed);
    EmptyHolds(ListedToPolicy);
    HoldsThroughoutIff(PolicyToListed, EmptyModel, ops);
    HoldsThroughoutIff(ListedToPolicy, EmptyModel, ops);
  }

  // ---- together with the counters ------------------------------------------------------------------------

  /** A run that is safe for the counters and minds the references that notifications go by. */
  ghost predicate TidyRun(ops: seq<Inv.Op>, m: Model) {
    && Inv.Run(EmptyModel, ops, m)
    && Minding(KnownOverrides, EmptyModel, ops)
    && Minding(ServiceRefs, EmptyModel, ops)
    && Minding(PolicyToListed, EmptyModel, ops)
  }

  lemma {:induction false} RunEnds(m: Model, ops: seq<Inv.Op>, n: Model)
    requires Inv.Run(m, ops, n)
    ensures n == Inv.AfterAll(m, ops)
    decreases |ops|
  {
    if ops != [] {
      RunEnds(Inv.Step(m, ops[0]), ops[1..], n);
    }
  }

  lemma ExactIsClosed(m: Model)
    requires Inv.Symmetric(m) && Links(m) && OverridesKnown(m)
    ensures Closed(ReceiverContent(m))
  {
    var c := ReceiverContent(m);
    assert c.configs.Keys == m.configs.Keys && c.identities.Keys == m.identities.Keys;
    assert c.services.Keys == m.services.Keys && c.checks.Keys == m.checks.Keys;
    forall i | i in m.identities ensures Referenced(c.identities[i].serviceConfigs) <= c.configs.Keys {
      assert c.identities[i] == m.identities[i].data;
    }
    forall p | p in m.policies
      ensures c.policies[p].services <= c.services.Keys && c.policies[p].checks <= c.checks.Keys
      ensures c.policies[p].identities <= c.identities.Keys
    {
      var q := m.policies[p];
      assert c.policies[p] == PolicyContentOf(q);
      assert forall s :: s in q.services ==> s in m.services.Keys;
      assert forall k :: k in q.checks ==> k in m.checks.Keys;
      assert forall i :: i in q.identities ==> i in m.identities.Keys;
    }
  }

  /** In every tidily reached state all references and counters are exact and nothing dangles. */
  lemma TidyStates(ops: seq<Inv.Op>, m: Model)
    requires TidyRun(ops, m)
    ensures ReferencesExact(m) && Closed(ReceiverContent(m))
  {
    RunEnds(EmptyModel, ops, m);
    Inv.ReachableExact(ops, m);
    forall k ensures Minding(k, EmptyModel, ops) ==> Holds(k, m) {
      EmptyHolds(k);
      HoldsThroughoutIff(k, EmptyModel, ops);
    }
    ExactIsClosed(m);
  }

  /** So there, a well-formed event leaves a remaining identity uninformed iff it is silent about that identity. */
  lemma ReachableUninformedIff(ops: seq<Inv.Op>, m: Model, index: nat, e: Event, i: Id)
    requires TidyRun(ops, m) && WellFormed(ReceiverContent(m), e)
    requires i in m.identities && !(e.IdentityEvent? && e.action.Delete? && e.id == i)
    ensures !SameView(ReceiverContent(m), ReceiverContent(Handle(m, index, e)), i) && i !in Notified(m, e) <==>
            Silent(ReceiverContent(m), e, i)
  {
    TidyStates(ops, m);
    UninformedIff(m, index, e, i);
  }
}
