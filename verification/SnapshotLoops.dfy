/**
 getDataStateAlreadyLocked as it runs, on either side: the maps are walked in whatever order they come, and the
 identities' policy lists are turned around on the way. The outcome is a snapshot in the sense of module Snapshot.
 */
module SnapshotLoops {
  import opened Types
  import opened Snapshot

  /** What the walk reads. Members of a policy are found on the identities' side, where an entry can be nil. */
  datatype Data = Data(
    configTypes: map<Id, Text>,
    configs: map<Id, ConfigData>,
    identities: map<Id, Option<IdentityData>>,
    lists: map<Id, set<Id>>,
    services: map<Id, ServiceData>,
    checks: map<Id, Text>,
    policies: map<Id, PolicyContent>)

  ghost function Listing(lists: map<Id, set<Id>>, ids: set<Id>, p: Id): set<Id> {
    set i | i in ids && i in lists && p in lists[i]
  }

  ghost function Present(identities: map<Id, Option<IdentityData>>): map<Id, IdentityData> {
    map i | i in identities && identities[i].Some? :: identities[i].value
  }

  ghost predicate AllPresent(identities: map<Id, Option<IdentityData>>) {
    forall i :: i in identities ==> identities[i].Some?
  }

  ghost function SourceOf(d: Data): Source {
    Source(d.configTypes, d.configs, Present(d.identities), d.services, d.checks,
           map p | p in d.policies :: d.policies[p].(identities := Listing(d.lists, d.lists.Keys, p)))
  }

  method EmitTypes(types: map<Id, Text>) returns (events: seq<Event>, ids: seq<Id>)
    ensures Enumerates(ids, types.Keys) && events == TypeEvents(types, ids)
  {
    ids := KeysOf(types.Keys);
    events := [];
    for k := 0 to |ids|
      invariant events == TypeEvents(types, ids)[..k]
    {
      events := events + [ConfigTypeEvent(Create, ids[k], types[ids[k]])];
    }
  }

  method EmitConfigs(configs: map<Id, ConfigData>) returns (events: seq<Event>, ids: seq<Id>)
    ensures Enumerates(ids, configs.Keys) && events == ConfigEvents(configs, ids)
  {
    ids := KeysOf(configs.Keys);
    events := [];
    for k := 0 to |ids|
      invariant events == ConfigEvents(configs, ids)[..k]
    {
      events := events + [ConfigEvent(Create, ids[k], configs[ids[k]])];
    }
  }

  method EmitServices(services: map<Id, ServiceData>) returns (events: seq<Event>, ids: seq<Id>)
    ensures Enumerates(ids, services.Keys) && events == ServiceEvents(services, ids)
  {
    ids := KeysOf(services.Keys);
    events := [];
    for k := 0 to |ids|
      invariant events == ServiceEvents(services, ids)[..k]
    {
      events := events + [ServiceEvent(Create, ids[k], services[ids[k]])];
    }
  }

  method EmitChecks(checks: map<Id, Text>) returns (events: seq<Event>, ids: seq<Id>)
    ensures Enumerates(ids, checks.Keys) && events == CheckEvents(checks, ids)
  {
    ids := KeysOf(checks.Keys);
    events := [];
    for k := 0 to |ids|
      invariant events == CheckEvents(checks, ids)[..k]
    {
      events := events + [CheckEvent(Create, ids[k], checks[ids[k]])];
    }
  }

  // ---- the identities and their policies -----------------------------------------------------------------

  /** members has, for each policy with a member among the identities in done, a list of those. */
  ghost predicate Turned(lists: map<Id, set<Id>>, done: set<Id>, members: map<Id, seq<Id>>) {
    forall p :: TurnedAt(lists, done, members, p)
  }

  ghost predicate TurnedAt(lists: map<Id, set<Id>>, done: set<Id>, members: map<Id, seq<Id>>, p: Id) {
    && (p in members <==> Listing(lists, done, p) != {})
    && (p in members ==> Enumerates(members[p], Listing(lists, done, p)))
  }

  method AppendMember(lists: map<Id, set<Id>>, members: map<Id, seq<Id>>, i: Id, ghost done: set<Id>)
    returns (r: map<Id, seq<Id>>)
    requires i in lists && i !in done && Turned(lists, done, members)
    ensures Turned(lists, done + {i}, r)
  {
    r := members;
    var todo := lists[i];
    while todo != {}
      invariant todo <= lists[i]
      invariant forall p :: p in lists[i] && p !in todo ==> TurnedAt(lists, done + {i}, r, p)
      invariant forall p :: !(p in lists[i] && p !in todo) ==>
                            (p in r <==> p in members) && (p in r ==> r[p] == members[p])
    {
      var p := Next(todo);
      ghost var before := r;
      assert TurnedAt(lists, done, members, p);
      assert Listing(lists, done + {i}, p) == Listing(lists, done, p) + {i};
      r := r[p := (if p in r then r[p] else []) + [i]];
      EnumeratesMore(if p in members then members[p] else [], Listing(lists, done, p), i);
      todo := todo - {p};
      forall q | q in lists[i] && q !in todo ensures TurnedAt(lists, done + {i}, r, q) {
        assert q != p ==> TurnedAt(lists, done + {i}, before, q);
      }
    }
    forall p ensures TurnedAt(lists, done + {i}, r, p) {
      assert TurnedAt(lists, done, members, p);
      if p !in lists[i] {
        assert Listing(lists, done + {i}, p) == Listing(lists, done, p);
      } else {
        assert TurnedAt(lists, done + {i}, r, p);
      }
    }
  }

  /** Each identity, and the policies it lists turned around. At a nil entry the walk panics. */
  method EmitIdentities(identities: map<Id, Option<IdentityData>>, lists: map<Id, set<Id>>)
    returns (panicked: bool, events: seq<Event>, members: map<Id, seq<Id>>, ids: seq<Id>)
    requires forall i :: i in identities && identities[i].Some? ==> i in lists
    ensures panicked <==> !AllPresent(identities)
    ensures !panicked ==> Enumerates(ids, identities.Keys) && Present(identities).Keys == identities.Keys
    ensures !panicked ==> events == IdentityEvents(Present(identities), ids) && Turned(lists, identities.Keys, members)
  {
    ids := KeysOf(identities.Keys);
    panicked, events, members := false, [], map[];
    for k := 0 to |ids|
      invariant forall j :: 0 <= j < k ==> identities[ids[j]].Some?
      invariant |events| == k
      invariant forall j :: 0 <= j < k ==> events[j] == IdentityEvent(Create, ids[j], identities[ids[j]].value)
      invariant Turned(lists, ToSet(ids[..k]), members)
    {
      if identities[ids[k]].None? {
        panicked := true;
        return;
      }
      assert ids[..k + 1] == ids[..k] + [ids[k]];
      assert ToSet(ids[..k + 1]) == ToSet(ids[..k]) + {ids[k]};
      events := events + [IdentityEvent(Create, ids[k], identities[ids[k]].value)];
      members := AppendMember(lists, members, ids[k], ToSet(ids[..k]));
    }
    assert ids[..|ids|] == ids;
    forall i | i in identities ensures identities[i].Some? {
      assert i in ToSet(ids);
    }
    assert Present(identities).Keys == identities.Keys;
  }

  // ---- the policies --------------------------------------------------------------------------------------

  /** The members of each policy, each listed in some order. */
  method KeysOfEach(sets: map<Id, set<Id>>) returns (lists: map<Id, seq<Id>>)
    ensures lists.Keys == sets.Keys && forall p :: p in sets ==> Enumerates(lists[p], sets[p])
  {
    lists := map[];
    var todo := sets.Keys;
    while todo != {}
      invariant todo <= sets.Keys && lists.Keys == sets.Keys - todo
      invariant forall p :: p in lists ==> Enumerates(lists[p], sets[p])
    {
      var p := Next(todo);
      var list := KeysOf(sets[p]);
      lists := lists[p := list];
      todo := todo - {p};
    }
  }

  lemma {:induction false} PolicyEventsAppend(src: Source, o: Order, ids: seq<Id>, p: Id)
    requires Known(ids, src.policies.Keys) && p in src.policies
    requires forall q :: q in src.policies ==> OrdersPolicy(src, o, q)
    ensures AllPolicyEvents(src, o, ids + [p]) == AllPolicyEvents(src, o, ids) + PolicyEventsOf(src, o, p)
    decreases |ids|
  {
    if ids == [] {
      assert ids + [p] == [p] && [p][1..] == [];
    } else {
      assert (ids + [p])[1..] == ids[1..] + [p];
      PolicyEventsAppend(src, o, ids[1..], p);
    }
  }

  /** A policy's events: itself, its services, its checks, and the identities that list it if there are any. */
  method EmitPolicy(p: Id, policy: PolicyContent, services: seq<Id>, checks: seq<Id>, members: map<Id, seq<Id>>)
    returns (events: seq<Event>)
    requires p in members ==> members[p] != []
    ensures events ==
            PolicyEvents(p, policy.name, policy.policyType, services, checks, if p in members then members[p] else [])
  {
    events := [PolicyEvent(Create, p, policy.name, policy.policyType)];
    events := events + [ChangeEvent(PolicyChange(p, RelatedService, services, true))];
    events := events + [ChangeEvent(PolicyChange(p, RelatedPostureCheck, checks, true))];
    if p in members {
      events := events + [ChangeEvent(PolicyChange(p, RelatedIdentity, members[p], true))];
    }
  }

  /** The order o lists the policies' services and checks as given, and their identities as found. */
  ghost predicate Follows(src: Source, o: Order, policies: map<Id, PolicyContent>, members: map<Id, seq<Id>>) {
    && policies.Keys == src.policies.Keys
    && forall p :: p in policies ==>
         && OrdersPolicy(src, o, p) && (p in members ==> members[p] != [])
         && policies[p].name == src.policies[p].name && policies[p].policyType == src.policies[p].policyType
         && o.policyIdentities[p] == if p in members then members[p] else []
  }

  method EmitPolicies(policies: map<Id, PolicyContent>, ids: seq<Id>, services: map<Id, seq<Id>>,
                      checks: map<Id, seq<Id>>, members: map<Id, seq<Id>>, ghost src: Source, ghost o: Order)
    returns (events: seq<Event>)
    requires Follows(src, o, policies, members) && Known(ids, policies.Keys)
    requires services == o.policyServices && checks == o.policyChecks
    ensures events == AllPolicyEvents(src, o, ids)
  {
    events := [];
    for k := 0 to |ids|
      invariant events == AllPolicyEvents(src, o, ids[..k])
    {
      PolicyEventsAppend(src, o, ids[..k], ids[k]);
      assert ids[..k + 1] == ids[..k] + [ids[k]];
      var more := EmitPolicy(ids[k], policies[ids[k]], services[ids[k]], checks[ids[k]], members);
      events := events + more;
    }
    assert ids[..|ids|] == ids;
  }

  /** The members found on the identities' side, as the order in which a policy's identities are listed. */
  function MemberOrder(policies: set<Id>, members: map<Id, seq<Id>>): map<Id, seq<Id>> {
    map p | p in policies :: if p in members then members[p] else []
  }

  lemma MembersFollow(d: Data, o: Order, members: map<Id, seq<Id>>)
    requires Turned(d.lists, d.lists.Keys, members)
    requires o.policyIdentities == MemberOrder(d.policies.Keys, members)
    requires forall p :: p in d.policies ==>
                         p in o.policyServices && Enumerates(o.policyServices[p], d.policies[p].services)
    requires forall p :: p in d.policies ==> p in o.policyChecks && Enumerates(o.policyChecks[p], d.policies[p].checks)
    ensures Follows(SourceOf(d), o, d.policies, members)
  {
    var src := SourceOf(d);
    forall p | p in d.policies ensures OrdersPolicy(src, o, p) && (p in members ==> members[p] != []) {
      assert TurnedAt(d.lists, d.lists.Keys, members, p);
    }
  }

  method GetPolicies(d: Data, members: map<Id, seq<Id>>, front: Order) returns (events: seq<Event>, o: Order)
    requires Turned(d.lists, d.lists.Keys, members)
    ensures Enumerates(o.policies, d.policies.Keys) && Follows(SourceOf(d), o, d.policies, members)
    ensures o == front.(policies := o.policies, policyServices := o.policyServices, policyChecks := o.policyChecks,
                        policyIdentities := o.policyIdentities)
    ensures events == AllPolicyEvents(SourceOf(d), o, o.policies)
  {
    var ids := KeysOf(d.policies.Keys);
    var services := KeysOfEach(map p | p in d.policies :: d.policies[p].services);
    var checks := KeysOfEach(map p | p in d.policies :: d.policies[p].checks);
    o := front.(policies := ids, policyServices := services, policyChecks := checks,
                policyIdentities := MemberOrder(d.policies.Keys, members));
    MembersFollow(d, o, members);
    events := EmitPolicies(d.policies, ids, services, checks, members, SourceOf(d), o);
  }

  method GetDataState(d: Data) returns (r: Option<seq<Event>>, o: Order)
    requires d.lists.Keys == Present(d.identities).Keys
    ensures r.Some? <==> AllPresent(d.identities)
    ensures r.Some? ==> Orders(SourceOf(d), o) && r.value == SnapshotEvents(SourceOf(d), o)
  {
    var types, typeIds := EmitTypes(d.configTypes);
    var configs, configIds := EmitConfigs(d.configs);
    var panicked, identities, members, identityIds := EmitIdentities(d.identities, d.lists);
    o := Order(typeIds, configIds, identityIds, [], [], [], map[], map[], map[]);
    if panicked {
      return None, o;
    }
    var services, serviceIds := EmitServices(d.services);
    var checks, checkIds := EmitChecks(d.checks);
    var policies: seq<Event>;
    policies, o := GetPolicies(d, members, o.(services := serviceIds, checks := checkIds));
    r := Some(types + configs + identities + services + checks + policies);
  }
}
