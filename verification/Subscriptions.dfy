/**
 A subscription to one identity (common/subscriber.go): what it last saw, and the notifications by which its
 listeners learn what changed.
 */
module Subscriptions {
  import opened Types
  import opened Identities
  import opened Receiver
  import opened ReceiverInvariants
  import opened ServiceLists
  import opened RouterDataModels

  type ServiceMap = map<Id, IdentityService>

  // ---- comparisons ---------------------------------------------------------------------------------------

  /** IdentityService.Equals: the same service as long as its index is the same, else field by field. */
  ghost predicate SameService(a: IdentityService, b: IdentityService) {
    && (a.service.index == b.service.index || a.service.data == b.service.data)
    && a.dial == b.dial && a.bind == b.bind && a.configs == b.configs
  }

  /** Equal size and every entry found on the other side make two maps equal. */
  lemma OneWayIsEnough<K, V>(a: map<K, V>, b: map<K, V>)
    requires |a| == |b| && forall k :: k in a ==> k in b && b[k] == a[k]
    ensures a == b
  {
    SubsetOfSameSize(a.Keys, b.Keys);
  }

  lemma SubsetOfSameSize<K>(s: set<K>, t: set<K>)
    requires s <= t && |s| == |t|
    ensures s == t
  {
    assert |t - s| == |t| - |s|;
  }

  method SameConfigs(a: map<Text, IdentityConfig>, b: map<Text, IdentityConfig>) returns (same: bool)
    ensures same <==> a == b
  {
    if |a| != |b| {
      return false;
    }
    var todo := a.Keys;
    while todo != {}
      invariant todo <= a.Keys
      invariant forall n :: n in a && n !in todo ==> n in b && b[n] == a[n]
    {
      var n := Next(todo);
      if n !in b {
        return false;
      }
      if a[n].typeId != b[n].typeId || a[n].typeName != b[n].typeName || a[n].dataJson != b[n].dataJson {
        return false;
      }
      todo := todo - {n};
    }
    OneWayIsEnough(a, b);
    return true;
  }

  method SameData(a: ServiceData, b: ServiceData) returns (same: bool)
    ensures same <==> a == b
  {
    if a.name != b.name || a.encryptionRequired != b.encryptionRequired || |a.configs| != |b.configs| {
      return false;
    }
    for k := 0 to |a.configs|
      invariant forall j :: 0 <= j < k ==> a.configs[j] == b.configs[j]
    {
      if b.configs[k] != a.configs[k] {
        return false;
      }
    }
    return true;
  }

  method Equals(a: IdentityService, b: IdentityService) returns (same: bool)
    ensures same <==> SameService(a, b)
  {
    if a.service.index != b.service.index {
      var sameData := SameData(a.service.data, b.service.data);
      if !sameData {
        return false;
      }
    }
    if a.dial != b.dial || a.bind != b.bind {
      return false;
    }
    same := SameConfigs(a.configs, b.configs);
  }

  ghost predicate SameChecks(a: map<Id, Check>, b: map<Id, Check>) {
    a.Keys == b.Keys && forall c :: c in a ==> a[c].index == b[c].index
  }

  /** Whether the posture checks changed: by count, and then by a lookup of each old one. */
  method ChecksChanged(before: map<Id, Check>, now: map<Id, Check>) returns (changed: bool)
    ensures changed <==> !SameChecks(before, now)
  {
    if |before| != |now| {
      assert before.Keys == now.Keys ==> |before| == |now|;
      return true;
    }
    var todo := before.Keys;
    while todo != {}
      invariant todo <= before.Keys
      invariant forall c :: c in before && c !in todo ==> c in now && before[c].index == now[c].index
    {
      var c := Next(todo);
      if c !in now || before[c].index != now[c].index {
        return true;
      }
      todo := todo - {c};
    }
    assert forall c :: c in before.Keys ==> c in now.Keys;
    SubsetOfSameSize(before.Keys, now.Keys);
    return false;
  }

  // ---- notifications --------------------------------------------------------------------------------------

  datatype Notice =
    | FullState
    | IdentityUpdated
    | ChecksUpdated
    | IdentityDeleted
    | Gained(id: Id, service: IdentityService)
    | ServiceUpdated(id: Id, previous: IdentityService, service: IdentityService)
    | Lost(id: Id, previous: IdentityService)
    | DialPoliciesChanged(id: Id, previous: IdentityService, service: IdentityService)
    | BindPoliciesChanged(id: Id, previous: IdentityService, service: IdentityService)

  predicate Changes(n: Notice, s: Id) {
    (n.Gained? || n.ServiceUpdated? || n.Lost?) && n.id == s
  }

  /** The gained, updated and lost notifications about one service, in order. */
  function About(notices: seq<Notice>, s: Id): seq<Notice> {
    if notices == [] then []
    else
      var last := notices[|notices| - 1];
      About(notices[..|notices| - 1], s) + if Changes(last, s) then [last] else []
  }

  /** What a listener that keeps a map of its own makes of the notifications. */
  function Applied(services: ServiceMap, n: Notice): ServiceMap {
    match n
    case Gained(id, service) => services[id := service]
    case ServiceUpdated(id, _, service) => services[id := service]
    case Lost(id, _) => services - {id}
    case _ => services
  }

  function AppliedAll(services: ServiceMap, notices: seq<Notice>): ServiceMap {
    if notices == [] then services
    else Applied(AppliedAll(services, notices[..|notices| - 1]), notices[|notices| - 1])
  }

  /** The one notification, if any, that service s calls for. */
  ghost function Due(before: ServiceMap, now: ServiceMap, s: Id): seq<Notice> {
    if s in before && s !in now then [Lost(s, before[s])]
    else if s in before && s in now && !SameService(before[s], now[s]) then [ServiceUpdated(s, before[s], now[s])]
    else if s !in before && s in now then [Gained(s, now[s])]
    else []
  }

  /** A listener's entry for a service depends on the notifications about it only. */
  lemma {:induction false} AppliedByAbout(services: ServiceMap, notices: seq<Notice>, s: Id)
    ensures s in AppliedAll(services, notices) <==> s in AppliedAll(services, About(notices, s))
    ensures s in AppliedAll(services, notices) ==>
              AppliedAll(services, notices)[s] == AppliedAll(services, About(notices, s))[s]
    decreases |notices|
  {
    if notices != [] {
      var rest, last := notices[..|notices| - 1], notices[|notices| - 1];
      AppliedByAbout(services, rest, s);
      AppliedLast(AppliedAll(services, rest), AppliedAll(services, About(rest, s)), last, s);
      if Changes(last, s) {
        var about := About(rest, s) + [last];
        assert about[..|about| - 1] == About(rest, s);
      } else {
        assert About(rest, s) + [] == About(rest, s);
      }
    }
  }

  lemma AppliedLast(a: ServiceMap, b: ServiceMap, n: Notice, s: Id)
    requires (s in a <==> s in b) && (s in a ==> a[s] == b[s])
    ensures
      var c, d := Applied(a, n), if Changes(n, s) then Applied(b, n) else b;
      (s in c <==> s in d) && (s in c ==> c[s] == d[s])
  {
  }

  /** Every listener ends up with the new map, up to SameService, whatever order the notifications come in. */
  lemma NoticesReconstruct(before: ServiceMap, now: ServiceMap, notices: seq<Notice>)
    requires forall s :: About(notices, s) == Due(before, now, s)
    ensures
      var r := AppliedAll(before, notices);
      && r.Keys == now.Keys
      && forall s :: s in now ==>
                       r[s] == now[s] || (s in before && r[s] == before[s] && SameService(r[s], now[s]))
  {
    var r := AppliedAll(before, notices);
    forall s
      ensures (s in r <==> s in now) &&
              (s in now ==> r[s] == now[s] || (s in before && r[s] == before[s] && SameService(r[s], now[s])))
    {
      AppliedByAbout(before, notices, s);
      AppliedOne(before, Due(before, now, s), s);
    }
  }

  lemma AppliedOne(services: ServiceMap, due: seq<Notice>, s: Id)
    requires |due| <= 1
    ensures AppliedAll(services, due) == if due == [] then services else Applied(services, due[0])
  {
    if due != [] {
      assert due[..0] == [];
      assert AppliedAll(services, due[..0]) == services;
    }
  }

  // ---- the loops of checkForChanges -----------------------------------------------------------------------

  lemma AboutAppend(notices: seq<Notice>, n: Notice, s: Id)
    ensures About(notices + [n], s) == About(notices, s) + if Changes(n, s) then [n] else []
  {
    assert (notices + [n])[..|notices|] == notices;
  }

  ghost predicate OnlyServices(notices: seq<Notice>) {
    forall k :: 0 <= k < |notices| ==> notices[k].Gained? || notices[k].ServiceUpdated? || notices[k].Lost?
  }

  /** Of the services in part, and of no others, listeners have been told what is due. */
  ghost predicate ToldAt(before: ServiceMap, now: ServiceMap, part: set<Id>, notices: seq<Notice>, s: Id) {
    About(notices, s) == if s in part then Due(before, now, s) else []
  }

  /** The notification due for s is about s and no other service. */
  lemma DueAbout(before: ServiceMap, now: ServiceMap, s: Id, x: Id)
    ensures |Due(before, now, s)| <= 1
    ensures Due(before, now, s) != [] ==> (Changes(Due(before, now, s)[0], x) <==> x == s)
  {
  }

  lemma AboutOneMore(notices: seq<Notice>, due: seq<Notice>, s: Id, x: Id)
    requires |due| <= 1 && (due != [] ==> (Changes(due[0], x) <==> x == s))
    ensures About(notices + due, x) == if x == s then About(notices, x) + due else About(notices, x)
  {
    if due == [] {
      assert notices + due == notices && About(notices, x) + due == About(notices, x);
    } else {
      assert due == [due[0]];
      AboutAppend(notices, due[0], x);
    }
  }

  lemma DueTold(before: ServiceMap, now: ServiceMap, part: set<Id>, notices: seq<Notice>, s: Id, x: Id)
    requires ToldAt(before, now, part, notices, x) && s !in part
    ensures ToldAt(before, now, part + {s}, notices + Due(before, now, s), x)
  {
    var due := Due(before, now, s);
    DueAbout(before, now, s, x);
    AboutOneMore(notices, due, s, x);
    assert [] + due == due;
  }

  lemma DueToldAll(before: ServiceMap, now: ServiceMap, part: set<Id>, notices: seq<Notice>, s: Id)
    requires (forall x :: ToldAt(before, now, part, notices, x)) && s !in part
    ensures forall x :: ToldAt(before, now, part + {s}, notices + Due(before, now, s), x)
  {
    forall x ensures ToldAt(before, now, part + {s}, notices + Due(before, now, s), x) {
      DueTold(before, now, part, notices, s, x);
    }
  }

  lemma GainedToldAll(before: ServiceMap, now: ServiceMap, part: set<Id>, notices: seq<Notice>, s: Id)
    requires (forall x :: ToldAt(before, now, part, notices, x)) && s !in part && s !in before && s in now
    ensures forall x :: ToldAt(before, now, part + {s}, notices + [Gained(s, now[s])], x)
  {
    assert Due(before, now, s) == [Gained(s, now[s])];
    DueToldAll(before, now, part, notices, s);
  }

  /** Lost and updated services, found by walking the old map. */
  method NotifyOld(before: ServiceMap, now: ServiceMap) returns (notices: seq<Notice>)
    ensures OnlyServices(notices) && forall s :: ToldAt(before, now, before.Keys, notices, s)
  {
    notices := [];
    var todo := before.Keys;
    ghost var part: set<Id> := {};
    while todo != {}
      invariant before.Keys == part + todo && part !! todo && OnlyServices(notices)
      invariant forall s :: ToldAt(before, now, part, notices, s)
    {
      var s := Next(todo);
      DueToldAll(before, now, part, notices, s);
      ghost var sent := notices;
      if s !in now {
        notices := notices + [Lost(s, before[s])];
      } else {
        var same := Equals(before[s], now[s]);
        if !same {
          notices := notices + [ServiceUpdated(s, before[s], now[s])];
        }
      }
      assert notices == sent + Due(before, now, s);
      todo, part := todo - {s}, part + {s};
    }
    assert part == before.Keys;
  }

  /** Gained services, found by walking the new map. */
  method NotifyNew(before: ServiceMap, now: ServiceMap, first: seq<Notice>) returns (notices: seq<Notice>)
    requires OnlyServices(first) && forall s :: ToldAt(before, now, before.Keys, first, s)
    ensures OnlyServices(notices) && forall s :: About(notices, s) == Due(before, now, s)
  {
    notices := first;
    var todo := now.Keys;
    ghost var part := before.Keys;
    while todo != {}
      invariant NewLeft(before.Keys, now.Keys, part, todo) && OnlyServices(notices)
      invariant forall s :: ToldAt(before, now, part, notices, s)
    {
      var s := Next(todo);
      if s !in before {
        GainedToldAll(before, now, part, notices, s);
        notices := notices + [Gained(s, now[s])];
        part := part + {s};
      }
      todo := todo - {s};
    }
    forall s ensures About(notices, s) == Due(before, now, s) {
      assert ToldAt(before, now, part, notices, s);
    }
  }

  /** Of the new services, those done with are in part, next to all the old ones; the others are in todo. */
  ghost predicate NewLeft(before: set<Id>, now: set<Id>, part: set<Id>, todo: set<Id>) {
    forall s :: (s in before ==> s in part) && (s in now && s !in before ==> (s in part <==> s !in todo))
  }

  ghost predicate DialMoved(before: ServiceMap, now: ServiceMap, s: Id) {
    s in before && s in now && now[s].dial && before[s].dialIndex != now[s].dialIndex
  }

  ghost predicate BindMoved(before: ServiceMap, now: ServiceMap, s: Id) {
    s in before && s in now && now[s].bind && before[s].bindIndex != now[s].bindIndex
  }

  /** The policy notifications about services in part, each backed by a moved index. */
  ghost predicate PoliciesTold(before: ServiceMap, now: ServiceMap, part: set<Id>, notices: seq<Notice>) {
    && (forall k :: 0 <= k < |notices| ==>
          || (notices[k].DialPoliciesChanged? && DialMoved(before, now, notices[k].id))
          || (notices[k].BindPoliciesChanged? && BindMoved(before, now, notices[k].id)))
    && (forall s :: s in part && DialMoved(before, now, s) ==> DialPoliciesChanged(s, before[s], now[s]) in notices)
    && (forall s :: s in part && BindMoved(before, now, s) ==> BindPoliciesChanged(s, before[s], now[s]) in notices)
  }

  method NotifyPolicies(before: ServiceMap, now: ServiceMap) returns (notices: seq<Notice>)
    ensures PoliciesTold(before, now, now.Keys, notices)
  {
    notices := [];
    var todo := now.Keys;
    while todo != {}
      invariant todo <= now.Keys
      invariant PoliciesTold(before, now, now.Keys - todo, notices)
    {
      var s := Next(todo);
      if s in before {
        if now[s].dial && before[s].dialIndex != now[s].dialIndex {
          notices := notices + [DialPoliciesChanged(s, before[s], now[s])];
        }
        if now[s].bind && before[s].bindIndex != now[s].bindIndex {
          notices := notices + [BindPoliciesChanged(s, before[s], now[s])];
        }
      }
      todo := todo - {s};
    }
    assert now.Keys - todo == now.Keys;
  }

  // ---- the subscription ------------------------------------------------------------------------------------

  /**
   All that listeners are told about an identity that was there and still is: the notification due for each service
   and no other of its kind, policy notifications for moved indexes, one about the identity when it has a newer index
   and other data, and one about posture checks exactly when the two maps differ in keys or in an index.
   */
  ghost predicate Told(x: Identity, y: Identity, before: ServiceMap, now: ServiceMap,
                       oldChecks: map<Id, Check>, newChecks: map<Id, Check>, notices: seq<Notice>) {
    exists services: seq<Notice>, policies: seq<Notice> ::
      AreParts(x, y, before, now, oldChecks, newChecks, notices, services, policies)
  }

  ghost predicate AreParts(x: Identity, y: Identity, before: ServiceMap, now: ServiceMap, oldChecks: map<Id, Check>,
                           newChecks: map<Id, Check>, notices: seq<Notice>, services: seq<Notice>,
                           policies: seq<Notice>) {
    && OnlyServices(services) && (forall s :: About(services, s) == Due(before, now, s))
    && PoliciesTold(before, now, now.Keys, policies)
    && notices == (if x.index < y.index && x.data != y.data then [IdentityUpdated] else []) + services + policies +
                  (if SameChecks(oldChecks, newChecks) then [] else [ChecksUpdated])
  }

  lemma {:induction false} AboutConcat(a: seq<Notice>, b: seq<Notice>, s: Id)
    ensures About(a + b, s) == About(a, s) + About(b, s)
    decreases |b|
  {
    if b == [] {
      assert a + b == a;
    } else {
      var rest, last := b[..|b| - 1], b[|b| - 1];
      AboutConcat(a, rest, s);
      assert (a + b)[..|a + b| - 1] == a + rest;
    }
  }

  lemma {:induction false} AboutNothing(notices: seq<Notice>, s: Id)
    requires forall k :: 0 <= k < |notices| ==> !Changes(notices[k], s)
    ensures About(notices, s) == []
    decreases |notices|
  {
    if notices != [] {
      AboutNothing(notices[..|notices| - 1], s);
    }
  }

  /**
   A listener that applies what it is told about the services ends up with the new map up to SameService; each service
   gets at most one of gained, lost and updated; the posture check event comes exactly when the checks differ.
   */
  lemma ToldReconstructs(x: Identity, y: Identity, before: ServiceMap, now: ServiceMap,
                         oldChecks: map<Id, Check>, newChecks: map<Id, Check>, notices: seq<Notice>)
    requires Told(x, y, before, now, oldChecks, newChecks, notices)
    ensures forall s :: About(notices, s) == Due(before, now, s) && |About(notices, s)| <= 1
    ensures
      var r := AppliedAll(before, notices);
      && r.Keys == now.Keys
      && forall s :: s in now ==>
                       r[s] == now[s] || (s in before && r[s] == before[s] && SameService(r[s], now[s]))
    ensures ChecksUpdated in notices <==> !SameChecks(oldChecks, newChecks)
    ensures IdentityUpdated in notices <==> x.index < y.index && x.data != y.data
    ensures forall s :: s in before && s in now ==>
              && (DialPoliciesChanged(s, before[s], now[s]) in notices <==>
                  now[s].dial && before[s].dialIndex != now[s].dialIndex)
              && (BindPoliciesChanged(s, before[s], now[s]) in notices <==>
                  now[s].bind && before[s].bindIndex != now[s].bindIndex)
  {
    var services, policies :| AreParts(x, y, before, now, oldChecks, newChecks, notices, services, policies);
    PartsAbout(x, y, before, now, oldChecks, newChecks, notices, services, policies);
    PartsRest(x, y, before, now, oldChecks, newChecks, notices, services, policies);
    NoticesReconstruct(before, now, notices);
    forall s | s in before && s in now {
      PartsPolicies(x, y, before, now, oldChecks, newChecks, notices, services, policies, s);
    }
  }

  lemma PartsPolicies(x: Identity, y: Identity, before: ServiceMap, now: ServiceMap, oldChecks: map<Id, Check>,
                      newChecks: map<Id, Check>, notices: seq<Notice>, services: seq<Notice>, policies: seq<Notice>,
                      s: Id)
    requires AreParts(x, y, before, now, oldChecks, newChecks, notices, services, policies) && s in before && s in now
    ensures DialPoliciesChanged(s, before[s], now[s]) in notices <==>
            now[s].dial && before[s].dialIndex != now[s].dialIndex
    ensures BindPoliciesChanged(s, before[s], now[s]) in notices <==>
            now[s].bind && before[s].bindIndex != now[s].bindIndex
  {
    var dial, bind := DialPoliciesChanged(s, before[s], now[s]), BindPoliciesChanged(s, before[s], now[s]);
    assert dial !in services && bind !in services;
    assert dial in notices <==> dial in policies;
    assert bind in notices <==> bind in policies;
  }

  lemma PartsAbout(x: Identity, y: Identity, before: ServiceMap, now: ServiceMap, oldChecks: map<Id, Check>,
                   newChecks: map<Id, Check>, notices: seq<Notice>, services: seq<Notice>, policies: seq<Notice>)
    requires AreParts(x, y, before, now, oldChecks, newChecks, notices, services, policies)
    ensures forall s :: About(notices, s) == Due(before, now, s)
  {
    var head := if x.index < y.index && x.data != y.data then [IdentityUpdated] else [];
    var tail := if SameChecks(oldChecks, newChecks) then [] else [ChecksUpdated];
    forall s ensures About(notices, s) == Due(before, now, s) {
      AboutNothing(head, s);
      AboutNothing(policies, s);
      AboutNothing(tail, s);
      AboutMiddle(head, services, policies, tail, s);
    }
  }

  lemma AboutMiddle(head: seq<Notice>, services: seq<Notice>, policies: seq<Notice>, tail: seq<Notice>, s: Id)
    requires About(head, s) == About(policies, s) == About(tail, s) == []
    ensures About(head + services + policies + tail, s) == About(services, s)
  {
    AboutConcat(head + services + policies, tail, s);
    AboutConcat(head + services, policies, s);
    AboutConcat(head, services, s);
  }

  lemma PartsRest(x: Identity, y: Identity, before: ServiceMap, now: ServiceMap, oldChecks: map<Id, Check>,
                  newChecks: map<Id, Check>, notices: seq<Notice>, services: seq<Notice>, policies: seq<Notice>)
    requires AreParts(x, y, before, now, oldChecks, newChecks, notices, services, policies)
    ensures ChecksUpdated in notices <==> !SameChecks(oldChecks, newChecks)
    ensures IdentityUpdated in notices <==> x.index < y.index && x.data != y.data
  {
    assert IdentityUpdated !in services && IdentityUpdated !in policies;
    assert ChecksUpdated !in services && ChecksUpdated !in policies;
  }

  class IdentitySubscription {
    const id: Id
    var identity: Option<Identity>
    var services: Option<ServiceMap>
    var checks: Option<map<Id, Check>>

    /** Services and checks are held exactly while the identity is. */
    ghost predicate Valid()
      reads this
    {
      identity.Some? == services.Some? == checks.Some?
    }

    constructor (id: Id)
      ensures Valid() && this.id == id && identity == None
    {
      this.id := id;
      identity, services, checks := None, None, None;
    }

    /** The listeners get the old identity, and the subscription starts over. */
    method IdentityRemoved() returns (notices: seq<Notice>)
      requires Valid()
      modifies this
      ensures Valid() && identity == None
      ensures notices == if old(identity).Some? then [IdentityDeleted] else []
    {
      notices := [];
      if identity.Some? {
        identity, services, checks := None, None, None;
        notices := [IdentityDeleted];
      }
    }

    method EnableTracking(rdm: RouterDataModel)
      requires rdm.Valid() && id in rdm.identities
      modifies rdm`identities
      ensures rdm.Valid() && (old(Exact(rdm.State())) ==> Exact(rdm.State()))
      ensures rdm.identities.Keys == old(rdm.identities).Keys && rdm.identities[id].tracked
    {
      ghost var m := rdm.State();
      ghost var access := rdm.EnableServiceAccessTracking(id);
      if Exact(m) {
        EnableTrackingKeeps(m, id, access);
      }
    }

    /** initialize: tracking is switched on, and the first list is rebuilt from the policies. */
    method Initialize(rdm: RouterDataModel) returns (wasInitialized: bool)
      requires Valid() && rdm.Valid() && id in rdm.identities
      modifies this, rdm`identities
      ensures Valid() && rdm.Valid() && (old(Exact(rdm.State())) ==> Exact(rdm.State())) && identity.Some?
      ensures rdm.identities.Keys == old(rdm.identities).Keys && rdm.identities[id].tracked
      ensures wasInitialized == old(identity).Some?
      ensures wasInitialized ==> identity == old(identity) && services == old(services) && checks == old(checks)
      ensures !wasInitialized ==> identity == Some(rdm.identities[id]) &&
                                  IsServiceList(rdm.State(), identity.value, identity.value.policies, services.value,
                                                checks.value)
    {
      if !rdm.identities[id].tracked {
        EnableTracking(rdm);
      }
      wasInitialized := identity.Some?;
      if !wasInitialized {
        var m := rdm.Value();
        var list, found := BuildServiceList(m, rdm.identities[id]);
        identity, services, checks := Some(rdm.identities[id]), Some(list), Some(found);
      }
    }

    method CheckForChanges(rdm: RouterDataModel) returns (notices: seq<Notice>)
      requires Valid() && rdm.Valid()
      modifies this, rdm`identities
      ensures Valid() && rdm.Valid() && (old(Exact(rdm.State())) ==> Exact(rdm.State()))
      ensures rdm.identities.Keys == old(rdm.identities).Keys
      ensures old(identity).Some? ==> rdm.identities == old(rdm.identities)
      ensures identity == if id in rdm.identities then Some(rdm.identities[id]) else None
      ensures identity.Some? ==>
                IsCountedList(rdm.State(), identity.value, services.value, checks.value) &&
                IndexesOf(identity.value, services.value)
      ensures identity.Some? && identity.value.tracked && Exact(rdm.State()) ==>
                IsServiceList(rdm.State(), identity.value, identity.value.policies, services.value, checks.value)
      ensures identity.None? ==> notices == if old(identity).Some? then [IdentityDeleted] else []
      ensures identity.Some? && old(identity).None? ==> rdm.identities[id].tracked && notices == [FullState]
      ensures identity.Some? && old(identity).Some? ==>
                Told(old(identity).value, identity.value, old(services).value, services.value,
                     old(checks).value, checks.value, notices)
    {
      if id !in rdm.identities {
        notices := IdentityRemoved();
        return;
      }
      if identity.None? {
        EnableTracking(rdm);
      }
      var now := rdm.Value();
      var list, found := BuildServiceListUsingDenormalizedData(now, id);
      if Exact(rdm.State()) && rdm.identities[id].tracked {
        CountedIsServiceList(rdm.State(), id, list, found);
      }
      var x, before, oldChecks := identity, services, checks;
      identity, services, checks := Some(rdm.identities[id]), Some(list), Some(found);
      if x.None? {
        return [FullState];
      }
      notices := Tell(x.value, before.value, oldChecks.value);
    }

    method Tell(x: Identity, before: ServiceMap, oldChecks: map<Id, Check>) returns (notices: seq<Notice>)
      requires Valid() && identity.Some?
      ensures Told(x, identity.value, before, services.value, oldChecks, checks.value, notices)
    {
      var y := identity.value;
      notices := if x.index < y.index && x.data != y.data then [IdentityUpdated] else [];
      var first := NotifyOld(before, services.value);
      var changed := NotifyNew(before, services.value, first);
      var policies := NotifyPolicies(before, services.value);
      var differ := ChecksChanged(oldChecks, checks.value);
      notices := notices + changed + policies + if differ then [ChecksUpdated] else [];
      assert AreParts(x, y, before, services.value, oldChecks, checks.value, notices, changed, policies);
    }
  }
}
