/**
 One failing input for each promise that holds only under a condition. The states are small and, except for the failing
 event, in order.
 */
module Counterexamples {
  import opened Types
  import opened Identities
  import opened Relations
  import opened Refinement
  import opened Notifications
  import opened NotificationCompleteness
  import opened Snapshot
  import Lists = ServiceLists
  import SilentLists
  import Unnoticed = UnnoticedLists
  import Refs = ReceiverReferences
  import R = Receiver
  import S = Sender

  // ---- references ----------------------------------------------------------------------------------------

  function NewIdentity(x: Text, overrides: map<Id, map<Id, Id>>, policies: set<Id>): Identity {
    Identity(IdentityData(x, overrides), policies, map[], map[], 0, false)
  }

  /** An override names config 4 before the config is created. */
  lemma OverrideBeforeConfig(x: Text)
    ensures
      var m := R.EmptyModel.(identities := map[1 := NewIdentity(x, map[2 := map[3 := 4]], {})]);
      var e := ConfigEvent(Create, 4, ConfigData(3, x, x));
      Refs.IdentityRefsExact(m) && !Refs.IdentityRefsExact(R.Handle(m, 1, e))
  {
    var m := R.EmptyModel.(identities := map[1 := NewIdentity(x, map[2 := map[3 := 4]], {})]);
    assert 2 in m.identities[1].data.serviceConfigs && m.identities[1].data.serviceConfigs[2][3] == 4;
    assert 1 in m.identities && 4 in Referenced(m.identities[1].data.serviceConfigs);
    Refs.IdentityRefsExactIff(m, 1, ConfigEvent(Create, 4, ConfigData(3, x, x)));
  }

  /** A service lists config 4 before the config is created. */
  lemma ListBeforeConfig(x: Text)
    ensures
      var m := R.EmptyModel.(services := map[1 := R.Service(ServiceData(x, false, [4]), {}, 0)]);
      var e := ConfigEvent(Create, 4, ConfigData(3, x, x));
      Refs.ServiceRefsExact(m) && !Refs.ServiceRefsExact(R.Handle(m, 1, e))
  {
    var m := R.EmptyModel.(services := map[1 := R.Service(ServiceData(x, false, [4]), {}, 0)]);
    assert 1 in m.services && 4 in multiset(m.services[1].data.configs);
    Refs.ServiceRefsExactIff(m, 1, ConfigEvent(Create, 4, ConfigData(3, x, x)));
  }

  /** A service listed config 4 twice and now lists it once: its reference goes although the config stays listed. */
  lemma ListedLessOftenLosesReference(x: Text)
    ensures
      var m := R.EmptyModel.(services := map[1 := R.Service(ServiceData(x, false, [4, 4]), {}, 0)],
                             configs := map[4 := R.Config(ConfigData(3, x, x), {1}, {}, 0)]);
      var e := ServiceEvent(Update, 1, ServiceData(x, false, [4]));
      Refs.ServiceRefsExact(m) && !Refs.ServiceRefsExact(R.Handle(m, 1, e))
  {
    var m := R.EmptyModel.(services := map[1 := R.Service(ServiceData(x, false, [4, 4]), {}, 0)],
                           configs := map[4 := R.Config(ConfigData(3, x, x), {1}, {}, 0)]);
    forall c, s | c in m.configs ensures Refs.ServiceRefsExactAt(m, c, s) {
    }
    assert multiset([4])[4] == 1 && multiset(m.services[1].data.configs)[4] == 2;
    Refs.ServiceRefsExactIff(m, 1, ServiceEvent(Update, 1, ServiceData(x, false, [4])));
  }

  /** A policy is given a service that does not exist. */
  lemma UnknownServiceBreaksLinks(x: Text)
    ensures
      var m := R.EmptyModel.(policies := map[2 := Policy(x, Dial, {}, {}, {}, 0, 0)]);
      var e := ChangeEvent(PolicyChange(2, RelatedService, [9], true));
      Refs.Links(m) && !Refs.Links(R.Handle(m, 1, e))
  {
    var m := R.EmptyModel.(policies := map[2 := Policy(x, Dial, {}, {}, {}, 0, 0)]);
    assert 9 in [9] && 9 !in m.services;
    Refs.LinksIff(m, 1, ChangeEvent(PolicyChange(2, RelatedService, [9], true)));
  }

  /** A policy is deleted and its id used again: the service it had still refers to it. */
  lemma RevivedPolicyBreaksBackLinks(x: Text)
    ensures
      var m := R.EmptyModel.(services := map[1 := R.Service(ServiceData(x, false, []), {2}, 0)],
                             policies := map[2 := Policy(x, Dial, {1}, {}, {}, 0, 0)]);
      var n := R.Handle(m, 1, PolicyEvent(Delete, 2, x, Dial));
      Refs.Links(m) && Refs.BackLinks(m) && !Refs.BackLinks(R.Handle(n, 2, PolicyEvent(Create, 2, x, Dial)))
  {
    var m := R.EmptyModel.(services := map[1 := R.Service(ServiceData(x, false, []), {2}, 0)],
                           policies := map[2 := Policy(x, Dial, {1}, {}, {}, 0, 0)]);
    var n := R.Handle(m, 1, PolicyEvent(Delete, 2, x, Dial));
    Refs.BackLinksIff(m, 1, PolicyEvent(Delete, 2, x, Dial));
    assert 1 in n.services && 2 in n.services[1].policies && 2 !in n.policies;
    Refs.BackLinksIff(n, 2, PolicyEvent(Create, 2, x, Dial));
  }

  // ---- notifications -------------------------------------------------------------------------------------

  ghost function DialModel(x: Text): R.Model {
    R.EmptyModel.(identities := map[2 := NewIdentity(x, map[], {3})],
                  services := map[1 := R.Service(ServiceData(x, false, []), {3}, 0)],
                  policies := map[3 := Policy(x, Dial, {1}, {}, {2}, 0, 0)])
  }

  lemma DialModelExact(x: Text)
    ensures ReferencesExact(DialModel(x)) && Closed(ReceiverContent(DialModel(x)))
  {
    var m := DialModel(x);
    forall i, k | i in m.identities ensures ChecksExactAt(m.policies, m.identities[i], k) {
      assert Using(m.policies, m.identities[i].policies, k) == {};
    }
    var c := ReceiverContent(m);
    assert c.policies[3] == PolicyContentOf(m.policies[3]) && c.identities[2] == m.identities[2].data;
    assert 1 in c.services && 2 in c.identities;
  }

  /** One policy, one service, one identity: when the policy turns from dial to bind, the identity is not told. */
  lemma FlipGoesUnnoticed(x: Text, index: nat)
    ensures
      var m, e := DialModel(x), PolicyEvent(Update, 3, x, Bind);
      && ReferencesExact(m) && 2 !in Notified(m, e)
      && !SameView(ReceiverContent(m), ReceiverContent(R.Handle(m, index, e)), 2)
  {
    var m, e := DialModel(x), PolicyEvent(Update, 3, x, Bind);
    var c := ReceiverContent(m);
    DialModelExact(x);
    assert c.policies[3] == PolicyContentOf(m.policies[3]);
    assert 1 in c.policies[3].services && 1 in c.services && !GrantedBeside(c, 2, 3, Dial, 1);
    assert Silent(c, e, 2);
    UninformedIff(m, index, e, 2);
  }

  /** The same with a config of type 7, named by x, that the service lists. */
  ghost function ConfiguredModel(x: Text): R.Model {
    DialModel(x).(configTypes := map[7 := R.ConfigType(x, 0)],
                  configs := map[4 := R.Config(ConfigData(7, x, x), {1}, {}, 0)],
                  services := map[1 := R.Service(ServiceData(x, false, [4]), {3}, 0)])
  }

  /** The list of identity 2 has service 1, with exactly the configs that the service's own list loads. */
  lemma ListsServiceOne(m: R.Model, x: Text, a: map<Id, Lists.IdentityService>, c: map<Id, R.Check>)
    requires m.identities == DialModel(x).identities && m.policies == DialModel(x).policies && 1 in m.services
    requires SilentLists.IsListOf(m, 2, a, c)
    ensures 1 in a && a[1].configs == Lists.OwnConfigs(m, m.services[1].data.configs)
    ensures forall s :: Lists.Overrides(m.identities[2], s) == map[]
  {
    assert 3 in m.identities[2].policies && 1 in m.policies[3].services;
    assert Lists.ListedAt(m, m.identities[2], m.identities[2].policies, a, 1);
    var own := Lists.OwnConfigs(m, m.services[1].data.configs);
    assert forall n :: !Lists.LoadedBy(m, map[], {}, n);
    assert a[1].configs.Keys == own.Keys;
  }

  lemma OwnOne(m: R.Model, k: Id)
    ensures Lists.OwnConfigs(m, [k]) == Lists.Put(m, map[], k)
  {
    assert [k][..0] == [];
  }

  /** The config type is deleted: the identity is not told that its service lost the config. */
  lemma TypeDeleteGoesUnnoticed(x: Text, index: nat, a: map<Id, Lists.IdentityService>,
                                b: map<Id, Lists.IdentityService>, c: map<Id, R.Check>, d: map<Id, R.Check>)
    requires
      var e := ConfigTypeEvent(Delete, 7, x);
      SilentLists.IsListOf(ConfiguredModel(x), 2, a, c) &&
      SilentLists.IsListOf(R.Handle(ConfiguredModel(x), index, e), 2, b, d)
    ensures 2 !in Notified(ConfiguredModel(x), ConfigTypeEvent(Delete, 7, x)) && !Unnoticed.SameList(a, b, c, d)
  {
    var m, e := ConfiguredModel(x), ConfigTypeEvent(Delete, 7, x);
    ListsServiceOne(m, x, a, c);
    OwnOne(m, 4);
    assert x in a[1].configs && a[1].configs[x].typeId == 7;
    SilentLists.TypeDeleteChangesListIff(m, index, e, 2, a, b, c, d);
  }

  /** The config is created after the service lists it: the identity is not told that its service has it now. */
  lemma LateConfigGoesUnnoticed(x: Text, index: nat, a: map<Id, Lists.IdentityService>,
                                b: map<Id, Lists.IdentityService>, c: map<Id, R.Check>, d: map<Id, R.Check>)
    requires
      var m, e := ConfiguredModel(x).(configs := map[]), ConfigEvent(Create, 4, ConfigData(7, x, x));
      SilentLists.IsListOf(m, 2, a, c) && SilentLists.IsListOf(R.Handle(m, index, e), 2, b, d)
    ensures
      var m, e := ConfiguredModel(x).(configs := map[]), ConfigEvent(Create, 4, ConfigData(7, x, x));
      2 !in Notified(m, e) && !Unnoticed.SameList(a, b, c, d)
  {
    var m, e := ConfiguredModel(x).(configs := map[]), ConfigEvent(Create, 4, ConfigData(7, x, x));
    ListsServiceOne(m, x, a, c);
    OwnOne(m, 4);
    assert [4][0] == 4;
    assert SilentLists.LastOf(m, [4], 4, x);
    SilentLists.LateConfigChangesListIff(m, index, e, 2, a, b, c, d);
  }

  // ---- the two replicas ----------------------------------------------------------------------------------

  function NewSenderIdentity(x: Text, overrides: map<Id, map<Id, Id>>, policies: set<Id>): Option<S.SenderIdentity> {
    Some(S.SenderIdentity(IdentityData(x, overrides), policies))
  }

  /**
   A membership change names an identity the controller does not have: it gets an entry that holds nil, and there is no
   snapshot to be had.
   */
  lemma UnknownIdentityIsNil(o: Order)
    requires
      var change := PolicyChange(2, RelatedIdentity, [7], true);
      Orders(SenderSource(S.Change(S.EmptySender, change)), o)
    ensures
      var s := S.Change(S.EmptySender, PolicyChange(2, RelatedIdentity, [7], true));
      NoNil(S.EmptySender) && !NoNil(s) && SenderSnapshot(s, o).None?
  {
    assert 7 in ToSet([7]) && 7 !in S.EmptySender.identities.Keys;
    NilIff(S.EmptySender, PolicyChange(2, RelatedIdentity, [7], true));
  }

  /** A posture check is deleted while a policy lists it: only the router takes it out of the policy. */
  lemma CheckDeleteParts(x: Text)
    ensures
      var s := S.EmptySender.(checks := map[1 := x], policies := map[2 := S.SenderPolicy(x, Dial, {}, {1})]);
      var m := R.EmptyModel.(checks := map[1 := R.Check(x, {2}, 0)],
                             policies := map[2 := Policy(x, Dial, {}, {1}, {}, 0, 0)]);
      var e := CheckEvent(Delete, 1, x);
      Agree(s, m) && !Agree(S.Handle(s, e), R.Handle(m, 1, e))
  {
    var s := S.EmptySender.(checks := map[1 := x], policies := map[2 := S.SenderPolicy(x, Dial, {}, {1})]);
    var m := R.EmptyModel.(checks := map[1 := R.Check(x, {2}, 0)],
                           policies := map[2 := Policy(x, Dial, {}, {1}, {}, 0, 0)]);
    var c, d := SenderContent(s), ReceiverContent(m);
    assert Members(s.identities, 2) == {} && c.policies[2] == d.policies[2];
    assert c.checks == d.checks && c.policies == d.policies && c.services == d.services && c.identities == d.identities;
    assert c.configs == d.configs && c.configTypes == d.configTypes;
    assert 2 in c.policies && 1 in c.policies[2].checks;
    CheckDeleteAgreesIff(s, m, 1, 1, x);
  }

  /** A config is deleted while an override names it: only the router purges the override. */
  lemma ConfigDeleteParts(x: Text)
    ensures
      var s := S.EmptySender.(configs := map[4 := ConfigData(3, x, x)],
                              identities := map[1 := NewSenderIdentity(x, map[2 := map[3 := 4]], {})]);
      var m := R.EmptyModel.(configs := map[4 := R.Config(ConfigData(3, x, x), {}, {1}, 0)],
                             identities := map[1 := NewIdentity(x, map[2 := map[3 := 4]], {})]);
      var e := ConfigEvent(Delete, 4, ConfigData(3, x, x));
      Agree(s, m) && !Agree(S.Handle(s, e), R.Handle(m, 1, e))
  {
    var s := S.EmptySender.(configs := map[4 := ConfigData(3, x, x)],
                            identities := map[1 := NewSenderIdentity(x, map[2 := map[3 := 4]], {})]);
    var m := R.EmptyModel.(configs := map[4 := R.Config(ConfigData(3, x, x), {}, {1}, 0)],
                           identities := map[1 := NewIdentity(x, map[2 := map[3 := 4]], {})]);
    var overrides: map<Id, map<Id, Id>> := map[2 := map[3 := 4]];
    assert 2 in overrides && 3 in overrides[2] && overrides[2][3] == 4;
    assert Referenced(overrides) == {4};
    var c, d := SenderContent(s), ReceiverContent(m);
    assert c.configs == d.configs && c.identities == d.identities && c.services == d.services &&
           c.policies == d.policies;
    assert c.checks == d.checks && c.configTypes == d.configTypes;
    assert 1 in c.identities && 4 in Referenced(c.identities[1].serviceConfigs);
    ConfigDeleteAgreesIff(s, m, 1, 4, ConfigData(3, x, x));
  }

  /** A policy id comes back while an identity of the controller still lists it: only there it has a member again. */
  lemma PolicyReuseParts(x: Text)
    ensures
      var s := S.EmptySender.(identities := map[1 := NewSenderIdentity(x, map[], {2})]);
      var m := R.EmptyModel.(identities := map[1 := NewIdentity(x, map[], {})]);
      var e := PolicyEvent(Create, 2, x, Dial);
      Agree(s, m) && !Agree(S.Handle(s, e), R.Handle(m, 1, e))
  {
    var s := S.EmptySender.(identities := map[1 := NewSenderIdentity(x, map[], {2})]);
    var m := R.EmptyModel.(identities := map[1 := NewIdentity(x, map[], {})]);
    var c, d := SenderContent(s), ReceiverContent(m);
    assert c.identities == d.identities && c.configs == d.configs && c.services == d.services &&
           c.policies == d.policies;
    assert c.checks == d.checks && c.configTypes == d.configTypes;
    assert 1 in Members(s.identities, 2);
    PolicyCreateAgreesIff(s, m, 1, 2, x, Dial);
  }
}
