/**
 What not being notified means for the list an identity gets: an event that neither asks for its re-check nor is silent
 about it leaves the list that would be built for it the same, service by service and check by check.
 */
module UnnoticedLists {
  import opened Types
  import opened Relations
  import opened Refinement
  import opened Notifications
  import opened NotificationCompleteness
  import Refs = ReceiverReferences
  import Inv = ReceiverInvariants
  import R = Receiver
  import Lists = ServiceLists

  // ---- the list's inputs, read off the content -------------------------------------------------------------

  lemma GrantedIsGranted(m: R.Model, i: Id, t: PolicyType, s: Id)
    requires Inv.Symmetric(m) && i in m.identities
    ensures Lists.GrantedBy(m.policies, m.identities[i].policies, t, s) <==>
            exists p :: Grants(ReceiverContent(m), i, p, t, s)
  {
    var c, mine := ReceiverContent(m), m.identities[i].policies;
    if p :| p in mine && p in m.policies && m.policies[p].policyType == t && s in m.policies[p].services {
      assert Grants(c, i, p, t, s);
    }
    if p :| Grants(c, i, p, t, s) {
      assert p in mine && p in m.policies;
    }
  }

  lemma UsedIsChecked(m: R.Model, i: Id, k: Id)
    requires Inv.Symmetric(m) && i in m.identities
    ensures k in m.checks && Lists.UsedBy(m.policies, m.identities[i].policies, k) <==>
            Checked(ReceiverContent(m), i, k)
  {
    var c, mine := ReceiverContent(m), m.identities[i].policies;
    if p :| p in mine && p in m.policies && k in m.policies[p].checks && m.policies[p].services != {} {
      assert Member(c, i, p) && k in c.policies[p].checks && c.policies[p].services != {};
    }
    if p :| Member(c, i, p) && k in c.policies[p].checks && c.policies[p].services != {} {
      assert p in mine && p in m.policies;
    }
  }

  lemma SameLoad(m: R.Model, n: R.Model, k: Id)
    requires Load(ReceiverContent(m), k) == Load(ReceiverContent(n), k)
    ensures Lists.Load(m, k) == Lists.Load(n, k)
  {
  }

  lemma {:induction false} SameOwnConfigs(m: R.Model, n: R.Model, ids: seq<Id>)
    requires forall k :: k in ids ==> Lists.Load(m, k) == Lists.Load(n, k)
    ensures Lists.OwnConfigs(m, ids) == Lists.OwnConfigs(n, ids)
    decreases |ids|
  {
    if ids != [] {
      SameOwnConfigs(m, n, ids[..|ids| - 1]);
    }
  }

  lemma SameConfigs(m: R.Model, n: R.Model, own: map<Text, Lists.IdentityConfig>, overrides: map<Id, Id>,
                    after: map<Text, Lists.IdentityConfig>)
    requires forall t :: t in overrides ==> Lists.Load(m, overrides[t]) == Lists.Load(n, overrides[t])
    ensures Lists.IsConfigs(m, own, overrides, overrides.Keys, after) <==>
            Lists.IsConfigs(n, own, overrides, overrides.Keys, after)
  {
    forall name
      ensures Lists.LoadedBy(m, overrides, overrides.Keys, name) <==> Lists.LoadedBy(n, overrides, overrides.Keys, name)
    {
      assert forall t :: t in overrides ==>
                         (Lists.Loads(m, overrides[t], name) <==> Lists.Loads(n, overrides[t], name));
    }
    forall name, config
      ensures Lists.ValueBy(m, overrides, overrides.Keys, name, config) <==>
              Lists.ValueBy(n, overrides, overrides.Keys, name, config)
    {
      assert forall t :: t in overrides ==>
                         (Lists.Loads(m, overrides[t], name) <==> Lists.Loads(n, overrides[t], name));
    }
  }

  // ---- the same inputs, the same list ------------------------------------------------------------------------

  /** The same service with the same configs, to be dialed and bound alike. Bookkeeping indexes and links aside. */
  ghost predicate SameShown(a: Lists.IdentityService, b: Lists.IdentityService) {
    a.service.data == b.service.data && a.configs == b.configs && a.dial == b.dial && a.bind == b.bind
  }

  ghost predicate SameList(a: map<Id, Lists.IdentityService>, b: map<Id, Lists.IdentityService>,
                           c: map<Id, R.Check>, d: map<Id, R.Check>) {
    && a.Keys == b.Keys && (forall s :: s in a ==> SameShown(a[s], b[s]))
    && c.Keys == d.Keys && (forall k :: k in c ==> c[k].data == d[k].data)
  }

  /** The state keeps the order in which the services visible to identity i list their configs. */
  ghost predicate SameLists(m: R.Model, n: R.Model, i: Id) {
    forall s :: Reaches(ReceiverContent(m), i, s) && s in m.services && s in n.services ==>
                  m.services[s].data.configs == n.services[s].data.configs
  }

  lemma ShownIsVisible(m: R.Model, i: Id, a: map<Id, Lists.IdentityService>, s: Id)
    requires i in m.identities && Inv.Symmetric(m)
    requires Lists.ListedAt(m, m.identities[i], m.identities[i].policies, a, s)
    ensures Visible(ReceiverContent(m), i, Dial, s) <==> s in a && a[s].dial
    ensures Visible(ReceiverContent(m), i, Bind, s) <==> s in a && a[s].bind
    ensures Reaches(ReceiverContent(m), i, s) <==> s in a
  {
    GrantedIsGranted(m, i, Dial, s);
    GrantedIsGranted(m, i, Bind, s);
  }

  lemma SameEntry(m: R.Model, n: R.Model, i: Id, a: map<Id, Lists.IdentityService>, b: map<Id, Lists.IdentityService>,
                  s: Id)
    requires i in m.identities && i in n.identities && Inv.Symmetric(m) && Inv.Symmetric(n)
    requires SameView(ReceiverContent(m), ReceiverContent(n), i) && SameLists(m, n, i)
    requires Lists.ListedAt(m, m.identities[i], m.identities[i].policies, a, s)
    requires Lists.ListedAt(n, n.identities[i], n.identities[i].policies, b, s)
    requires Lists.Unambiguous(m, Lists.Overrides(m.identities[i], s))
    ensures (s in a <==> s in b) && (s in a ==> SameShown(a[s], b[s]))
  {
    var c, d := ReceiverContent(m), ReceiverContent(n);
    ShownIsVisible(m, i, a, s);
    ShownIsVisible(n, i, b, s);
    if s in a {
      assert Reaches(c, i, s) && SameService(c, d, i, s);
      SameServiceConfigs(m, n, i, s, a[s].configs, b[s].configs);
    }
  }

  lemma SameServiceConfigs(m: R.Model, n: R.Model, i: Id, s: Id, a: map<Text, Lists.IdentityConfig>,
                           b: map<Text, Lists.IdentityConfig>)
    requires i in m.identities && i in n.identities && s in m.services && s in n.services
    requires SameService(ReceiverContent(m), ReceiverContent(n), i, s)
    requires m.services[s].data.configs == n.services[s].data.configs
    requires
      var overrides := Lists.Overrides(m.identities[i], s);
      && Lists.Unambiguous(m, overrides)
      && Lists.IsConfigs(m, Lists.OwnConfigs(m, m.services[s].data.configs), overrides, overrides.Keys, a)
    requires
      var overrides := Lists.Overrides(n.identities[i], s);
      Lists.IsConfigs(n, Lists.OwnConfigs(n, n.services[s].data.configs), overrides, overrides.Keys, b)
    ensures m.services[s].data == n.services[s].data && a == b
  {
    var c, d := ReceiverContent(m), ReceiverContent(n);
    var overrides, ids := Lists.Overrides(m.identities[i], s), m.services[s].data.configs;
    assert c.services[s] == ServiceContentOf(m.services[s].data) &&
           d.services[s] == ServiceContentOf(n.services[s].data);
    assert OverridesOf(c, i, s) == overrides && OverridesOf(d, i, s) == Lists.Overrides(n.identities[i], s);
    forall k | Uses(c, i, s, k) ensures Lists.Load(m, k) == Lists.Load(n, k) {
      SameLoad(m, n, k);
    }
    forall k | k in ids ensures Uses(c, i, s, k) {
      assert k in multiset(ids);
    }
    SameOwnConfigs(m, n, ids);
    SameConfigs(m, n, Lists.OwnConfigs(m, ids), overrides, b);
    Lists.ConfigsUnique(m, Lists.OwnConfigs(m, ids), overrides, a, b);
  }

  lemma SameViewSameList(m: R.Model, n: R.Model, i: Id, a: map<Id, Lists.IdentityService>,
                         b: map<Id, Lists.IdentityService>, c: map<Id, R.Check>, d: map<Id, R.Check>)
    requires i in m.identities && i in n.identities && Inv.Symmetric(m) && Inv.Symmetric(n)
    requires SameView(ReceiverContent(m), ReceiverContent(n), i) && SameLists(m, n, i)
    requires forall s :: Lists.Unambiguous(m, Lists.Overrides(m.identities[i], s))
    requires Lists.IsServiceList(m, m.identities[i], m.identities[i].policies, a, c)
    requires Lists.IsServiceList(n, n.identities[i], n.identities[i].policies, b, d)
    ensures SameList(a, b, c, d)
  {
    forall s ensures (s in a <==> s in b) && (s in a ==> SameShown(a[s], b[s])) {
      assert Lists.ListedAt(m, m.identities[i], m.identities[i].policies, a, s);
      assert Lists.ListedAt(n, n.identities[i], n.identities[i].policies, b, s);
      SameEntry(m, n, i, a, b, s);
    }
    forall k ensures (k in c <==> k in d) && (k in c ==> c[k].data == d[k].data) {
      assert Lists.CheckedAt(m, m.identities[i].policies, c, k) && Lists.CheckedAt(n, n.identities[i].policies, d, k);
      UsedIsChecked(m, i, k);
      UsedIsChecked(n, i, k);
    }
  }

  // ---- through an event ----------------------------------------------------------------------------------------

  lemma ConfigEventsKeepLists(m: R.Model, index: nat, id: Id, data: ConfigData, s: Id)
    requires s in m.services
    ensures s in R.PutConfig(m, index, id, data).services && s in R.DeleteConfig(m, index, id).services
    ensures R.PutConfig(m, index, id, data).services[s].data == m.services[s].data
    ensures R.DeleteConfig(m, index, id).services[s].data == m.services[s].data
  {
  }

  /** An event that does not concern identity i leaves its services' config lists in order. */
  lemma ListsKept(m: R.Model, index: nat, e: Event, i: Id)
    requires i in m.identities && (e.ServiceEvent? ==> !Reaches(ReceiverContent(m), i, e.id))
    ensures SameLists(m, R.Handle(m, index, e), i)
  {
    var n := R.Handle(m, index, e);
    match e
    case ConfigEvent(_, id, data) =>
      forall s | s in m.services && s in n.services ensures m.services[s].data.configs == n.services[s].data.configs {
        ConfigEventsKeepLists(m, index, id, data, s);
      }
    case ServiceEvent(_, id, data) =>
      forall s | s in m.services && s in n.services && s != id
        ensures m.services[s].data.configs == n.services[s].data.configs
      {
      }
    case _ => Refs.OtherEventsKeepConfigLists(m, index, e);
  }

  lemma ServiceEventConcerns(m: R.Model, e: Event, i: Id)
    requires ReferencesExact(m) && i in m.identities && e.ServiceEvent? && Reaches(ReceiverContent(m), i, e.id)
    ensures i in Notified(m, e)
  {
    var p, t := GrantorOf(ReceiverContent(m), i, e.id);
    NoticedIsNotified(m, e, i);
  }

  /**
   An event that does not ask for identity i's re-check changes its list only by being silent about it: any two lists
   built before and after, in whatever order, show the same services, configs, permissions and posture checks.
   */
  lemma UnnoticedKeepsList(m: R.Model, index: nat, e: Event, i: Id, a: map<Id, Lists.IdentityService>,
                           b: map<Id, Lists.IdentityService>, c: map<Id, R.Check>, d: map<Id, R.Check>)
    requires ReferencesExact(m) && Closed(ReceiverContent(m)) && WellFormed(ReceiverContent(m), e)
    requires i in m.identities && i in R.Handle(m, index, e).identities
    requires i !in Notified(m, e) && !Silent(ReceiverContent(m), e, i)
    requires forall s :: Lists.Unambiguous(m, Lists.Overrides(m.identities[i], s))
    requires Lists.IsServiceList(m, m.identities[i], m.identities[i].policies, a, c)
    requires
      var n := R.Handle(m, index, e);
      Lists.IsServiceList(n, n.identities[i], n.identities[i].policies, b, d)
    ensures SameList(a, b, c, d)
  {
    ReceiverRefines(m, index, e);
    UninformedIff(m, index, e, i);
    if e.ServiceEvent? && Reaches(ReceiverContent(m), i, e.id) {
      ServiceEventConcerns(m, e, i);
    }
    ListsKept(m, index, e, i);
    SameViewSameList(m, R.Handle(m, index, e), i, a, b, c, d);
  }

  lemma VisibleElsewhere(m: R.Model, n: R.Model, i: Id, a: map<Id, Lists.IdentityService>,
                         b: map<Id, Lists.IdentityService>, t: PolicyType, s: Id)
    requires i in m.identities && i in n.identities && Inv.Symmetric(m) && Inv.Symmetric(n)
    requires Lists.ListedAt(m, m.identities[i], m.identities[i].policies, a, s)
    requires Lists.ListedAt(n, n.identities[i], n.identities[i].policies, b, s)
    requires Visible(ReceiverContent(m), i, t, s) != Visible(ReceiverContent(n), i, t, s)
    ensures !(a.Keys == b.Keys && (s in a ==> SameShown(a[s], b[s])))
  {
    ShownIsVisible(m, i, a, s);
    ShownIsVisible(n, i, b, s);
  }

  lemma SilentFlipVisible(c: Content, e: Event, i: Id) returns (t: PolicyType, s: Id)
    requires e.PolicyEvent? && Silent(c, e, i)
    ensures Visible(c, i, t, s) != Visible(Step(c, e), i, t, s)
  {
    s :| s in c.policies[e.id].services && s in c.services &&
         !(GrantedBeside(c, i, e.id, Dial, s) && GrantedBeside(c, i, e.id, Bind, s));
    FlipAt(c, i, e.id, e.policyName, e.policyType, s);
    t :| Visible(c, i, t, s) != Visible(Step(c, e), i, t, s);
  }

  /** Of the silent events a type flip always changes the list. */
  lemma SilentFlipChangesList(m: R.Model, index: nat, e: Event, i: Id, a: map<Id, Lists.IdentityService>,
                              b: map<Id, Lists.IdentityService>, c: map<Id, R.Check>, d: map<Id, R.Check>)
    requires ReferencesExact(m) && Closed(ReceiverContent(m)) && e.PolicyEvent?
    requires i in m.identities && i in R.Handle(m, index, e).identities && Silent(ReceiverContent(m), e, i)
    requires Lists.IsServiceList(m, m.identities[i], m.identities[i].policies, a, c)
    requires
      var n := R.Handle(m, index, e);
      Lists.IsServiceList(n, n.identities[i], n.identities[i].policies, b, d)
    ensures !SameList(a, b, c, d)
  {
    var n := R.Handle(m, index, e);
    ReceiverRefines(m, index, e);
    var t, s := SilentFlipVisible(ReceiverContent(m), e, i);
    VisibleElsewhere(m, n, i, a, b, t, s);
  }
}
