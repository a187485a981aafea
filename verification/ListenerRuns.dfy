/**
 What the listeners of a subscription (common/subscriber.go) have after a check, given that the subscription compares by
 index: between two checks the router handles change sets of higher index.
 */
module ListenerRuns {
  import opened Types
  import opened Identities
  import opened Receiver
  import opened ServiceLists
  import opened Subscriptions
  import opened IndexRuns
  import opened AccessRuns
  import Inv = ReceiverInvariants

  /** Lists whose services and posture checks are those of the model. */
  ghost predicate ReadFrom(m: Model, list: ServiceMap, checks: map<Id, Check>) {
    && (forall s :: s in list ==> s in m.services && list[s].service == m.services[s])
    && (forall c :: c in checks ==> c in m.checks && checks[c] == m.checks[c])
  }

  /** Both builders' lists are. */
  lemma ListsReadFrom(m: Model, x: Identity, list: ServiceMap, checks: map<Id, Check>)
    requires IsServiceList(m, x, x.policies, list, checks) || IsCountedList(m, x, list, checks)
    ensures ReadFrom(m, list, checks)
  {
    if IsServiceList(m, x, x.policies, list, checks) {
      forall s | s in list ensures s in m.services && list[s].service == m.services[s] {
        assert ListedAt(m, x, x.policies, list, s);
      }
      forall c | c in checks ensures c in m.checks && checks[c] == m.checks[c] {
        assert CheckedAt(m, x.policies, checks, c);
      }
    } else {
      forall s | s in list ensures s in m.services && list[s].service == m.services[s] {
        assert CountedAt(m, x, x.access.Keys, list, s);
      }
      forall c | c in checks ensures c in m.checks && checks[c] == m.checks[c] {
        assert CheckEntry(m, checks, c, c in x.checks);
      }
    }
  }

  lemma SameServiceSameData(m: Model, i: nat, ops: seq<Inv.Op>, s: Id, a: IdentityService, b: IdentityService)
    requires Bounded(m, i) && Above(ops, i) && SameService(a, b)
    requires s in m.services && a.service == m.services[s]
    requires s in Inv.AfterAll(m, ops).services && b.service == Inv.AfterAll(m, ops).services[s]
    ensures a.service.data == b.service.data
  {
    IndexTells(m, i, ops, s);
  }

  /** Shown alike: the same service data, configs and permissions. */
  ghost predicate ShownAlike(a: IdentityService, b: IdentityService) {
    a.service.data == b.service.data && a.configs == b.configs && a.dial == b.dial && a.bind == b.bind
  }

  /**
   A subscription read the lists before and oldChecks in state m of a router at index i, and now reads the lists of a
   later state, reached by events of higher index. A listener that applies what it is told has exactly the services of
   the new list, with their data, configs and permissions. It is told of posture checks whenever one came, went or has
   other data. It is told of the identity if and only if its data changed, but for a change by purged overrides alone.
   */
  lemma ListenersKeepUp(m: Model, i: nat, ops: seq<Inv.Op>, x: Id, before: ServiceMap, oldChecks: map<Id, Check>,
                        now: ServiceMap, newChecks: map<Id, Check>, notices: seq<Notice>)
    requires Bounded(m, i) && Above(ops, i) && x in m.identities && x in Inv.AfterAll(m, ops).identities
    requires ReadFrom(m, before, oldChecks) && ReadFrom(Inv.AfterAll(m, ops), now, newChecks)
    requires Told(m.identities[x], Inv.AfterAll(m, ops).identities[x], before, now, oldChecks, newChecks, notices)
    ensures
      var r := AppliedAll(before, notices);
      r.Keys == now.Keys && forall s :: s in now ==> ShownAlike(r[s], now[s])
    ensures ChecksUpdated !in notices ==>
              oldChecks.Keys == newChecks.Keys && forall c :: c in newChecks ==> oldChecks[c].data == newChecks[c].data
    ensures
      var a, b := m.identities[x], Inv.AfterAll(m, ops).identities[x];
      IdentityUpdated in notices <==> a.data != b.data && !(a.index == b.index && PurgesIn(m, ops, x))
  {
    var n := Inv.AfterAll(m, ops);
    ToldReconstructs(m.identities[x], n.identities[x], before, now, oldChecks, newChecks, notices);
    var r := AppliedAll(before, notices);
    forall s | s in now ensures ShownAlike(r[s], now[s]) {
      if r[s] != now[s] {
        SameServiceSameData(m, i, ops, s, before[s], now[s]);
      }
    }
    if ChecksUpdated !in notices {
      forall c | c in newChecks ensures oldChecks[c].data == newChecks[c].data {
        IndexTells(m, i, ops, c);
      }
    }
    IndexTells(m, i, ops, x);
  }

  /**
   And it is told that the dial (bind) policies of a service changed whenever their number did and some are left, while
   the identity stays tracked.
   */
  lemma PoliciesHeard(m: Model, i: nat, ops: seq<Inv.Op>, x: Id, before: ServiceMap, oldChecks: map<Id, Check>,
                      now: ServiceMap, newChecks: map<Id, Check>, notices: seq<Notice>, s: Id)
    requires IndexesBounded(m, i) && Above(ops, i) && TrackedThroughout(m, ops, x)
    requires x in Inv.AfterAll(m, ops).identities && s in before && s in now
    requires IndexesOf(m.identities[x], before)
    requires IsCountedList(Inv.AfterAll(m, ops), Inv.AfterAll(m, ops).identities[x], now, newChecks)
    requires IndexesOf(Inv.AfterAll(m, ops).identities[x], now)
    requires Told(m.identities[x], Inv.AfterAll(m, ops).identities[x], before, now, oldChecks, newChecks, notices)
    ensures
      var a, b := m.identities[x].access, Inv.AfterAll(m, ops).identities[x].access;
      && (now[s].dial && a[s].dial != b[s].dial ==> DialPoliciesChanged(s, before[s], now[s]) in notices)
      && (now[s].bind && a[s].bind != b[s].bind ==> BindPoliciesChanged(s, before[s], now[s]) in notices)
  {
    var n := Inv.AfterAll(m, ops);
    ToldReconstructs(m.identities[x], n.identities[x], before, now, oldChecks, newChecks, notices);
    assert CountedAt(n, n.identities[x], n.identities[x].access.Keys, now, s);
    assert AccessBounded(m, i, x);
    assert IndexOf(m.identities[x].access[s], Dial) <= i && IndexOf(m.identities[x].access[s], Bind) <= i;
    CounterTells(m, ops, i, x, Dial, s);
    CounterTells(m, ops, i, x, Bind, s);
  }

  // ---- where the index does not tell ------------------------------------------------------------------------------

  /** One check, put at index 8 and, after a subscription looked, again in the same change set: it hears nothing. */
  lemma PutTwiceGoesUnheard(x: Text, y: Text)
    requires x != y
    ensures
      var first, second := CheckEvent(Create, 6, x), CheckEvent(Update, 6, y);
      var m := Handle(EmptyModel, 8, first);
      var n := Handle(m, 8, second);
      m.checks.Keys == n.checks.Keys && m.checks[6].data != n.checks[6].data && SameChecks(m.checks, n.checks)
  {
    var m := Handle(EmptyModel, 8, CheckEvent(Create, 6, x));
    var n := Handle(m, 8, CheckEvent(Update, 6, y));
    assert m.checks.Keys == {6} && n.checks.Keys == {6};
  }

  /** A config delete purges an override: the identity's data changes, and its index does not. */
  lemma PurgeGoesUnheard(x: Text, data: ConfigData)
    ensures
      var one := Identity(IdentityData(x, map[2 := map[3 := 4]]), {}, map[], map[], 7, false);
      var m := EmptyModel.(identities := map[1 := one], configs := map[4 := Config(data, {}, {1}, 7)]);
      var n := Handle(m, 8, ConfigEvent(Delete, 4, data));
      1 in n.identities && n.identities[1].data != one.data && n.identities[1].index == one.index
  {
    var sc: map<Id, map<Id, Id>> := map[2 := map[3 := 4]];
    assert 2 in sc && 3 in sc[2] && sc[2][3] == 4;
    PurgedIff(sc, 4);
  }
}
