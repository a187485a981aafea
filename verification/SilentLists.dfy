/**
 When an event that notifies nobody changes the list an identity gets. Beside the type flip of a policy these are the
 delete of a config type and the create of a config that something names already. Each changes the list exactly where
 the config concerned is, or is going to be, the one shown under its type name.
 */
module SilentLists {
  import opened Types
  import opened Identities
  import opened ServiceLists
  import opened Notifications
  import R = Receiver
  import Unnoticed = UnnoticedLists

  type Configs = map<Text, IdentityConfig>

  // ---- only configs and their types change ------------------------------------------------------------------

  ghost predicate ConfigsOnly(m: R.Model, n: R.Model) {
    n == m.(configs := n.configs, configTypes := n.configTypes)
  }

  /** What is listed for identity i, and the posture checks with it, built in some order. */
  ghost predicate IsListOf(m: R.Model, i: Id, list: map<Id, IdentityService>, checks: map<Id, R.Check>) {
    i in m.identities && IsServiceList(m, m.identities[i], m.identities[i].policies, list, checks)
  }

  lemma SameButConfigs(m: R.Model, n: R.Model, i: Id, a: map<Id, IdentityService>, b: map<Id, IdentityService>,
                       c: map<Id, R.Check>, d: map<Id, R.Check>)
    requires ConfigsOnly(m, n) && IsListOf(m, i, a, c) && IsListOf(n, i, b, d)
    ensures a.Keys == b.Keys
    ensures Unnoticed.SameList(a, b, c, d) <==> forall s :: s in a ==> a[s].configs == b[s].configs
  {
    var x := m.identities[i];
    forall s ensures (s in a <==> s in b) && (s in a ==> a[s].service == b[s].service)
             ensures s in a ==> a[s].dial == b[s].dial && a[s].bind == b[s].bind
    {
      assert ListedAt(m, x, x.policies, a, s) && ListedAt(n, x, x.policies, b, s);
    }
    forall k ensures (k in c <==> k in d) && (k in c ==> c[k] == d[k]) {
      assert CheckedAt(m, x.policies, c, k) && CheckedAt(n, x.policies, d, k);
    }
  }

  /** The configs shown for a service. */
  lemma ShownConfigs(m: R.Model, i: Id, a: map<Id, IdentityService>, c: map<Id, R.Check>, s: Id)
    requires IsListOf(m, i, a, c) && s in a
    ensures s in m.services
    ensures
      var overrides := Overrides(m.identities[i], s);
      IsConfigs(m, OwnConfigs(m, m.services[s].data.configs), overrides, overrides.Keys, a[s].configs)
  {
    assert ListedAt(m, m.identities[i], m.identities[i].policies, a, s);
  }

  // ---- a config type goes ------------------------------------------------------------------------------------

  ghost predicate ShowsType(configs: Configs, t: Id) {
    exists name :: name in configs && configs[name].typeId == t
  }

  /** Configs of type t load no more, all others as before. */
  ghost predicate DropsType(m: R.Model, n: R.Model, t: Id) {
    forall k :: Load(n, k) == if Load(m, k).Some? && Load(m, k).value.typeId == t then None else Load(m, k)
  }

  lemma {:induction false} OwnWithoutType(m: R.Model, n: R.Model, t: Id, ids: seq<Id>, name: Text)
    requires DropsType(m, n, t)
    ensures
      var before, after := OwnConfigs(m, ids), OwnConfigs(n, ids);
      && (name in before && before[name].typeId != t ==> name in after && after[name] == before[name])
      && (name in after ==> name in before && after[name].typeId != t)
    decreases |ids|
  {
    if ids != [] {
      OwnWithoutType(m, n, t, ids[..|ids| - 1], name);
    }
  }

  lemma LoadsWithoutType(m: R.Model, n: R.Model, t: Id, overrides: map<Id, Id>, name: Text)
    requires DropsType(m, n, t)
    ensures LoadedBy(n, overrides, overrides.Keys, name) ==> LoadedBy(m, overrides, overrides.Keys, name)
    ensures forall config :: ValueBy(n, overrides, overrides.Keys, name, config) <==>
                             ValueBy(m, overrides, overrides.Keys, name, config) && config.typeId != t
  {
    forall k | Loads(n, k, name) ensures Loads(m, k, name) && Load(m, k) == Load(n, k) && Load(n, k).value.typeId != t {
    }
    forall config | ValueBy(m, overrides, overrides.Keys, name, config) && config.typeId != t
      ensures ValueBy(n, overrides, overrides.Keys, name, config)
    {
      var u :| u in overrides && Loads(m, overrides[u], name) && Load(m, overrides[u]).value == config;
      assert Loads(n, overrides[u], name);
    }
  }

  lemma ValueUnique(m: R.Model, overrides: map<Id, Id>, name: Text, a: IdentityConfig, b: IdentityConfig)
    requires Unambiguous(m, overrides)
    requires ValueBy(m, overrides, overrides.Keys, name, a) && ValueBy(m, overrides, overrides.Keys, name, b)
    ensures a == b
  {
    var s :| s in overrides && Loads(m, overrides[s], name) && Load(m, overrides[s]).value == a;
    var t :| t in overrides && Loads(m, overrides[t], name) && Load(m, overrides[t]).value == b;
    assert Compete(m, overrides[s], overrides[t]);
  }

  lemma LoadedIsValue(m: R.Model, overrides: map<Id, Id>, name: Text)
    ensures LoadedBy(m, overrides, overrides.Keys, name) <==>
            exists config :: ValueBy(m, overrides, overrides.Keys, name, config)
  {
    if LoadedBy(m, overrides, overrides.Keys, name) {
      var t :| t in overrides && Loads(m, overrides[t], name);
      assert ValueBy(m, overrides, overrides.Keys, name, Load(m, overrides[t]).value);
    }
  }

  lemma NameWithoutType(m: R.Model, n: R.Model, t: Id, ids: seq<Id>, overrides: map<Id, Id>, a: Configs, b: Configs,
                        name: Text)
    requires DropsType(m, n, t) && Unambiguous(m, overrides)
    requires IsConfigs(m, OwnConfigs(m, ids), overrides, overrides.Keys, a)
    requires IsConfigs(n, OwnConfigs(n, ids), overrides, overrides.Keys, b)
    ensures name in a && a[name].typeId != t ==> name in b && b[name] == a[name]
    ensures name in b ==> name in a && b[name].typeId != t
  {
    OwnWithoutType(m, n, t, ids, name);
    LoadsWithoutType(m, n, t, overrides, name);
    LoadedIsValue(m, overrides, name);
    LoadedIsValue(n, overrides, name);
    if LoadedBy(m, overrides, overrides.Keys, name) && name in a && a[name].typeId != t {
      assert ValueBy(n, overrides, overrides.Keys, name, a[name]);
      ValueUnique(m, overrides, name, a[name], b[name]);
    }
  }

  /** The configs of a service change iff one of the type was shown. */
  lemma TypeGoneIff(m: R.Model, n: R.Model, t: Id, ids: seq<Id>, overrides: map<Id, Id>, a: Configs, b: Configs)
    requires DropsType(m, n, t) && Unambiguous(m, overrides)
    requires IsConfigs(m, OwnConfigs(m, ids), overrides, overrides.Keys, a)
    requires IsConfigs(n, OwnConfigs(n, ids), overrides, overrides.Keys, b)
    ensures a != b <==> ShowsType(a, t)
  {
    forall name ensures name in a && a[name].typeId != t ==> name in b && b[name] == a[name]
                ensures name in b ==> name in a && b[name].typeId != t
    {
      NameWithoutType(m, n, t, ids, overrides, a, b, name);
    }
    if !ShowsType(a, t) {
      assert a.Keys == b.Keys;
    }
  }

  /**
   Deleting a config type, which notifies nobody, changes the list of an identity if and only if the list shows a
   config of that type.
   */
  lemma TypeDeleteChangesListIff(m: R.Model, index: nat, e: Event, i: Id, a: map<Id, IdentityService>,
                                 b: map<Id, IdentityService>, c: map<Id, R.Check>, d: map<Id, R.Check>)
    requires e.ConfigTypeEvent? && e.action.Delete?
    requires IsListOf(m, i, a, c) && IsListOf(R.Handle(m, index, e), i, b, d)
    requires forall s :: s in a ==> Unambiguous(m, Overrides(m.identities[i], s))
    ensures Notified(m, e) == {}
    ensures !Unnoticed.SameList(a, b, c, d) <==> exists s :: s in a && ShowsType(a[s].configs, e.id)
  {
    var n := R.Handle(m, index, e);
    SameButConfigs(m, n, i, a, b, c, d);
    forall s | s in a ensures a[s].configs != b[s].configs <==> ShowsType(a[s].configs, e.id) {
      ShownConfigs(m, i, a, c, s);
      ShownConfigs(n, i, b, d, s);
      TypeGoneIff(m, n, e.id, m.services[s].data.configs, Overrides(m.identities[i], s), a[s].configs, b[s].configs);
    }
  }

  // ---- a config comes late -----------------------------------------------------------------------------------

  /** What a config created with this data will load as. */
  function Arriving(m: R.Model, data: ConfigData): Option<IdentityConfig> {
    if data.typeId !in m.configTypes then None
    else Some(IdentityConfig(data.typeId, m.configTypes[data.typeId].name, data.dataJson))
  }

  /** The config id, which did not load, now loads as given, all others as before. */
  ghost predicate Adds(m: R.Model, n: R.Model, id: Id, late: Option<IdentityConfig>) {
    Load(m, id).None? && forall k :: Load(n, k) == if k == id then late else Load(m, k)
  }

  /** A service lists the config, and after it none that loads under the name. */
  ghost predicate LastOf(m: R.Model, ids: seq<Id>, id: Id, name: Text) {
    exists k :: 0 <= k < |ids| && ids[k] == id && forall j :: k < j < |ids| ==> !Loads(m, ids[j], name)
  }

  lemma LastOfOneMore(m: R.Model, ids: seq<Id>, id: Id, name: Text)
    requires ids != []
    ensures
      var n := |ids| - 1;
      LastOf(m, ids, id, name) <==> ids[n] == id || (!Loads(m, ids[n], name) && LastOf(m, ids[..n], id, name))
  {
    var n := |ids| - 1;
    var front := ids[..n];
    if LastOf(m, front, id, name) {
      var k :| 0 <= k < n && front[k] == id && forall j :: k < j < n ==> !Loads(m, front[j], name);
      assert ids[k] == id && forall j :: k < j < n ==> ids[j] == front[j];
    }
    if LastOf(m, ids, id, name) && ids[n] != id {
      var k :| 0 <= k < |ids| && ids[k] == id && forall j :: k < j < |ids| ==> !Loads(m, ids[j], name);
      assert k < n && front[k] == id && forall j :: k < j < n ==> !Loads(m, front[j], name);
    }
  }

  lemma {:induction false} OwnWithNew(m: R.Model, n: R.Model, id: Id, late: IdentityConfig, ids: seq<Id>)
    requires Adds(m, n, id, Some(late))
    ensures OwnConfigs(n, ids) ==
            if LastOf(m, ids, id, late.typeName) then OwnConfigs(m, ids)[late.typeName := late] else OwnConfigs(m, ids)
    decreases |ids|
  {
    if ids != [] {
      var k := |ids| - 1;
      OwnWithNew(m, n, id, late, ids[..k]);
      LastOfOneMore(m, ids, id, late.typeName);
      if ids[k] != id && Load(m, ids[k]).Some? {
        var before, config := OwnConfigs(m, ids[..k]), Load(m, ids[k]).value;
        if config.typeName == late.typeName {
          assert before[late.typeName := late][config.typeName := config] == before[config.typeName := config];
        } else {
          assert before[late.typeName := late][config.typeName := config] ==
                 before[config.typeName := config][late.typeName := late];
        }
      }
    }
  }

  /** The config is going to be shown: as an override, or as the service's own where no override takes the name. */
  ghost predicate Wins(m: R.Model, ids: seq<Id>, overrides: map<Id, Id>, id: Id, name: Text) {
    || (exists t :: t in overrides && overrides[t] == id)
    || (!LoadedBy(m, overrides, overrides.Keys, name) && LastOf(m, ids, id, name))
  }

  lemma LoadsWithNew(m: R.Model, n: R.Model, id: Id, late: IdentityConfig, overrides: map<Id, Id>, name: Text)
    requires Adds(m, n, id, Some(late))
    ensures
      var mine := name == late.typeName && exists t :: t in overrides && overrides[t] == id;
      && (forall config :: ValueBy(n, overrides, overrides.Keys, name, config) <==>
                           ValueBy(m, overrides, overrides.Keys, name, config) || (mine && config == late))
      && (LoadedBy(n, overrides, overrides.Keys, name) <==> LoadedBy(m, overrides, overrides.Keys, name) || mine)
  {
    forall k ensures Loads(n, k, name) <==> if k == id then name == late.typeName else Loads(m, k, name) {
    }
    forall config | ValueBy(m, overrides, overrides.Keys, name, config)
      ensures ValueBy(n, overrides, overrides.Keys, name, config)
    {
      var t :| t in overrides && Loads(m, overrides[t], name) && Load(m, overrides[t]).value == config;
      assert Loads(n, overrides[t], name);
    }
    if t :| t in overrides && overrides[t] == id && name == late.typeName {
      assert Loads(n, overrides[t], name);
    }
    LoadedIsValue(m, overrides, name);
    LoadedIsValue(n, overrides, name);
  }

  lemma NameWithNew(m: R.Model, n: R.Model, id: Id, late: IdentityConfig, ids: seq<Id>, overrides: map<Id, Id>,
                    a: Configs, b: Configs, name: Text)
    requires Adds(m, n, id, Some(late)) && Unambiguous(n, overrides)
    requires IsConfigs(m, OwnConfigs(m, ids), overrides, overrides.Keys, a)
    requires IsConfigs(n, OwnConfigs(n, ids), overrides, overrides.Keys, b)
    ensures
      var shown := if Wins(m, ids, overrides, id, late.typeName) then a[late.typeName := late] else a;
      (name in b <==> name in shown) && (name in b ==> b[name] == shown[name])
  {
    LoadsWithNew(m, n, id, late, overrides, name);
    if LoadedBy(n, overrides, overrides.Keys, name) {
      OverriddenWithNew(m, n, id, late, overrides, name, b[name]);
      if LoadedBy(m, overrides, overrides.Keys, name) {
        ValueUnique(n, overrides, name, a[name], b[name]);
      }
    } else {
      OwnWithNew(m, n, id, late, ids);
    }
  }

  /** Where overrides load under the late config's name once it is there, they are it. */
  lemma OverriddenWithNew(m: R.Model, n: R.Model, id: Id, late: IdentityConfig, overrides: map<Id, Id>, name: Text,
                          shown: IdentityConfig)
    requires Adds(m, n, id, Some(late)) && Unambiguous(n, overrides)
    requires ValueBy(n, overrides, overrides.Keys, name, shown)
    ensures name == late.typeName && (exists t :: t in overrides && overrides[t] == id) ==> shown == late
  {
    LoadsWithNew(m, n, id, late, overrides, name);
    if name == late.typeName && exists t :: t in overrides && overrides[t] == id {
      ValueUnique(n, overrides, name, late, shown);
    }
  }

  /** The configs of a service with the new one: it is put under its name iff it wins. */
  lemma ConfigArrives(m: R.Model, n: R.Model, id: Id, late: IdentityConfig, ids: seq<Id>, overrides: map<Id, Id>,
                      a: Configs, b: Configs)
    requires Adds(m, n, id, Some(late)) && Unambiguous(n, overrides)
    requires IsConfigs(m, OwnConfigs(m, ids), overrides, overrides.Keys, a)
    requires IsConfigs(n, OwnConfigs(n, ids), overrides, overrides.Keys, b)
    ensures b == if Wins(m, ids, overrides, id, late.typeName) then a[late.typeName := late] else a
  {
    var shown := if Wins(m, ids, overrides, id, late.typeName) then a[late.typeName := late] else a;
    forall name ensures (name in b <==> name in shown) && (name in b ==> b[name] == shown[name]) {
      NameWithNew(m, n, id, late, ids, overrides, a, b, name);
    }
    assert b.Keys == shown.Keys;
  }

  /** A config that is going to be shown for the service, and is not what is shown there already. */
  ghost predicate Appears(m: R.Model, x: Identity, s: Id, shown: Configs, id: Id, data: ConfigData) {
    && Arriving(m, data).Some? && s in m.services
    && var late := Arriving(m, data).value;
       && Wins(m, m.services[s].data.configs, Overrides(x, s), id, late.typeName)
       && !(late.typeName in shown && shown[late.typeName] == late)
  }

  lemma NewConfigAdds(m: R.Model, index: nat, id: Id, data: ConfigData)
    requires id !in m.configs
    ensures Adds(m, R.PutConfig(m, index, id, data), id, Arriving(m, data))
    ensures ConfigsOnly(m, R.PutConfig(m, index, id, data))
  {
  }

  /** The same loads, the same configs. */
  lemma NothingArrives(m: R.Model, n: R.Model, ids: seq<Id>, overrides: map<Id, Id>, a: Configs, b: Configs)
    requires (forall k :: Load(n, k) == Load(m, k)) && Unambiguous(m, overrides)
    requires IsConfigs(m, OwnConfigs(m, ids), overrides, overrides.Keys, a)
    requires IsConfigs(n, OwnConfigs(n, ids), overrides, overrides.Keys, b)
    ensures a == b
  {
    Unnoticed.SameOwnConfigs(m, n, ids);
    Unnoticed.SameConfigs(m, n, OwnConfigs(m, ids), overrides, b);
    ConfigsUnique(m, OwnConfigs(m, ids), overrides, a, b);
  }

  /**
   Creating a config, which notifies nobody, changes the list of an identity if and only if it appears there for some
   service: it loads, an override names it or the service lists it last of its name with no override for that, and
   something else was shown.
   */
  lemma LateConfigChangesListIff(m: R.Model, index: nat, e: Event, i: Id, a: map<Id, IdentityService>,
                                 b: map<Id, IdentityService>, c: map<Id, R.Check>, d: map<Id, R.Check>)
    requires e.ConfigEvent? && !e.action.Delete? && e.id !in m.configs
    requires IsListOf(m, i, a, c) && IsListOf(R.Handle(m, index, e), i, b, d)
    requires forall s :: s in a ==> Unambiguous(R.Handle(m, index, e), Overrides(m.identities[i], s))
    ensures Notified(m, e) == {}
    ensures !Unnoticed.SameList(a, b, c, d) <==>
            exists s :: s in a && Appears(m, m.identities[i], s, a[s].configs, e.id, e.config)
  {
    var n := R.Handle(m, index, e);
    NewConfigAdds(m, index, e.id, e.config);
    SameButConfigs(m, n, i, a, b, c, d);
    forall s | s in a
      ensures a[s].configs != b[s].configs <==> Appears(m, m.identities[i], s, a[s].configs, e.id, e.config)
    {
      ShownConfigs(m, i, a, c, s);
      ShownConfigs(n, i, b, d, s);
      var ids, overrides := m.services[s].data.configs, Overrides(m.identities[i], s);
      match Arriving(m, e.config)
      case None => NothingArrives(n, m, ids, overrides, b[s].configs, a[s].configs);
      case Some(late) => ConfigArrives(m, n, e.id, late, ids, overrides, a[s].configs, b[s].configs);
    }
  }
}
