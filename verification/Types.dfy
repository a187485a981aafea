/**
 The vocabulary shared by the controller's sender, the router's receiver and the event log:
 entity payloads, change events, and the plain relational content that both replicas must agree on.
 */
module Types {

  /** Entity ids are strings in the source. Only equality and, for sorted config lists, a total order are used. */
  type Id = int

  /** Uninterpreted text: names, JSON documents, posture check definitions. */
  type Text(==, !new)

  datatype Option<+T> = None | Some(value: T)

  datatype PolicyType = Dial | Bind

  datatype Action = Create | Update | Delete

  datatype Related = RelatedIdentity | RelatedService | RelatedPostureCheck

  datatype ConfigData = ConfigData(typeId: Id, name: Text, dataJson: Text)

  /** serviceConfigs maps a service id to its overrides, a map from config type id to config id. */
  datatype IdentityData = IdentityData(info: Text, serviceConfigs: map<Id, map<Id, Id>>)

  datatype ServiceData = ServiceData(name: Text, encryptionRequired: bool, configs: seq<Id>)

  /** A delta on one of the three membership sets of a service policy. */
  datatype PolicyChange = PolicyChange(policyId: Id, related: Related, ids: seq<Id>, add: bool)

  datatype Event =
    | ConfigTypeEvent(action: Action, id: Id, typeName: Text)
    | ConfigEvent(action: Action, id: Id, config: ConfigData)
    | IdentityEvent(action: Action, id: Id, identity: IdentityData)
    | ServiceEvent(action: Action, id: Id, service: ServiceData)
    | PolicyEvent(action: Action, id: Id, policyName: Text, policyType: PolicyType)
    | CheckEvent(action: Action, id: Id, check: Text)
    | ChangeEvent(change: PolicyChange)

  datatype ChangeSet = ChangeSet(index: nat, changes: seq<Event>, synthetic: bool)

  /** The config ids referenced by an identity's service overrides. */
  ghost function Referenced(serviceConfigs: map<Id, map<Id, Id>>): (r: set<Id>)
    ensures forall c :: c in r <==>
                        exists s, t :: s in serviceConfigs && t in serviceConfigs[s] && serviceConfigs[s][t] == c
  {
    set s, t | s in serviceConfigs && t in serviceConfigs[s] :: serviceConfigs[s][t]
  }

  // ---- the relational content -------------------------------------------------------------------------

  /** A service's config list is compared as a multiset: the receiver sorts it in place on update. */
  datatype ServiceContent = ServiceContent(name: Text, encryptionRequired: bool, configs: multiset<Id>)

  datatype PolicyContent = PolicyContent(
    name: Text, policyType: PolicyType, services: set<Id>, checks: set<Id>, identities: set<Id>)

  datatype Content = Content(
    configTypes: map<Id, Text>,
    configs: map<Id, ConfigData>,
    identities: map<Id, IdentityData>,
    services: map<Id, ServiceContent>,
    checks: map<Id, Text>,
    policies: map<Id, PolicyContent>)

  const EmptyContent := Content(map[], map[], map[], map[], map[], map[])

  function ToSet(s: seq<Id>): (r: set<Id>)
    ensures forall x :: x in r <==> x in s
  {
    set x | x in s
  }

  /** A membership set after a delta. */
  function Relisted(current: set<Id>, ids: set<Id>, add: bool): set<Id> {
    if add then current + ids else current - ids
  }

  ghost predicate Distinct(s: seq<Id>) {
    forall i, j :: 0 <= i < j < |s| ==> s[i] != s[j]
  }

  predicate Known(ids: seq<Id>, keys: set<Id>) {
    forall k :: 0 <= k < |ids| ==> ids[k] in keys
  }

  /** The keys, each once, in some order. */
  ghost predicate Enumerates(ids: seq<Id>, keys: set<Id>) {
    Distinct(ids) && Known(ids, keys) && ToSet(ids) == keys
  }

  lemma EnumeratesMore(ids: seq<Id>, some: set<Id>, x: Id)
    requires Enumerates(ids, some) && x !in some
    ensures Enumerates(ids + [x], some + {x})
  {
    assert forall k :: 0 <= k < |ids| ==> ids[k] in ToSet(ids);
  }

  ghost function Any<T(!new)>(s: set<T>): (x: T)
    requires s != {}
    ensures x in s
  {
    var x :| x in s;
    x
  }

  /** The next key of a map iteration, whose order is unspecified. */
  method Next<T>(todo: set<T>) returns (x: T)
    requires todo != {}
    ensures x in todo
  {
    x :| x in todo;
  }

  /** The keys of a map, listed the way an iteration would. */
  method KeysOf(keys: set<Id>) returns (ids: seq<Id>)
    ensures Enumerates(ids, keys) && multiset(ids) == multiset(keys)
  {
    ids := [];
    var todo := keys;
    ghost var done: set<Id> := {};
    while todo != {}
      invariant keys == done + todo && done !! todo && Enumerates(ids, done) && multiset(ids) == multiset(done)
    {
      var x := Next(todo);
      EnumeratesMore(ids, done, x);
      ids := ids + [x];
      todo, done := todo - {x}, done + {x};
    }
    assert done == keys;
  }
}
