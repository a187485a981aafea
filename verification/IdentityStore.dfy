/**
 The identity store's service configs (controller/db/identity_store.go): per identity a map from service to config type
 to config, with two inverse indexes, config to (identity, service) and service to identity, updated incrementally.
 Buckets and link collections are maps and sets.
 */
module IdentityStores {
  import opened Types

  /** The compound link of a config to an identity and a service. */
  datatype Link = Link(config: Id, identity: Id, service: Id)

  type Overrides = map<Id, Id>
  type ServiceConfigs = map<Id, Overrides>

  function Get(configs: ServiceConfigs, s: Id): Overrides {
    if s in configs then configs[s] else map[]
  }

  // ---- one service ---------------------------------------------------------------------------------------

  ghost predicate Uses(overrides: Overrides, c: Id) {
    exists t :: t in overrides && overrides[t] == c
  }

  /** c is what some type had, and has no longer. */
  ghost predicate Dropped(before: Overrides, after: Overrides, c: Id) {
    exists t :: t in before && before[t] == c && (t !in after || after[t] != c)
  }

  /** c is what some type had and still has. */
  ghost predicate Kept(before: Overrides, after: Overrides, c: Id) {
    exists t :: t in before && t in after && before[t] == c && after[t] == c
  }

  /** The links after an update: those of dropped configs are removed first, those of newly set ones added last. */
  ghost predicate Linked(linked: bool, before: Overrides, after: Overrides, c: Id) {
    (linked && !Dropped(before, after, c)) || Dropped(after, before, c)
  }

  /** The update loses a link: a type keeps the config, another drops it, and none sets it anew. */
  ghost predicate LosesLink(before: Overrides, after: Overrides, c: Id) {
    Kept(before, after, c) && Dropped(before, after, c) && !Dropped(after, before, c)
  }

  /** The link of a config is right after the update if and only if the update does not lose it. */
  lemma LinkRightIff(before: Overrides, after: Overrides, c: Id)
    ensures (Linked(Uses(before, c), before, after, c) <==> Uses(after, c)) <==> !LosesLink(before, after, c)
  {
    if t :| t in before && before[t] == c {
      assert t in after && after[t] == c ==> Kept(before, after, c);
      assert !(t in after && after[t] == c) ==> Dropped(before, after, c);
    }
    if t :| t in after && after[t] == c {
      assert t in before && before[t] == c ==> Kept(before, after, c);
      assert !(t in before && before[t] == c) ==> Dropped(after, before, c);
    }
  }

  /** With one type per config nothing is lost, even when configs trade places. */
  lemma OneTypePerConfigIsSafe(before: Overrides, after: Overrides)
    requires forall s, t :: s in before && t in before && before[s] == before[t] ==> s == t
    ensures forall c :: !LosesLink(before, after, c)
  {
  }

  /** A config kept under one type and dropped from another loses its link. */
  lemma SharedConfigLosesLink(s: Id, t: Id, c: Id)
    requires s != t
    ensures LosesLink(map[s := c, t := c], map[s := c], c)
  {
    var before, after := map[s := c, t := c], map[s := c];
    assert s in before && s in after && before[s] == c && after[s] == c;
    assert t in before && before[t] == c && t !in after;
    assert forall x :: x in after ==> x == s;
  }

  // ---- the links of one service ----------------------------------------------------------------------------

  method RemoveLinks(links: set<Link>, id: Id, s: Id, before: Overrides, after: Overrides)
    returns (r: set<Link>, bucket: Overrides, changed: bool)
    ensures forall l :: l in r <==>
                        l in links && !(l.identity == id && l.service == s && Dropped(before, after, l.config))
    ensures bucket == map t | t in before && t in after :: before[t]
    ensures changed <==> exists t :: t in before && (t !in after || after[t] != before[t])
  {
    r, bucket, changed := links, before, false;
    var todo := before.Keys;
    ghost var part: Overrides := map[];
    while todo != {}
      invariant todo <= before.Keys && part == map t | t in before && t !in todo :: before[t]
      invariant forall l :: l in r <==>
                            l in links && !(l.identity == id && l.service == s && Dropped(part, after, l.config))
      invariant bucket == map t | t in before && (t in todo || t in after) :: before[t]
      invariant changed <==> exists t :: t in part && (t !in after || after[t] != part[t])
    {
      var t := Next(todo);
      var c := before[t];
      ghost var more := part[t := c];
      DroppedMore(part, after, t, c);
      if t !in after || c != after[t] {
        r := r - {Link(c, id, s)};
        changed := true;
        assert t in more && (t !in after || after[t] != more[t]);
      }
      if t !in after {
        bucket := bucket - {t};
      }
      todo := todo - {t};
      assert forall x :: x in part ==> x in more && more[x] == part[x];
      part := more;
    }
    assert part == before;
  }

  lemma DroppedMore(part: Overrides, after: Overrides, t: Id, c: Id)
    requires t !in part
    ensures forall x :: Dropped(part[t := c], after, x) <==>
                        Dropped(part, after, x) || (x == c && (t !in after || after[t] != c))
  {
    var more := part[t := c];
    forall x ensures Dropped(more, after, x) <==>
                     Dropped(part, after, x) || (x == c && (t !in after || after[t] != c)) {
      if Dropped(part, after, x) {
        var u :| u in part && part[u] == x && (u !in after || after[u] != x);
        assert u in more && more[u] == x;
      }
      assert t in more && more[t] == c;
    }
  }

  method AddLinks(links: set<Link>, id: Id, s: Id, before: Overrides, after: Overrides, kept: Overrides)
    returns (r: set<Link>, bucket: Overrides, changed: bool)
    requires kept == map t | t in before && t in after :: before[t]
    ensures forall l :: l in r <==>
                        l in links || (l.identity == id && l.service == s && Dropped(after, before, l.config))
    ensures bucket == after
    ensures changed <==> exists t :: t in after && (t !in before || before[t] != after[t])
  {
    r, bucket, changed := links, kept, false;
    var todo := after.Keys;
    ghost var part: Overrides := map[];
    while todo != {}
      invariant todo <= after.Keys && part == map t | t in after && t !in todo :: after[t]
      invariant forall l :: l in r <==>
                            l in links || (l.identity == id && l.service == s && Dropped(part, before, l.config))
      invariant bucket == kept + part
      invariant changed <==> exists t :: t in part && (t !in before || before[t] != part[t])
    {
      var t := Next(todo);
      var c := after[t];
      ghost var more := part[t := c];
      DroppedMore(part, before, t, c);
      if t !in before || c != before[t] {
        changed := true;
        bucket := bucket[t := c];
        r := r + {Link(c, id, s)};
        assert t in more && (t !in before || before[t] != more[t]);
      }
      todo := todo - {t};
      assert forall x :: x in part ==> x in more && more[x] == part[x];
      part := more;
    }
    assert part == after;
  }

  // ---- all services of an identity -------------------------------------------------------------------------

  /** Links of the identity's services in part are updated; no other link is touched. */
  ghost predicate LinksMoved(links: set<Link>, now: set<Link>, id: Id, before: ServiceConfigs, after: ServiceConfigs,
                             part: set<Id>)
  {
    forall l :: l in now <==> if l.identity == id && l.service in part
                              then Linked(l in links, Get(before, l.service), Get(after, l.service), l.config)
                              else l in links
  }

  method PersistService(links: set<Link>, id: Id, s: Id, before: Overrides, after: Overrides)
    returns (r: set<Link>, bucket: Overrides, changed: bool)
    ensures forall l :: l in r <==> if l.identity == id && l.service == s
                                    then Linked(l in links, before, after, l.config) else l in links
    ensures bucket == after && (changed <==> before != after)
  {
    var gone: bool;
    r, bucket, gone := RemoveLinks(links, id, s, before, after);
    r, bucket, changed := AddLinks(r, id, s, before, after, bucket);
    changed := changed || gone;
    if !changed {
      SameOverrides(before, after);
    }
  }

  lemma SameOverrides(a: Overrides, b: Overrides)
    requires !exists t :: t in a && (t !in b || b[t] != a[t])
    requires !exists t :: t in b && (t !in a || a[t] != b[t])
    ensures a == b
  {
    assert forall t :: t in a.Keys <==> t in b.Keys;
    assert a.Keys == b.Keys;
    assert forall t :: t in a ==> a[t] == b[t];
  }

  method PersistOld(links: set<Link>, id: Id, before: ServiceConfigs, after: ServiceConfigs)
    returns (r: set<Link>, buckets: ServiceConfigs, dropped: set<Id>, events: set<Id>)
    ensures LinksMoved(links, r, id, before, after, before.Keys)
    ensures buckets == map s | s in before && s in after :: after[s]
    ensures dropped == before.Keys - after.Keys
    ensures events == set s | s in before && before[s] != Get(after, s)
  {
    r, buckets, dropped, events := links, map[], {}, {};
    var todo := before.Keys;
    ghost var part: set<Id> := {};
    while todo != {}
      invariant before.Keys == part + todo && part !! todo
      invariant LinksMoved(links, r, id, before, after, part)
      invariant buckets == map s | s in part && s in after :: after[s]
      invariant dropped == part - after.Keys
      invariant events == set s | s in part && s in before && before[s] != Get(after, s)
    {
      var s := Next(todo);
      ghost var now := r;
      var bucket: Overrides, changed: bool;
      r, bucket, changed := PersistService(r, id, s, before[s], Get(after, s));
      if s in after {
        buckets := buckets[s := bucket];
      } else {
        dropped := dropped + {s};
      }
      if changed {
        events := events + {s};
      }
      MovedMore(links, now, r, id, before, after, part, s);
      todo, part := todo - {s}, part + {s};
    }
    assert part == before.Keys;
  }

  lemma MovedMore(links: set<Link>, now: set<Link>, next: set<Link>, id: Id, before: ServiceConfigs,
                  after: ServiceConfigs, part: set<Id>, s: Id)
    requires LinksMoved(links, now, id, before, after, part) && s !in part
    requires forall l :: l in next <==> if l.identity == id && l.service == s
                                        then Linked(l in now, Get(before, s), Get(after, s), l.config) else l in now
    ensures LinksMoved(links, next, id, before, after, part + {s})
  {
  }

  method PersistNew(links: set<Link>, id: Id, before: ServiceConfigs, after: ServiceConfigs, kept: ServiceConfigs,
                    ghost start: set<Link>)
    returns (r: set<Link>, buckets: ServiceConfigs, added: set<Id>)
    requires LinksMoved(start, links, id, before, after, before.Keys)
    requires kept == map s | s in before && s in after :: after[s]
    ensures LinksMoved(start, r, id, before, after, before.Keys + after.Keys)
    ensures buckets == after && added == after.Keys - before.Keys
  {
    r, buckets, added := links, kept, {};
    var todo := after.Keys;
    ghost var part := before.Keys;
    while todo != {}
      invariant before.Keys + after.Keys == part + todo && before.Keys <= part
      invariant forall s :: s in todo && s in part ==> s in before
      invariant LinksMoved(start, r, id, before, after, part)
      invariant buckets == map s | s in part && s in after :: after[s]
      invariant added == part - before.Keys
    {
      var s := Next(todo);
      if s !in before {
        ghost var now := r;
        var bucket: Overrides, changed: bool;
        r, bucket, changed := AddLinks(r, id, s, map[], after[s], map[]);
        buckets := buckets[s := bucket];
        added := added + {s};
        assert forall c :: !Dropped(map[], after[s], c);
        MovedMore(start, now, r, id, before, after, part, s);
        part := part + {s};
      }
      todo := todo - {s};
    }
    assert part == before.Keys + after.Keys;
    assert buckets.Keys == after.Keys;
  }

  // ---- the inverse indexes -----------------------------------------------------------------------------------

  /** The config links of an identity are exactly the inverse of its service configs. */
  ghost predicate ConfigsInverse(links: set<Link>, id: Id, configs: ServiceConfigs) {
    forall c, s :: Link(c, id, s) in links <==> Uses(Get(configs, s), c)
  }

  /** The service links of an identity are exactly the services it has an entry for. */
  ghost predicate ServicesInverse(links: set<(Id, Id)>, id: Id, configs: ServiceConfigs) {
    forall s :: (s, id) in links <==> s in configs
  }

  /** No service has a config that one type keeps, another drops and none sets anew. */
  ghost predicate SafeUpdate(before: ServiceConfigs, after: ServiceConfigs) {
    forall s, c :: !LosesLink(Get(before, s), Get(after, s), c)
  }

  lemma NothingToLose(s: Id, c: Id)
    ensures !LosesLink(map[], map[], c) && !Linked(false, map[], map[], c) && !Uses(map[], c)
  {
  }

  /** An update keeps the config links an exact inverse if and only if it is safe. */
  lemma InverseKeptIff(links: set<Link>, now: set<Link>, id: Id, before: ServiceConfigs, after: ServiceConfigs)
    requires ConfigsInverse(links, id, before) && LinksMoved(links, now, id, before, after, before.Keys + after.Keys)
    ensures ConfigsInverse(now, id, after) <==> SafeUpdate(before, after)
  {
    forall s, c ensures (Link(c, id, s) in now <==> Uses(Get(after, s), c)) <==>
                        !LosesLink(Get(before, s), Get(after, s), c) {
      assert Link(c, id, s) in links <==> Uses(Get(before, s), c);
      LinkRightIff(Get(before, s), Get(after, s), c);
      NothingToLose(s, c);
    }
  }

  /** If each config sits under one type per service, every update is safe. */
  lemma OneTypePerServiceIsSafe(before: ServiceConfigs, after: ServiceConfigs)
    requires forall s :: s in before ==>
                         forall t, u :: t in before[s] && u in before[s] && before[s][t] == before[s][u] ==> t == u
    ensures SafeUpdate(before, after)
  {
    forall s ensures forall c :: !LosesLink(Get(before, s), Get(after, s), c) {
      OneTypePerConfigIsSafe(Get(before, s), Get(after, s));
    }
  }

  // ---- the store ---------------------------------------------------------------------------------------------

  datatype Deletion = Deleted | NotFound | CanNotBeDeleted

  class IdentityStore {
    var configs: map<Id, ServiceConfigs>
    var configLinks: set<Link>
    var serviceLinks: set<(Id, Id)>

    ghost predicate Inverse(id: Id)
      reads this
      requires id in configs
    {
      ConfigsInverse(configLinks, id, configs[id]) && ServicesInverse(serviceLinks, id, configs[id])
    }

    constructor ()
      ensures configs == map[] && configLinks == {} && serviceLinks == {}
    {
      configs, configLinks, serviceLinks := map[], {}, {};
    }

    /**
     persistServiceConfigs: the stored map becomes the wanted one, links move, other identities' links stay; events
     name the services whose overrides changed or that are new. An update that leaves the field out does nothing.
     */
    method PersistServiceConfigs(id: Id, proceed: bool, wanted: ServiceConfigs) returns (events: set<Id>)
      requires id in configs
      modifies this
      ensures !proceed ==>
                configs == old(configs) && configLinks == old(configLinks) && serviceLinks == old(serviceLinks) &&
                events == {}
      ensures proceed ==>
                var before := old(configs)[id];
                && configs == old(configs)[id := wanted]
                && LinksMoved(old(configLinks), configLinks, id, before, wanted, before.Keys + wanted.Keys)
                && (forall s, i :: (s, i) in serviceLinks <==>
                      if i == id && s in before.Keys + wanted.Keys && (s in before) != (s in wanted)
                      then s in wanted else (s, i) in old(serviceLinks))
                && events == set s | s in before.Keys + wanted.Keys &&
                   ((s in before && before[s] != Get(wanted, s)) || s !in before)
      ensures old(Inverse(id)) && proceed ==> (Inverse(id) <==> SafeUpdate(old(configs)[id], wanted))
    {
      events := {};
      if !proceed {
        return;
      }
      var before := configs[id];
      var links, buckets, dropped, changed := PersistOld(configLinks, id, before, wanted);
      var added: set<Id>;
      links, buckets, added := PersistNew(links, id, before, wanted, buckets, configLinks);
      if ConfigsInverse(configLinks, id, before) {
        InverseKeptIff(configLinks, links, id, before, wanted);
      }
      configLinks := links;
      serviceLinks := (serviceLinks - set s | s in dropped :: (s, id)) + set s | s in added :: (s, id);
      configs := configs[id := buckets];
      events := changed + added;
    }

    /** The entries of one service's overrides that the filter picks are removed, each with its link. */
    method RemoveOverrides(links: set<Link>, id: Id, s: Id, overrides: Overrides, filter: (Id, Id, Id) -> bool)
      returns (r: set<Link>, rest: Overrides)
      ensures rest == Remaining(overrides, s, filter)
      ensures forall l :: l in r <==>
                          l in links && !(l.identity == id && l.service == s && Picked(overrides, s, filter, l.config))
    {
      r, rest := links, overrides;
      var todo := overrides.Keys;
      ghost var part: Overrides := map[];
      while todo != {}
        invariant todo <= overrides.Keys && part == map t | t in overrides && t !in todo :: overrides[t]
        invariant rest == map t | t in overrides && (t in todo || !filter(s, t, overrides[t])) :: overrides[t]
        invariant forall l :: l in r <==>
                              l in links && !(l.identity == id && l.service == s && Picked(part, s, filter, l.config))
      {
        var t := Next(todo);
        var c := overrides[t];
        PickedMore(part, s, filter, t, c);
        if filter(s, t, c) {
          rest := rest - {t};
          r := r - {Link(c, id, s)};
        }
        todo := todo - {t};
        part := part[t := c];
      }
      assert part == overrides;
    }

    /**
     removeServiceConfigs: a service left without overrides loses its entry, and its link to the identity if asked.
     found is false for an unknown identity.
     */
    method RemoveServiceConfigs(id: Id, removeServiceRefs: bool, filter: (Id, Id, Id) -> bool) returns (found: bool)
      modifies this
      ensures found == (id in old(configs))
      ensures !found ==> configs == old(configs) && configLinks == old(configLinks) && serviceLinks == old(serviceLinks)
      ensures found ==>
                var before := old(configs)[id];
                && configs == old(configs)[id := RemainingConfigs(before, filter)]
                && LinksPicked(old(configLinks), configLinks, id, before, filter, before.Keys)
                && (forall s, i :: (s, i) in serviceLinks <==>
                      (s, i) in old(serviceLinks) &&
                      !(removeServiceRefs && i == id && s in before && Remaining(before[s], s, filter) == map[]))
    {
      if id !in configs {
        return false;
      }
      var before := configs[id];
      var links, buckets := configLinks, before;
      var emptied: set<Id> := {};
      var todo := before.Keys;
      ghost var part: set<Id> := {};
      while todo != {}
        modifies {}
        invariant before.Keys == part + todo && part !! todo
        invariant LinksPicked(configLinks, links, id, before, filter, part)
        invariant buckets == PartlyRemaining(before, part, filter)
        invariant emptied == set s | s in part && s in before && Remaining(before[s], s, filter) == map[]
      {
        var s := Next(todo);
        ghost var now := links;
        var rest: Overrides;
        links, rest := RemoveOverrides(links, id, s, before[s], filter);
        buckets := buckets[s := rest];
        if rest == map[] {
          emptied := emptied + {s};
        }
        PickedLinksMore(configLinks, now, links, id, before, filter, part, s);
        todo, part := todo - {s}, part + {s};
      }
      assert part == before.Keys;
      configLinks := links;
      EmptiedGo(before, buckets, emptied, filter);
      buckets := buckets - emptied;
      configs := configs[id := buckets];
      if removeServiceRefs {
        serviceLinks := serviceLinks - set s | s in emptied :: (s, id);
      }
      return true;
    }

    /**
     DeleteById: a default admin is never deleted, a router's identity not before the router unless by the system.
     Otherwise, with exact indexes, no link of either names the identity afterwards, and all others stay.
     */
    method DeleteById(id: Id, defaultAdmin: bool, routerType: bool, routerExists: bool, bySystem: bool)
      returns (r: Deletion)
      modifies this
      ensures
        r == if id !in old(configs) then NotFound
             else if defaultAdmin || (routerType && routerExists && !bySystem) then CanNotBeDeleted
             else Deleted
      ensures
        if r.Deleted? then configs == old(configs) - {id}
        else configs == old(configs) && configLinks == old(configLinks) && serviceLinks == old(serviceLinks)
      ensures configLinks <= old(configLinks)
      ensures forall l :: l in old(configLinks) && l.identity != id ==> l in configLinks
      ensures forall s, i :: i != id ==> ((s, i) in serviceLinks <==> (s, i) in old(serviceLinks))
      ensures r.Deleted? && old(Inverse(id)) ==>
                (forall l :: l in configLinks ==> l.identity != id) && forall s :: (s, id) !in serviceLinks
    {
      if id in configs {
        if defaultAdmin {
          return CanNotBeDeleted;
        }
        if routerType && !bySystem && routerExists {
          return CanNotBeDeleted;
        }
      }
      ghost var links, services := configLinks, serviceLinks;
      var found := RemoveServiceConfigs(id, true, (_, _, _) => true);
      r := if found then Deleted else NotFound;
      if found {
        ghost var before := old(configs)[id];
        assert forall s :: s in before ==> Remaining(before[s], s, (_, _, _) => true) == map[];
        if ConfigsInverse(links, id, before) && ServicesInverse(services, id, before) {
          DeleteLeavesNoLink(links, configLinks, services, serviceLinks, id, before);
        }
        configs := configs - {id};
      }
    }
  }

  // ---- removal ---------------------------------------------------------------------------------------------

  function Remaining(overrides: Overrides, s: Id, filter: (Id, Id, Id) -> bool): Overrides {
    map t | t in overrides && !filter(s, t, overrides[t]) :: overrides[t]
  }

  /** Services left without overrides lose their entry. */
  function RemainingConfigs(configs: ServiceConfigs, filter: (Id, Id, Id) -> bool): ServiceConfigs {
    map s | s in configs && Remaining(configs[s], s, filter) != map[] :: Remaining(configs[s], s, filter)
  }

  function PartlyRemaining(configs: ServiceConfigs, part: set<Id>, filter: (Id, Id, Id) -> bool): ServiceConfigs {
    map s | s in configs :: if s in part then Remaining(configs[s], s, filter) else configs[s]
  }

  lemma EmptiedGo(configs: ServiceConfigs, buckets: ServiceConfigs, emptied: set<Id>, filter: (Id, Id, Id) -> bool)
    requires buckets == PartlyRemaining(configs, configs.Keys, filter)
    requires emptied == set s | s in configs && Remaining(configs[s], s, filter) == map[]
    ensures buckets - emptied == RemainingConfigs(configs, filter)
  {
    var a, b := buckets - emptied, RemainingConfigs(configs, filter);
    assert a.Keys == b.Keys;
    assert forall s :: s in a ==> a[s] == b[s];
  }

  ghost predicate Picked(overrides: Overrides, s: Id, filter: (Id, Id, Id) -> bool, c: Id) {
    exists t :: t in overrides && overrides[t] == c && filter(s, t, c)
  }

  ghost predicate LinksPicked(links: set<Link>, now: set<Link>, id: Id, configs: ServiceConfigs,
                              filter: (Id, Id, Id) -> bool, part: set<Id>) {
    forall l :: l in now <==>
                l in links && !(l.identity == id && l.service in part &&
                                Picked(Get(configs, l.service), l.service, filter, l.config))
  }

  lemma PickedMore(part: Overrides, s: Id, filter: (Id, Id, Id) -> bool, t: Id, c: Id)
    requires t !in part
    ensures forall x :: Picked(part[t := c], s, filter, x) <==>
                        Picked(part, s, filter, x) || (x == c && filter(s, t, c))
  {
    var more := part[t := c];
    forall x ensures Picked(more, s, filter, x) <==> Picked(part, s, filter, x) || (x == c && filter(s, t, c)) {
      if Picked(part, s, filter, x) {
        var u :| u in part && part[u] == x && filter(s, u, x);
        assert u in more && more[u] == x;
      }
      assert t in more && more[t] == c;
    }
  }

  lemma PickedLinksMore(links: set<Link>, now: set<Link>, next: set<Link>, id: Id, configs: ServiceConfigs,
                        filter: (Id, Id, Id) -> bool, part: set<Id>, s: Id)
    requires LinksPicked(links, now, id, configs, filter, part) && s in configs
    requires forall l :: l in next <==>
                         l in now && !(l.identity == id && l.service == s && Picked(configs[s], s, filter, l.config))
    ensures LinksPicked(links, next, id, configs, filter, part + {s})
  {
  }

  /** The filter treats the overrides of a service that share a config alike. */
  ghost predicate ByConfig(configs: ServiceConfigs, filter: (Id, Id, Id) -> bool) {
    forall s, t, u :: s in configs && t in configs[s] && u in configs[s] && configs[s][t] == configs[s][u] ==>
                        filter(s, t, configs[s][t]) == filter(s, u, configs[s][u])
  }

  /** A removal keeps the config links an exact inverse if and only if it goes by config within each service. */
  lemma RemovalKeepsInverseIff(links: set<Link>, now: set<Link>, id: Id, configs: ServiceConfigs,
                               filter: (Id, Id, Id) -> bool)
    requires ConfigsInverse(links, id, configs) && LinksPicked(links, now, id, configs, filter, configs.Keys)
    ensures ConfigsInverse(now, id, RemainingConfigs(configs, filter)) <==> ByConfig(configs, filter)
  {
    var after := RemainingConfigs(configs, filter);
    forall s, c ensures Uses(Get(after, s), c) <==>
                        exists t :: t in Get(configs, s) && Get(configs, s)[t] == c && !filter(s, t, c) {
      RemainingUses(configs, filter, s, c);
    }
    forall s, c ensures Link(c, id, s) in now <==> Uses(Get(configs, s), c) && !Picked(Get(configs, s), s, filter, c) {
      assert Link(c, id, s) in links <==> Uses(Get(configs, s), c);
    }
    if ByConfig(configs, filter) {
      forall s, c ensures Link(c, id, s) in now <==> Uses(Get(after, s), c) {
      }
    } else {
      var s, t, u :| s in configs && t in configs[s] && u in configs[s] && configs[s][t] == configs[s][u] &&
                     filter(s, t, configs[s][t]) && !filter(s, u, configs[s][u]);
      var c := configs[s][t];
      assert Picked(Get(configs, s), s, filter, c) && Uses(Get(after, s), c);
    }
  }

  /** A filter that goes by type alone, where two types of a service share a config: the link goes, a use stays. */
  lemma RemovalByTypeLosesLink(id: Id)
    ensures
      var configs, filter := map[1 := map[2 := 5, 3 := 5]], (s: Id, t: Id, c: Id) => t == 2;
      && ConfigsInverse({Link(5, id, 1)}, id, configs)
      && LinksPicked({Link(5, id, 1)}, {}, id, configs, filter, configs.Keys)
      && !ConfigsInverse({}, id, RemainingConfigs(configs, filter))
  {
    var configs, filter := map[1 := map[2 := 5, 3 := 5]], (s: Id, t: Id, c: Id) => t == 2;
    var overrides := Get(configs, 1);
    assert 2 in overrides && overrides[2] == 5 && filter(1, 2, 5) && Uses(overrides, 5) &&
           Picked(overrides, 1, filter, 5);
    var after := RemainingConfigs(configs, filter);
    assert 3 in Remaining(configs[1], 1, filter) && 1 in after;
    assert 3 in Get(after, 1) && Get(after, 1)[3] == 5;
    assert Uses(Get(after, 1), 5);
  }

  lemma RemainingUses(configs: ServiceConfigs, filter: (Id, Id, Id) -> bool, s: Id, c: Id)
    ensures Uses(Get(RemainingConfigs(configs, filter), s), c) <==>
            exists t :: t in Get(configs, s) && Get(configs, s)[t] == c && !filter(s, t, c)
  {
    var rest := Get(RemainingConfigs(configs, filter), s);
    if s in configs {
      var all := Remaining(configs[s], s, filter);
      assert rest == all;
      if t :| t in configs[s] && configs[s][t] == c && !filter(s, t, c) {
        assert t in all && all[t] == c;
      }
      if t :| t in all && all[t] == c {
        assert t in configs[s] && configs[s][t] == c && !filter(s, t, c);
      }
    }
  }

  /** Deleting an identity removes everything: no link of either index names it afterwards. */
  lemma DeleteLeavesNoLink(links: set<Link>, now: set<Link>, services: set<(Id, Id)>, left: set<(Id, Id)>, id: Id,
                           configs: ServiceConfigs)
    requires ConfigsInverse(links, id, configs) && ServicesInverse(services, id, configs)
    requires LinksPicked(links, now, id, configs, (_, _, _) => true, configs.Keys)
    requires forall s, i :: (s, i) in left <==> (s, i) in services && !(i == id && s in configs)
    ensures forall l :: l in now ==> l.identity != id
    ensures forall s :: (s, id) !in left
  {
    forall l: Link | l.identity == id ensures l !in now {
      assert l == Link(l.config, id, l.service);
      if l in links {
        var t :| t in Get(configs, l.service) && Get(configs, l.service)[t] == l.config;
        assert Picked(Get(configs, l.service), l.service, (_, _, _) => true, l.config);
      }
    }
  }
}
