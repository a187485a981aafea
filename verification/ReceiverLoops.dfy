/** The receiver's inner loops over maps of entities, each with its net effect. */
module ReceiverLoops {
  import opened Types
  import opened Identities
  import opened IdentityLoops
  import opened Receiver

  ghost predicate AllAccessOk(all: map<Id, Identity>) {
    forall i :: i in all ==> AccessOk(all[i].access)
  }

  lemma JoinLeaveOk(i: Identity, pid: Id, p: Policy, index: nat, add: bool)
    requires AccessOk(i.access)
    ensures AccessOk(JoinedOrLeft(i, pid, p, index, add).access)
  {
    RegrantedOk(i.access, p.policyType, multiset(p.services), index, add);
  }

  /** Joining or leaving twice is joining or leaving once. */
  lemma Idempotent(i: Identity, pid: Id, p: Policy, index: nat, add: bool)
    ensures JoinedOrLeft(JoinedOrLeft(i, pid, p, index, add), pid, p, index, add) == JoinedOrLeft(i, pid, p, index, add)
  {
  }

  method JoinOrLeave(i: Identity, pid: Id, p: Policy, index: nat, add: bool) returns (j: Identity)
    requires AccessOk(i.access)
    ensures j == JoinedOrLeft(i, pid, p, index, add) && AccessOk(j.access)
  {
    JoinLeaveOk(i, pid, p, index, add);
    if add {
      j := AddedToPolicy(i, pid, p, index);
    } else {
      j := RemovedFromPolicy(i, pid, p, index);
    }
  }

  /** The listed identities that exist join or leave; members is the policy's identity set afterwards. */
  method ChangeMembers(all: map<Id, Identity>, ids: seq<Id>, pid: Id, p: Policy, index: nat, add: bool)
    returns (r: map<Id, Identity>, members: set<Id>)
    requires AllAccessOk(all)
    ensures AllAccessOk(r) && r == AllJoinedOrLeft(all, ToSet(ids), pid, p, index, add)
    ensures members == if add then p.identities + ToSet(ids) * all.Keys else p.identities - ToSet(ids) * all.Keys
  {
    r, members := all, p.identities;
    ghost var done: set<Id> := {};
    for k := 0 to |ids|
      invariant done == ToSet(ids[..k])
      invariant AllAccessOk(r) && r == AllJoinedOrLeft(all, done, pid, p, index, add)
      invariant members == if add then p.identities + done * all.Keys else p.identities - done * all.Keys
    {
      var i := ids[k];
      assert ToSet(ids[..k + 1]) == done + {i} by { assert ids[..k + 1] == ids[..k] + [i]; }
      MemberOneMore(all, done, i, pid, p, index, add);
      if i in r {
        members := if add then members + {i} else members - {i};
        var j := JoinOrLeave(r[i], pid, p, index, add);
        r := r[i := j];
      }
      done := done + {i};
    }
    assert ids[..|ids|] == ids;
  }

  lemma MemberOneMore(all: map<Id, Identity>, done: set<Id>, i: Id, pid: Id, p: Policy, index: nat, add: bool)
    ensures
      var r := AllJoinedOrLeft(all, done, pid, p, index, add);
      AllJoinedOrLeft(all, done + {i}, pid, p, index, add) ==
      if i in all then r[i := JoinedOrLeft(r[i], pid, p, index, add)] else r
  {
    if i in all {
      Idempotent(all[i], pid, p, index, add);
    }
  }

  /** Every member of a deleted or retyped policy leaves or joins. */
  method ChangeAllMembers(all: map<Id, Identity>, members: set<Id>, pid: Id, p: Policy, index: nat, add: bool)
    returns (r: map<Id, Identity>)
    requires AllAccessOk(all)
    ensures AllAccessOk(r) && r == AllJoinedOrLeft(all, members, pid, p, index, add)
  {
    r := all;
    var todo := members;
    while todo != {}
      invariant todo <= members
      invariant AllAccessOk(r) && r == AllJoinedOrLeft(all, members - todo, pid, p, index, add)
    {
      var i := Next(todo);
      if i in r {
        var j := JoinOrLeave(r[i], pid, p, index, add);
        r := r[i := j];
      }
      todo := todo - {i};
    }
    assert members - todo == members;
  }

  method FlipAll(all: map<Id, Identity>, pid: Id, prev: Policy, next: Policy, index: nat) returns (r: map<Id, Identity>)
    requires AllAccessOk(all)
    ensures AllAccessOk(r) && r == MembersFlipped(all, prev.identities, pid, prev, next, index)
  {
    r := all;
    var todo := prev.identities;
    while todo != {}
      invariant todo <= prev.identities
      invariant AllAccessOk(r) && r == MembersFlipped(all, prev.identities - todo, pid, prev, next, index)
    {
      var i := Next(todo);
      if i in r {
        var away := JoinOrLeave(r[i], pid, prev, index, false);
        var j := JoinOrLeave(away, pid, next, index, true);
        r := r[i := j];
      }
      todo := todo - {i};
    }
    assert prev.identities - todo == prev.identities;
  }

  function AllServicesCounted(all: map<Id, Identity>, members: set<Id>, pid: Id, p: Policy, ids: multiset<Id>,
                              index: nat, add: bool): map<Id, Identity>
  {
    map i | i in all :: if i in members then ServicesMoved(all[i], pid, p, ids, index, add) else all[i]
  }

  method CountMemberServices(all: map<Id, Identity>, pid: Id, p: Policy, ids: seq<Id>, index: nat, add: bool)
    returns (r: map<Id, Identity>)
    requires AllAccessOk(all)
    ensures AllAccessOk(r) && r == AllServicesCounted(all, p.identities, pid, p, multiset(ids), index, add)
  {
    r := all;
    var todo := p.identities;
    while todo != {}
      invariant todo <= p.identities
      invariant AllAccessOk(r) && r == AllServicesCounted(all, p.identities - todo, pid, p, multiset(ids), index, add)
    {
      var i := Next(todo);
      if i in r {
        RegrantedOk(r[i].access, p.policyType, multiset(ids), index, add);
        var j := MoveServices(r[i], pid, p, ids, index, add);
        r := r[i := j];
      }
      todo := todo - {i};
    }
    assert p.identities - todo == p.identities;
  }

  function SomeChecksMoved(all: map<Id, Identity>, members: set<Id>, pid: Id, p: Policy, ids: multiset<Id>, index: nat,
              add: bool): map<Id, Identity>
  {
    map i | i in all :: if i in members then ChecksMoved(all[i], pid, p, ids, index, add) else all[i]
  }

  lemma ChecksMovedOk(i: Identity, pid: Id, p: Policy, ids: multiset<Id>, index: nat, add: bool)
    requires AccessOk(i.access)
    ensures AccessOk(ChecksMoved(i, pid, p, ids, index, add).access)
  {
  }

  /** missing reports a nil dereference on the way. */
  method MoveMemberChecks(all: map<Id, Identity>, pid: Id, p: Policy, ids: seq<Id>, index: nat, add: bool)
    returns (r: map<Id, Identity>, missing: bool)
    requires AllAccessOk(all)
    ensures AllAccessOk(r) && r == AllChecksMoved(all, pid, p, multiset(ids), index, add)
    ensures missing <==> exists i :: i in all && i in p.identities && NilLookup(all[i], p)
  {
    r, missing := all, false;
    var todo := p.identities;
    while todo != {}
      invariant todo <= p.identities
      invariant AllAccessOk(r) && r == SomeChecksMoved(all, p.identities - todo, pid, p, multiset(ids), index, add)
      invariant missing <==> exists i :: i in all && i in p.identities - todo && NilLookup(all[i], p)
    {
      var i := Next(todo);
      ghost var rest := todo - {i};
      assert p.identities - rest == (p.identities - todo) + {i};
      if i in r {
        ChecksMovedOk(r[i], pid, p, multiset(ids), index, add);
        var j, nil := MoveChecks(r[i], pid, p, ids, index, add);
        r, missing := r[i := j], missing || nil;
      }
      todo := todo - {i};
    }
    assert p.identities - todo == p.identities;
  }

  /** Counting the services and then switching the checks is one move. */
  lemma CountThenSwitch(all: map<Id, Identity>, pid: Id, p: Policy, q: Policy, ids: multiset<Id>, index: nat, add: bool)
    requires p.identities == q.identities
    ensures
      var counted := AllServicesCounted(all, p.identities, pid, p, ids, index, add);
      AllServicesMoved(all, pid, p, q, ids, index, add) ==
      if p.services == {} && q.services != {} then AllChecksMoved(counted, pid, q, multiset(q.checks), index, true)
      else if p.services != {} && q.services == {}
      then AllChecksMoved(counted, pid, q, multiset(q.checks), index, false)
      else counted
  {
    var counted := AllServicesCounted(all, p.identities, pid, p, ids, index, add);
    var moved := AllServicesMoved(all, pid, p, q, ids, index, add);
    var on, off := p.services == {} && q.services != {}, p.services != {} && q.services == {};
    var next := if on || off then AllChecksMoved(counted, pid, q, multiset(q.checks), index, on) else counted;
    assert moved.Keys == next.Keys == all.Keys;
    forall i | i in all ensures moved[i] == next[i] {
    }
  }

  method LinkServices(all: map<Id, Service>, ids: seq<Id>, pid: Id, add: bool) returns (r: map<Id, Service>)
    ensures r == ServicesLinked(all, ids, pid, add)
  {
    r := all;
    for k := 0 to |ids|
      invariant r == ServicesLinked(all, ids[..k], pid, add)
    {
      assert ids[..k + 1] == ids[..k] + [ids[k]];
      if ids[k] in r {
        assert Relisted(Relisted(all[ids[k]].policies, {pid}, add), {pid}, add) ==
               Relisted(all[ids[k]].policies, {pid}, add);
        r := r[ids[k] := r[ids[k]].(policies := Relisted(r[ids[k]].policies, {pid}, add))];
      }
    }
    assert ids[..|ids|] == ids;
  }

  method LinkChecks(all: map<Id, Check>, ids: seq<Id>, pid: Id, add: bool) returns (r: map<Id, Check>)
    ensures r == ChecksLinked(all, ids, pid, add)
  {
    r := all;
    for k := 0 to |ids|
      invariant r == ChecksLinked(all, ids[..k], pid, add)
    {
      assert ids[..k + 1] == ids[..k] + [ids[k]];
      if ids[k] in r {
        assert Relisted(Relisted(all[ids[k]].policies, {pid}, add), {pid}, add) ==
               Relisted(all[ids[k]].policies, {pid}, add);
        r := r[ids[k] := r[ids[k]].(policies := Relisted(r[ids[k]].policies, {pid}, add))];
      }
    }
    assert ids[..|ids|] == ids;
  }

  /** Set or Remove on a concurrent map, id by id. */
  method MoveIds(current: set<Id>, ids: seq<Id>, add: bool) returns (r: set<Id>)
    ensures r == Relisted(current, ToSet(ids), add)
  {
    r := current;
    for k := 0 to |ids|
      invariant r == Relisted(current, ToSet(ids[..k]), add)
    {
      assert ids[..k + 1] == ids[..k] + [ids[k]];
      r := if add then r + {ids[k]} else r - {ids[k]};
    }
    assert ids[..|ids|] == ids;
  }

  ghost function ReferencedBy(serviceConfigs: map<Id, map<Id, Id>>, services: set<Id>): set<Id> {
    set s, t | s in serviceConfigs && s in services && t in serviceConfigs[s] :: serviceConfigs[s][t]
  }

  function Overriding(overrides: map<Id, Id>): set<Id> {
    set t | t in overrides :: overrides[t]
  }

  lemma ReferencedByMore(serviceConfigs: map<Id, map<Id, Id>>, services: set<Id>, s: Id)
    requires s in serviceConfigs
    ensures ReferencedBy(serviceConfigs, services + {s}) ==
            ReferencedBy(serviceConfigs, services) + Overriding(serviceConfigs[s])
  {
    var all, part := ReferencedBy(serviceConfigs, services + {s}), ReferencedBy(serviceConfigs, services);
    var more := Overriding(serviceConfigs[s]);
    forall x | x in more ensures x in all {
      var t :| t in serviceConfigs[s] && serviceConfigs[s][t] == x;
      assert s in services + {s};
    }
    forall x | x in all && x !in part ensures x in more {
      var r, t :| r in serviceConfigs && r in services + {s} && t in serviceConfigs[r] && serviceConfigs[r][t] == x;
      assert r == s;
    }
  }

  /** getReferencedConfigs */
  method GetReferencedConfigs(serviceConfigs: map<Id, map<Id, Id>>) returns (r: set<Id>)
    ensures r == Referenced(serviceConfigs)
  {
    r := {};
    var todo := serviceConfigs.Keys;
    while todo != {}
      invariant todo <= serviceConfigs.Keys
      invariant r == ReferencedBy(serviceConfigs, serviceConfigs.Keys - todo)
    {
      var s := Next(todo);
      ReferencedByMore(serviceConfigs, serviceConfigs.Keys - todo, s);
      r := r + Overriding(serviceConfigs[s]);
      todo := todo - {s};
      assert serviceConfigs.Keys - todo == (serviceConfigs.Keys - (todo + {s})) + {s};
    }
  }

  /** removeConfigReferences (add false) and addConfigReferences (add true) */
  method ReferTo(configs: map<Id, Config>, i: Id, refs: set<Id>, add: bool) returns (r: map<Id, Config>)
    ensures r == IdentityReferences(configs, i, if add then {} else refs, if add then refs else {})
  {
    r := configs;
    var todo := refs;
    while todo != {}
      invariant todo <= refs
      invariant r == IdentityReferences(configs, i, if add then {} else refs - todo, if add then refs - todo else {})
    {
      var c := Next(todo);
      if c in r {
        r := r[c := r[c].(identities := if add then r[c].identities + {i} else r[c].identities - {i})];
      }
      todo := todo - {c};
    }
    assert refs - todo == refs;
  }

  lemma ReferTwice(configs: map<Id, Config>, i: Id, before: set<Id>, after: set<Id>)
    ensures IdentityReferences(IdentityReferences(configs, i, before, {}), i, {}, after) ==
            IdentityReferences(configs, i, before, after)
  {
    var a := IdentityReferences(IdentityReferences(configs, i, before, {}), i, {}, after);
    var b := IdentityReferences(configs, i, before, after);
    forall c | c in configs ensures a[c] == b[c] {
      assert c in after ==> (configs[c].identities - {i}) + {i} == configs[c].identities + {i};
    }
  }

  function OneListed(configs: map<Id, Config>, s: Id, c: Id, add: bool): map<Id, Config> {
    if c !in configs then configs
    else configs[c := configs[c].(services := Relisted(configs[c].services, {s}, add))]
  }

  function Listed(configs: map<Id, Config>, s: Id, ids: multiset<Id>, add: bool): map<Id, Config> {
    map c | c in configs :: if c in ids then configs[c].(services := Relisted(configs[c].services, {s}, add))
                            else configs[c]
  }

  lemma ListedOneMore(configs: map<Id, Config>, s: Id, ids: multiset<Id>, c: Id, add: bool)
    ensures OneListed(Listed(configs, s, ids, add), s, c, add) == Listed(configs, s, ids + multiset{c}, add)
  {
    if c in configs {
      var x := configs[c].services;
      assert Relisted(Relisted(x, {s}, add), {s}, add) == Relisted(x, {s}, add);
    }
  }

  /** removeFromConfigs (add false) and addToConfigs (add true) */
  method ListService(configs: map<Id, Config>, s: Id, ids: seq<Id>, add: bool) returns (r: map<Id, Config>)
    ensures r == Listed(configs, s, multiset(ids), add)
  {
    r := configs;
    for k := 0 to |ids|
      invariant r == Listed(configs, s, multiset(ids[..k]), add)
    {
      assert ids[..k + 1] == ids[..k] + [ids[k]];
      ListedOneMore(configs, s, multiset(ids[..k]), ids[k], add);
      r := OneListed(r, s, ids[k], add);
    }
    assert ids[..|ids|] == ids;
  }

  lemma ListedTwice(configs: map<Id, Config>, s: Id, remove: multiset<Id>, add: multiset<Id>)
    requires forall c :: c in remove ==> c !in add
    ensures Listed(Listed(configs, s, remove, false), s, add, true) == ServiceReferences(configs, s, remove, add)
  {
    var a := Listed(Listed(configs, s, remove, false), s, add, true);
    var b := ServiceReferences(configs, s, remove, add);
    assert a.Keys == b.Keys == configs.Keys;
    forall c | c in configs ensures a[c] == b[c] {
    }
  }

  lemma ListedGone(configs: map<Id, Config>, s: Id, remove: multiset<Id>)
    ensures Listed(configs, s, remove, false) == ServiceReferences(configs, s, remove, multiset{})
  {
    ListedTwice(configs, s, remove, multiset{});
    var gone := Listed(configs, s, remove, false);
    assert Listed(gone, s, multiset{}, true) == gone;
  }

  /** The config delete loop over identities. */
  method PurgeAll(all: map<Id, Identity>, ids: set<Id>, c: Id) returns (r: map<Id, Identity>)
    requires AllAccessOk(all)
    ensures AllAccessOk(r) && r == AllPurged(all, ids, c)
  {
    r := all;
    var todo := ids;
    while todo != {}
      invariant todo <= ids
      invariant AllAccessOk(r) && r == AllPurged(all, ids - todo, c)
    {
      var i := Next(todo);
      if i in r {
        var serviceConfigs := PurgeOverrides(r[i].data.serviceConfigs, c);
        r := r[i := r[i].(data := r[i].data.(serviceConfigs := serviceConfigs))];
      }
      todo := todo - {i};
    }
    assert ids - todo == ids;
  }

  method PurgeOverrides(serviceConfigs: map<Id, map<Id, Id>>, c: Id) returns (r: map<Id, map<Id, Id>>)
    ensures r == Purged(serviceConfigs, c)
  {
    r := serviceConfigs;
    var todo := serviceConfigs.Keys;
    while todo != {}
      invariant todo <= serviceConfigs.Keys
      invariant r == map s | s in serviceConfigs && (s in todo || WithoutConfig(serviceConfigs[s], c) != map[])
                       :: if s in todo then serviceConfigs[s] else WithoutConfig(serviceConfigs[s], c)
    {
      var s := Next(todo);
      var overrides := WithoutConfig(r[s], c);
      r := if overrides == map[] then r - {s} else r[s := overrides];
      todo := todo - {s};
    }
  }
}
