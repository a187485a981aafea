/**
 The loops behind module Identities: each method walks a map or a list the way the source does, in whatever order
 the map yields, and ends up with the stated net effect.
 */
module IdentityLoops {
  import opened Types
  import opened Identities

  /** Entries are only kept while they grant something. */
  ghost predicate AccessOk(access: AccessMap) {
    forall s :: s in access ==> access[s].HasAccess()
  }

  // ---- one step more -----------------------------------------------------------------------------------

  lemma RegrantedOk(access: AccessMap, t: PolicyType, n: multiset<Id>, index: nat, add: bool)
    requires AccessOk(access)
    ensures AccessOk(Regranted(access, t, n, index, add))
  {
  }

  lemma MovedTwice(a: ServiceAccess, t: PolicyType, j: int, k: int, index: nat)
    ensures Moved(Moved(a, t, j, index), t, k, index) == Moved(a, t, j + k, index)
  {
  }

  lemma RegrantedOneMore(access: AccessMap, t: PolicyType, n: multiset<Id>, s: Id, index: nat, add: bool)
    requires AccessOk(access)
    ensures Regranted(Regranted(access, t, n, index, add), t, multiset{s}, index, add) ==
            Regranted(access, t, n + multiset{s}, index, add)
  {
    var a, b := Regranted(access, t, n, index, add), n + multiset{s};
    var c, d := Regranted(a, t, multiset{s}, index, add), Regranted(access, t, b, index, add);
    MovedTwice(Get(access, s), t, Signed(add, n[s]), Signed(add, 1), index);
    forall x ensures x in c <==> x in d {
      RegrantedAt(access, t, n, s, index, add, x);
    }
    forall x | x in c ensures c[x] == d[x] {
      RegrantedAt(access, t, n, s, index, add, x);
    }
  }

  lemma RegrantedElsewhere(access: AccessMap, t: PolicyType, n: multiset<Id>, k: multiset<Id>, index: nat, add: bool,
                           x: Id)
    requires n[x] == k[x]
    ensures
      var c, d := Regranted(access, t, n, index, add), Regranted(access, t, k, index, add);
      (x in c <==> x in d) && (x in c ==> c[x] == d[x])
  {
  }

  lemma NotRegranted(access: AccessMap, t: PolicyType, n: multiset<Id>, index: nat, add: bool, x: Id)
    requires x !in n
    ensures
      var c := Regranted(access, t, n, index, add);
      (x in c <==> x in access) && (x in c ==> c[x] == access[x])
  {
  }

  lemma RegrantedAt(access: AccessMap, t: PolicyType, n: multiset<Id>, s: Id, index: nat, add: bool, x: Id)
    requires AccessOk(access)
    ensures
      var c := Regranted(Regranted(access, t, n, index, add), t, multiset{s}, index, add);
      var d := Regranted(access, t, n + multiset{s}, index, add);
      (x in c <==> x in d) && (x in c ==> c[x] == d[x])
  {
    var b := n + multiset{s};
    if x != s {
      assert b[x] == n[x] && x !in multiset{s};
      RegrantedElsewhere(access, t, b, n, index, add, x);
      NotRegranted(Regranted(access, t, n, index, add), t, multiset{s}, index, add, x);
    } else {
      assert b[s] == n[s] + 1 && s in b && multiset{s}[s] == 1;
    }
  }

  lemma UsesAddedOneMore(uses: map<Id, int>, n: multiset<Id>, c: Id)
    ensures UsesAdded(uses, n + multiset{c}) ==
            var u := UsesAdded(uses, n); u[c := (if c in u then u[c] else 0) + 1]
  {
  }

  lemma UsesDroppedOneMore(uses: map<Id, int>, n: multiset<Id>, c: Id)
    ensures UsesDropped(uses, n + multiset{c}) == Decremented(UsesDropped(uses, n), c)
  {
  }

  lemma NothingMoved(access: AccessMap, t: PolicyType, index: nat, add: bool, uses: map<Id, int>)
    ensures Regranted(access, t, multiset{}, index, add) == access
    ensures UsesAdded(uses, multiset{}) == uses && UsesDropped(uses, multiset{}) == uses
  {
  }

  // ---- updateServiceCount and decrementUseCount --------------------------------------------------------

  /** One more or one less: the entry moves, and goes when it grants nothing any more. */
  lemma RegrantedOne(access: AccessMap, t: PolicyType, s: Id, index: nat, add: bool)
    ensures
      var moved := Moved(Get(access, s), t, if add then 1 else -1, index);
      Regranted(access, t, multiset{s}, index, add) == if moved.HasAccess() then access[s := moved] else access - {s}
  {
    var r := Regranted(access, t, multiset{s}, index, add);
    assert multiset{s}[s] == 1;
    forall x | x != s ensures (x in r <==> x in access) && (x in r ==> r[x] == access[x]) {
      NotRegranted(access, t, multiset{s}, index, add, x);
    }
  }

  method UpdateServiceCount(access: AccessMap, t: PolicyType, s: Id, index: nat, add: bool) returns (r: AccessMap)
    ensures r == Regranted(access, t, multiset{s}, index, add)
  {
    RegrantedOne(access, t, s, index, add);
    var present := s in access;
    var current := if present then access[s] else NoAccess;
    current := Moved(current, t, if add then 1 else -1, index);
    r := access;
    if current.HasAccess() {
      r := r[s := current];
    } else if present {
      r := r - {s};
    } else {
      assert access - {s} == access;
    }
  }

  function Decremented(uses: map<Id, int>, id: Id): map<Id, int> {
    if id !in uses then uses
    else if uses[id] - 1 < 1 then uses - {id}
    else uses[id := uses[id] - 1]
  }

  // ---- loops over a policy's services and checks -------------------------------------------------------

  method CountServices(access: AccessMap, t: PolicyType, services: set<Id>, index: nat, add: bool)
    returns (r: AccessMap)
    requires AccessOk(access)
    ensures r == Regranted(access, t, multiset(services), index, add)
  {
    r := access;
    var todo := services;
    ghost var n: multiset<Id> := multiset{};
    NothingMoved(access, t, index, add, map[]);
    while todo != {}
      invariant todo <= services && n == multiset(services - todo)
      invariant r == Regranted(access, t, n, index, add)
    {
      var s := Next(todo);
      RegrantedOneMore(access, t, n, s, index, add);
      r := UpdateServiceCount(r, t, s, index, add);
      todo := todo - {s};
      n := n + multiset{s};
      assert services - todo == (services - (todo + {s})) + {s};
    }
    assert services - todo == services;
  }

  method CountServiceList(access: AccessMap, t: PolicyType, ids: seq<Id>, index: nat, add: bool) returns (r: AccessMap)
    requires AccessOk(access)
    ensures r == Regranted(access, t, multiset(ids), index, add)
  {
    r := access;
    NothingMoved(access, t, index, add, map[]);
    for k := 0 to |ids|
      invariant r == Regranted(access, t, multiset(ids[..k]), index, add)
    {
      RegrantedOneMore(access, t, multiset(ids[..k]), ids[k], index, add);
      assert ids[..k + 1] == ids[..k] + [ids[k]];
      r := UpdateServiceCount(r, t, ids[k], index, add);
    }
    assert ids[..|ids|] == ids;
  }

  method CountChecks(uses: map<Id, int>, checks: set<Id>, add: bool) returns (r: map<Id, int>)
    ensures r == if add then UsesAdded(uses, multiset(checks)) else UsesDropped(uses, multiset(checks))
  {
    r := uses;
    var todo := checks;
    ghost var n: multiset<Id> := multiset{};
    NothingMoved(map[], Dial, 0, add, uses);
    while todo != {}
      invariant todo <= checks && n == multiset(checks - todo)
      invariant r == if add then UsesAdded(uses, n) else UsesDropped(uses, n)
    {
      var c := Next(todo);
      if add {
        UsesAddedOneMore(uses, n, c);
        r := r[c := (if c in r then r[c] else 0) + 1];
      } else {
        UsesDroppedOneMore(uses, n, c);
        r := Decremented(r, c);
      }
      todo := todo - {c};
      n := n + multiset{c};
      assert checks - todo == (checks - (todo + {c})) + {c};
    }
    assert checks - todo == checks;
  }

  method CountCheckList(uses: map<Id, int>, ids: seq<Id>, add: bool) returns (r: map<Id, int>)
    ensures r == if add then UsesAdded(uses, multiset(ids)) else UsesDropped(uses, multiset(ids))
  {
    r := uses;
    NothingMoved(map[], Dial, 0, add, uses);
    for k := 0 to |ids|
      invariant r == if add then UsesAdded(uses, multiset(ids[..k])) else UsesDropped(uses, multiset(ids[..k]))
    {
      assert ids[..k + 1] == ids[..k] + [ids[k]];
      if add {
        UsesAddedOneMore(uses, multiset(ids[..k]), ids[k]);
        r := r[ids[k] := (if ids[k] in r then r[ids[k]] else 0) + 1];
      } else {
        UsesDroppedOneMore(uses, multiset(ids[..k]), ids[k]);
        r := Decremented(r, ids[k]);
      }
    }
    assert ids[..|ids|] == ids;
  }

  /** The index updates of the posture check methods; missing is the nil dereference. */
  method TouchServices(access: AccessMap, t: PolicyType, services: set<Id>, index: nat)
    returns (r: AccessMap, missing: bool)
    ensures missing == !(services <= access.Keys)
    ensures r == Touched(access, t, services, index)
  {
    r, missing := access, false;
    var todo := services;
    while todo != {}
      invariant todo <= services
      invariant missing == !(services - todo <= access.Keys)
      invariant r == Touched(access, t, services - todo, index)
    {
      var s := Next(todo);
      if s in r {
        r := r[s := Moved(r[s], t, 0, index)];
      } else {
        missing := true;
      }
      todo := todo - {s};
    }
    assert services - todo == services;
  }

  // ---- the identity's methods --------------------------------------------------------------------------

  method AddedToPolicy(i: Identity, pid: Id, p: Policy, index: nat) returns (j: Identity)
    requires AccessOk(i.access)
    ensures j == Joined(i, pid, p, index)
  {
    j := i;
    if pid !in i.policies {
      j := j.(policies := j.policies + {pid});
      if i.tracked {
        var access := CountServices(i.access, p.policyType, p.services, index, true);
        j := j.(access := access);
      }
      NothingMoved(map[], Dial, 0, true, i.checks);
      if p.services != {} {
        var checks := CountChecks(i.checks, p.checks, true);
        j := j.(checks := checks);
      }
    }
  }

  method RemovedFromPolicy(i: Identity, pid: Id, p: Policy, index: nat) returns (j: Identity)
    requires AccessOk(i.access)
    ensures j == Left(i, pid, p, index)
  {
    j := i;
    if pid in i.policies {
      j := j.(policies := j.policies - {pid});
      if i.tracked {
        var access := CountServices(i.access, p.policyType, p.services, index, false);
        j := j.(access := access);
      }
      NothingMoved(map[], Dial, 0, true, i.checks);
      if p.services != {} {
        var checks := CountChecks(i.checks, p.checks, false);
        j := j.(checks := checks);
      }
    }
  }

  method MoveServices(i: Identity, pid: Id, p: Policy, ids: seq<Id>, index: nat, add: bool) returns (j: Identity)
    requires AccessOk(i.access)
    ensures j == ServicesMoved(i, pid, p, multiset(ids), index, add)
  {
    j := i;
    if i.tracked {
      if pid in i.policies {
        var access := CountServiceList(i.access, p.policyType, ids, index, add);
        j := j.(access := access);
      }
    }
  }

  method MoveChecks(i: Identity, pid: Id, p: Policy, ids: seq<Id>, index: nat, add: bool)
    returns (j: Identity, missing: bool)
    ensures j == ChecksMoved(i, pid, p, multiset(ids), index, add)
    ensures missing == NilLookup(i, p)
  {
    j, missing := i, false;
    if pid in i.policies {
      var checks := CountCheckList(i.checks, ids, add);
      j := j.(checks := checks);
    }
    if i.tracked {
      var access, nil := TouchServices(i.access, p.policyType, p.services, index);
      j, missing := j.(access := access), nil;
    }
  }
}
