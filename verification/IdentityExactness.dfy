/**
 Exactness of one identity's counters: what joining and leaving a policy, service deltas and posture check deltas
 do to the agreement between the counters and the policies they count.
 */
module IdentityExactness {
  import opened Types
  import opened Identities

  // ---- counting with one policy set apart -------------------------------------------------------------

  ghost function One(b: bool): nat {
    if b then 1 else 0
  }

  lemma GrantingSplit(ps: Policies, mine: set<Id>, pid: Id, t: PolicyType, s: Id)
    requires pid in mine && pid in ps
    ensures |Granting(ps, mine, t, s)| ==
            |Granting(ps, mine - {pid}, t, s)| + One(ps[pid].policyType == t && s in ps[pid].services)
  {
    var rest := Granting(ps, mine - {pid}, t, s);
    if ps[pid].policyType == t && s in ps[pid].services {
      assert Granting(ps, mine, t, s) == rest + {pid};
    } else {
      assert Granting(ps, mine, t, s) == rest;
    }
  }

  lemma UsingSplit(ps: Policies, mine: set<Id>, pid: Id, c: Id)
    requires pid in mine && pid in ps
    ensures |Using(ps, mine, c)| ==
            |Using(ps, mine - {pid}, c)| + One(c in ps[pid].checks && ps[pid].services != {})
  {
    var rest := Using(ps, mine - {pid}, c);
    if c in ps[pid].checks && ps[pid].services != {} {
      assert Using(ps, mine, c) == rest + {pid};
    } else {
      assert Using(ps, mine, c) == rest;
    }
  }

  /** Policies that agree on what counts: type, services and checks. */
  ghost predicate SameGrants(p: Policy, q: Policy) {
    p.policyType == q.policyType && p.services == q.services && p.checks == q.checks
  }

  ghost predicate AgreeOn(ps: Policies, qs: Policies, mine: set<Id>) {
    forall p :: p in mine ==> (p in ps <==> p in qs) && (p in ps && p in qs ==> SameGrants(ps[p], qs[p]))
  }

  lemma CountsAgree(ps: Policies, qs: Policies, mine: set<Id>)
    requires AgreeOn(ps, qs, mine)
    ensures forall t, s :: Granting(ps, mine, t, s) == Granting(qs, mine, t, s)
    ensures forall c :: Using(ps, mine, c) == Using(qs, mine, c)
  {
    forall t, s ensures Granting(ps, mine, t, s) == Granting(qs, mine, t, s) {
      assert forall p :: p in Granting(ps, mine, t, s) <==> p in Granting(qs, mine, t, s);
    }
    forall c ensures Using(ps, mine, c) == Using(qs, mine, c) {
      assert forall p :: p in Using(ps, mine, c) <==> p in Using(qs, mine, c);
    }
  }

  /** Policies outside the identity's own do not matter to it. */
  lemma ExactFrame(ps: Policies, qs: Policies, i: Identity)
    requires AgreeOn(ps, qs, i.policies)
    ensures AccessExact(ps, i) <==> AccessExact(qs, i)
    ensures ChecksExact(ps, i) <==> ChecksExact(qs, i)
  {
    CountsAgree(ps, qs, i.policies);
    assert forall s :: AccessExactAt(ps, i, s) <==> AccessExactAt(qs, i, s);
    assert forall c :: ChecksExactAt(ps, i, c) <==> ChecksExactAt(qs, i, c);
  }

  // ---- joining and leaving ----------------------------------------------------------------------------

  lemma JoinedExact(ps: Policies, i: Identity, pid: Id, index: nat)
    requires pid in ps && pid !in i.policies
    ensures AccessExact(ps, i) ==> AccessExact(ps, Joined(i, pid, ps[pid], index))
    ensures ChecksExact(ps, i) ==> ChecksExact(ps, Joined(i, pid, ps[pid], index))
  {
    var j := Joined(i, pid, ps[pid], index);
    assert j.policies - {pid} == i.policies;
    if AccessExact(ps, i) && i.tracked {
      forall s ensures AccessExactAt(ps, j, s) {
        assert AccessExactAt(ps, i, s);
        GrantingSplit(ps, j.policies, pid, Dial, s);
        GrantingSplit(ps, j.policies, pid, Bind, s);
      }
    }
    if ChecksExact(ps, i) {
      forall c ensures ChecksExactAt(ps, j, c) {
        assert ChecksExactAt(ps, i, c);
        UsingSplit(ps, j.policies, pid, c);
      }
    }
  }

  lemma LeftExact(ps: Policies, i: Identity, pid: Id, index: nat)
    requires pid in ps && pid in i.policies
    ensures AccessExact(ps, i) ==> AccessExact(ps, Left(i, pid, ps[pid], index))
    ensures ChecksExact(ps, i) ==> ChecksExact(ps, Left(i, pid, ps[pid], index))
  {
    var j := Left(i, pid, ps[pid], index);
    if AccessExact(ps, i) && i.tracked {
      forall s ensures AccessExactAt(ps, j, s) {
        assert AccessExactAt(ps, i, s);
        GrantingSplit(ps, i.policies, pid, Dial, s);
        GrantingSplit(ps, i.policies, pid, Bind, s);
      }
    }
    if ChecksExact(ps, i) {
      forall c ensures ChecksExactAt(ps, j, c) {
        assert ChecksExactAt(ps, i, c);
        UsingSplit(ps, i.policies, pid, c);
      }
    }
  }

  // ---- service deltas ---------------------------------------------------------------------------------

  /** A delta that mentions each id once, adding only absent ids and removing only present ones. */
  ghost predicate Genuine(current: set<Id>, ids: seq<Id>, add: bool) {
    && Distinct(ids)
    && forall x :: x in ids ==> (x in current <==> !add)
  }

  ghost predicate GenuineAt(current: set<Id>, ids: multiset<Id>, add: bool, x: Id) {
    x in ids ==> ids[x] == 1 && (x in current <==> !add)
  }

  lemma {:induction false} GenuineAtEach(current: set<Id>, ids: seq<Id>, add: bool)
    ensures Genuine(current, ids, add) <==> forall x :: GenuineAt(current, multiset(ids), add, x)
  {
    if Distinct(ids) {
      forall x ensures GenuineAt(current, multiset(ids), add, x) <==> (x in ids ==> (x in current <==> !add)) {
        if x in ids {
          DistinctOnce(ids, x);
        }
      }
    } else {
      var j, k :| 0 <= j < k < |ids| && ids[j] == ids[k];
      TwiceIsTwo(ids, j, k);
      assert !GenuineAt(current, multiset(ids), add, ids[j]);
    }
  }

  lemma {:induction false} DistinctOnce(ids: seq<Id>, x: Id)
    requires Distinct(ids) && x in ids
    ensures multiset(ids)[x] == 1
  {
    var k :| 0 <= k < |ids| && ids[k] == x;
    assert ids == ids[..k] + [x] + ids[k + 1..];
    assert multiset(ids) == multiset(ids[..k]) + multiset{x} + multiset(ids[k + 1..]);
    assert x !in ids[..k] && x !in ids[k + 1..];
  }

  lemma TwiceIsTwo(ids: seq<Id>, j: nat, k: nat)
    requires j < k < |ids| && ids[j] == ids[k]
    ensures multiset(ids)[ids[j]] >= 2
  {
    var x := ids[j];
    assert ids == ids[..k] + [x] + ids[k + 1..];
    assert multiset(ids) == multiset(ids[..k]) + multiset{x} + multiset(ids[k + 1..]);
    assert x == ids[..k][j];
  }

  /** No other policy of the identity contains s. */
  ghost predicate SoleGrant(ps: Policies, i: Identity, pid: Id, s: Id) {
    forall q :: q in i.policies && q != pid && q in ps ==> s !in ps[q].services
  }

  lemma SoleGrantCounts(ps: Policies, i: Identity, pid: Id, s: Id)
    ensures SoleGrant(ps, i, pid, s) <==>
            |Granting(ps, i.policies - {pid}, Dial, s)| + |Granting(ps, i.policies - {pid}, Bind, s)| == 0
  {
    var d, b := Granting(ps, i.policies - {pid}, Dial, s), Granting(ps, i.policies - {pid}, Bind, s);
    assert forall q :: q in d + b ==> q in i.policies && q != pid && q in ps && s in ps[q].services;
    if !SoleGrant(ps, i, pid, s) {
      var q :| q in i.policies && q != pid && q in ps && s in ps[q].services;
      assert q in d || q in b;
    } else {
      assert d + b == {};
    }
  }

  /**
   A service delta keeps a tracked member's counters exact precisely when each id is genuine, or, for a removal,
   when the identity has no other way to reach that service, so that the surplus decrements vanish with the entry.
   */
  lemma ServicesMovedExactAt(
    ps: Policies, i: Identity, pid: Id, ids: multiset<Id>, index: nat, add: bool, q: Policy, s: Id)
    requires pid in ps && pid in i.policies && i.tracked && AccessExactAt(ps, i, s)
    requires q.policyType == ps[pid].policyType
    requires s in q.services <==> if s in ids then add else s in ps[pid].services
    ensures AccessExactAt(ps[pid := q], ServicesMoved(i, pid, ps[pid], ids, index, add), s) <==>
            GenuineAt(ps[pid].services, ids, add, s) || (!add && SoleGrant(ps, i, pid, s))
  {
    var qs := ps[pid := q];
    var others := i.policies - {pid};
    GrantingSplit(ps, i.policies, pid, Dial, s);
    GrantingSplit(ps, i.policies, pid, Bind, s);
    GrantingSplit(qs, i.policies, pid, Dial, s);
    GrantingSplit(qs, i.policies, pid, Bind, s);
    assert AgreeOn(ps, qs, others);
    CountsAgree(ps, qs, others);
    SoleGrantCounts(ps, i, pid, s);
  }

  // ---- posture check counts ---------------------------------------------------------------------------

  ghost predicate SoleUse(ps: Policies, i: Identity, pid: Id, c: Id) {
    forall q :: q in i.policies && q != pid && q in ps && ps[q].services != {} ==> c !in ps[q].checks
  }

  lemma SoleUseCounts(ps: Policies, i: Identity, pid: Id, c: Id)
    ensures SoleUse(ps, i, pid, c) <==> |Using(ps, i.policies - {pid}, c)| == 0
  {
    var u := Using(ps, i.policies - {pid}, c);
    assert forall q :: q in u ==> q in i.policies && q != pid && q in ps && ps[q].services != {} && c in ps[q].checks;
    if !SoleUse(ps, i, pid, c) {
      var q :| q in i.policies && q != pid && q in ps && ps[q].services != {} && c in ps[q].checks;
      assert q in u;
    } else {
      assert u == {};
    }
  }

  /** A posture check delta on a policy that has services, the same way. */
  lemma ChecksMovedExactAt(
    ps: Policies, i: Identity, pid: Id, ids: multiset<Id>, index: nat, add: bool, q: Policy, c: Id)
    requires pid in ps && pid in i.policies && ChecksExactAt(ps, i, c)
    requires ps[pid].services != {} && q.services != {}
    requires c in q.checks <==> if c in ids then add else c in ps[pid].checks
    ensures ChecksExactAt(ps[pid := q], ChecksMoved(i, pid, ps[pid], ids, index, add), c) <==>
            GenuineAt(ps[pid].checks, ids, add, c) || (!add && SoleUse(ps, i, pid, c))
  {
    var qs := ps[pid := q];
    var others := i.policies - {pid};
    UsingSplit(ps, i.policies, pid, c);
    UsingSplit(qs, i.policies, pid, c);
    assert AgreeOn(ps, qs, others);
    CountsAgree(ps, qs, others);
    SoleUseCounts(ps, i, pid, c);
  }

  /** The first service, or the last one gone, switches all of the policy's checks on or off. */
  lemma ServicesSwitchExact(ps: Policies, i: Identity, pid: Id, index: nat, q: Policy)
    requires pid in ps && pid in i.policies && ChecksExact(ps, i)
    requires q.checks == ps[pid].checks
    ensures ps[pid].services == {} && q.services != {} ==>
              ChecksExact(ps[pid := q], ChecksMoved(i, pid, q, multiset(q.checks), index, true))
    ensures ps[pid].services != {} && q.services == {} ==>
              ChecksExact(ps[pid := q], ChecksMoved(i, pid, q, multiset(q.checks), index, false))
    ensures (ps[pid].services == {} <==> q.services == {}) ==> ChecksExact(ps[pid := q], i)
  {
    var qs := ps[pid := q];
    var on := ChecksMoved(i, pid, q, multiset(q.checks), index, true);
    var off := ChecksMoved(i, pid, q, multiset(q.checks), index, false);
    forall c
      ensures ps[pid].services == {} && q.services != {} ==> ChecksExactAt(qs, on, c)
      ensures ps[pid].services != {} && q.services == {} ==> ChecksExactAt(qs, off, c)
      ensures (ps[pid].services == {} <==> q.services == {}) ==> ChecksExactAt(qs, i, c)
    {
      assert ChecksExactAt(ps, i, c);
      UsingSplit(ps, i.policies, pid, c);
      UsingSplit(qs, i.policies, pid, c);
      assert AgreeOn(ps, qs, i.policies - {pid});
      CountsAgree(ps, qs, i.policies - {pid});
    }
  }

  /** With exact counters the unguarded lookups for one of the identity's own policies always find an entry. */
  lemma LookupsSafe(ps: Policies, i: Identity, pid: Id, p: Policy)
    requires pid in ps && pid in i.policies && p.services == ps[pid].services && AccessExact(ps, i)
    ensures !NilLookup(i, p)
  {
    if i.tracked {
      forall s | s in p.services ensures s in i.access {
        assert AccessExactAt(ps, i, s);
        GrantingSplit(ps, i.policies, pid, ps[pid].policyType, s);
      }
    }
  }
}
