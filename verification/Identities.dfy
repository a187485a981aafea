/**
 The per-identity denormalized data of the router's model (common/router_data_model.go): dial and bind counters
 per service, and use counts per posture check. Every function here is the net effect of one of the source's
 methods, whose loops run over maps in no particular order; module IdentityLoops has the loops.
 */
module Identities {
  import opened Types

  datatype ServiceAccess = ServiceAccess(dial: int, bind: int, dialIndex: nat, bindIndex: nat) {
    predicate IsDialAllowed() {
      dial > 0
    }

    predicate IsBindAllowed() {
      bind > 0
    }

    predicate HasAccess() {
      IsDialAllowed() || IsBindAllowed()
    }
  }

  const NoAccess := ServiceAccess(0, 0, 0, 0)

  type AccessMap = map<Id, ServiceAccess>

  datatype Policy = Policy(
    name: Text, policyType: PolicyType,
    services: set<Id>, checks: set<Id>, identities: set<Id>,
    servicesIndex: nat, checksIndex: nat)

  datatype Identity = Identity(
    data: IdentityData, policies: set<Id>, access: AccessMap, checks: map<Id, int>, index: nat, tracked: bool)

  function Max(a: nat, b: nat): nat {
    if a < b then b else a
  }

  function Get(access: AccessMap, s: Id): ServiceAccess {
    if s in access then access[s] else NoAccess
  }

  /** k grants or revocations of one policy type, at the given index. */
  function Moved(a: ServiceAccess, t: PolicyType, k: int, index: nat): ServiceAccess {
    match t
    case Dial => a.(dial := a.dial + k, dialIndex := Max(a.dialIndex, index))
    case Bind => a.(bind := a.bind + k, bindIndex := Max(a.bindIndex, index))
  }

  function Signed(add: bool, k: int): int {
    if add then k else -k
  }

  /**
   The access map after granting (or revoking) each service as often as it occurs in n: an entry stays exactly
   while one of its counters is positive.
   */
  function Regranted(access: AccessMap, t: PolicyType, n: multiset<Id>, index: nat, add: bool): AccessMap {
    map s | s in access.Keys + (set x | x in n) &&
            (s in n ==> Moved(Get(access, s), t, Signed(add, n[s]), index).HasAccess())
      :: if s in n then Moved(Get(access, s), t, Signed(add, n[s]), index) else access[s]
  }

  /** updatePostureChecksIndex on every listed service that has an entry. */
  function Touched(access: AccessMap, t: PolicyType, services: set<Id>, index: nat): AccessMap {
    map s | s in access :: if s in services then Moved(access[s], t, 0, index) else access[s]
  }

  function UsesAdded(uses: map<Id, int>, n: multiset<Id>): map<Id, int> {
    map c | c in uses.Keys + (set x | x in n) :: (if c in uses then uses[c] else 0) + n[c]
  }

  /** decrementUseCount as often as n says: an entry goes when it would drop below one, and stays gone. */
  function UsesDropped(uses: map<Id, int>, n: multiset<Id>): map<Id, int> {
    map c | c in uses && (c in n ==> uses[c] - n[c] >= 1) :: uses[c] - n[c]
  }

  function CheckUses(p: Policy): multiset<Id> {
    if p.services == {} then multiset{} else multiset(p.checks)
  }

  /** addedToPolicy */
  function Joined(i: Identity, pid: Id, p: Policy, index: nat): Identity {
    if pid in i.policies then i else
    i.(policies := i.policies + {pid},
       access := if i.tracked then Regranted(i.access, p.policyType, multiset(p.services), index, true) else i.access,
       checks := UsesAdded(i.checks, CheckUses(p)))
  }

  /** removedFromPolicy */
  function Left(i: Identity, pid: Id, p: Policy, index: nat): Identity {
    if pid !in i.policies then i else
    i.(policies := i.policies - {pid},
       access := if i.tracked then Regranted(i.access, p.policyType, multiset(p.services), index, false) else i.access,
       checks := UsesDropped(i.checks, CheckUses(p)))
  }

  /** servicesAddedToPolicy and servicesRemovedFromPolicy */
  function ServicesMoved(i: Identity, pid: Id, p: Policy, ids: multiset<Id>, index: nat, add: bool): Identity {
    if i.tracked && pid in i.policies
    then i.(access := Regranted(i.access, p.policyType, ids, index, add))
    else i
  }

  /** postureChecksAddedToPolicy and postureChecksRemovedFromPolicy */
  function ChecksMoved(i: Identity, pid: Id, p: Policy, ids: multiset<Id>, index: nat, add: bool): Identity {
    i.(checks := if pid !in i.policies then i.checks
                 else if add then UsesAdded(i.checks, ids) else UsesDropped(i.checks, ids),
       access := if i.tracked then Touched(i.access, p.policyType, p.services, index) else i.access)
  }

  /** The lookup in ChecksMoved's source is unguarded: it dereferences nil when an entry is missing. */
  predicate NilLookup(i: Identity, p: Policy) {
    i.tracked && !(p.services <= i.access.Keys)
  }

  // ---- what the counters must be ----------------------------------------------------------------------

  type Policies = map<Id, Policy>

  /** The policies among mine, of type t, that contain service s. */
  ghost function Granting(ps: Policies, mine: set<Id>, t: PolicyType, s: Id): set<Id> {
    set p | p in mine && p in ps && ps[p].policyType == t && s in ps[p].services
  }

  /** The policies among mine that hold check c and have at least one service. */
  ghost function Using(ps: Policies, mine: set<Id>, c: Id): set<Id> {
    set p | p in mine && p in ps && c in ps[p].checks && ps[p].services != {}
  }

  ghost predicate AccessExactAt(ps: Policies, i: Identity, s: Id) {
    var d, b := Granting(ps, i.policies, Dial, s), Granting(ps, i.policies, Bind, s);
    && (s in i.access <==> |d| + |b| > 0)
    && (s in i.access ==> i.access[s].dial == |d| && i.access[s].bind == |b|)
  }

  ghost predicate AccessExact(ps: Policies, i: Identity) {
    if i.tracked then forall s :: AccessExactAt(ps, i, s) else i.access == map[]
  }

  ghost predicate ChecksExactAt(ps: Policies, i: Identity, c: Id) {
    && (c in i.checks <==> |Using(ps, i.policies, c)| > 0)
    && (c in i.checks ==> i.checks[c] == |Using(ps, i.policies, c)|)
  }

  ghost predicate ChecksExact(ps: Policies, i: Identity) {
    forall c :: ChecksExactAt(ps, i, c)
  }
}
