/**
 The router's data model as a value, and the net effect of each event handler of common/router_data_model.go on
 it. The handlers' loops, which run in no particular order, are in class RouterDataModel.
 */
module Receiver {
  import opened Types
  import opened Identities
  import SliceDiff

  datatype ConfigType = ConfigType(name: Text, index: nat)
  datatype Config = Config(data: ConfigData, services: set<Id>, identities: set<Id>, index: nat)
  datatype Service = Service(data: ServiceData, policies: set<Id>, index: nat)
  datatype Check = Check(data: Text, policies: set<Id>, index: nat)

  /** panicked records a nil dereference in a handler. */
  datatype Model = Model(
    configTypes: map<Id, ConfigType>,
    configs: map<Id, Config>,
    identities: map<Id, Identity>,
    services: map<Id, Service>,
    policies: map<Id, Policy>,
    checks: map<Id, Check>,
    panicked: bool)

  const EmptyModel := Model(map[], map[], map[], map[], map[], map[], false)

  // ---- index propagation ------------------------------------------------------------------------------

  /** NotifyServicePolicyServiceChange on each policy */
  function PoliciesTouched(ps: Policies, touched: set<Id>, index: nat): Policies {
    map p | p in ps :: if p in touched then ps[p].(servicesIndex := Max(ps[p].servicesIndex, index)) else ps[p]
  }

  /** NotifyServicePolicyPostureChecksChange on each policy */
  function PolicyChecksTouched(ps: Policies, touched: set<Id>, index: nat): Policies {
    map p | p in ps :: if p in touched then ps[p].(checksIndex := Max(ps[p].checksIndex, index)) else ps[p]
  }

  function PoliciesOf(services: map<Id, Service>, ids: set<Id>): set<Id> {
    set s, p | s in ids && s in services && p in services[s].policies :: p
  }

  function ServicesRaised(services: map<Id, Service>, ids: set<Id>, index: nat): map<Id, Service> {
    map s | s in services :: if s in ids then services[s].(index := Max(services[s].index, index)) else services[s]
  }

  /** The services that use a config of the given type. */
  function ServicesOfType(configs: map<Id, Config>, t: Id): set<Id> {
    set c, s | c in configs && configs[c].data.typeId == t && s in configs[c].services :: s
  }

  /** NotifyServiceOfConfigChange on each service */
  function ServicesTouched(m: Model, ids: set<Id>, index: nat): Model {
    m.(services := ServicesRaised(m.services, ids, index),
       policies := PoliciesTouched(m.policies, PoliciesOf(m.services, ids), index))
  }

  // ---- config types and configs -----------------------------------------------------------------------

  function PutConfigType(m: Model, index: nat, id: Id, name: Text): Model {
    ServicesTouched(
      m.(configTypes := m.configTypes[id := ConfigType(name, index)]),
      ServicesOfType(m.configs, id),
      index)
  }

  function DeleteConfigType(m: Model, id: Id): Model {
    m.(configTypes := m.configTypes - {id})
  }

  function PutConfig(m: Model, index: nat, id: Id, data: ConfigData): Model {
    if id !in m.configs then m.(configs := m.configs[id := Config(data, {}, {}, index)])
    else
      var prev := m.configs[id];
      var m' := if prev.data == data then m else ServicesTouched(m, prev.services, index);
      m'.(configs := m.configs[id := Config(data, prev.services, prev.identities, index)])
  }

  function WithoutConfig(overrides: map<Id, Id>, c: Id): map<Id, Id> {
    map t | t in overrides && overrides[t] != c :: overrides[t]
  }

  /** Overrides naming the config go, and with them every service left without an override. */
  function Purged(serviceConfigs: map<Id, map<Id, Id>>, c: Id): map<Id, map<Id, Id>> {
    map s | s in serviceConfigs && WithoutConfig(serviceConfigs[s], c) != map[]
      :: WithoutConfig(serviceConfigs[s], c)
  }

  function PurgedIdentity(i: Identity, c: Id): Identity {
    i.(data := i.data.(serviceConfigs := Purged(i.data.serviceConfigs, c)))
  }

  function AllPurged(all: map<Id, Identity>, ids: set<Id>, c: Id): map<Id, Identity> {
    map i | i in all :: if i in ids then PurgedIdentity(all[i], c) else all[i]
  }

  function DeleteConfig(m: Model, index: nat, id: Id): Model {
    if id !in m.configs then m else
    var prev := m.configs[id];
    ServicesTouched(m, prev.services, index).(
      configs := m.configs - {id},
      identities := AllPurged(m.identities, prev.identities, id))
  }

  // ---- identities -------------------------------------------------------------------------------------

  /** removeConfigReferences, then addConfigReferences: only configs that exist are updated. */
  ghost function IdentityReferences(configs: map<Id, Config>, i: Id, before: set<Id>, after: set<Id>): map<Id, Config> {
    map c | c in configs ::
      if c in after then configs[c].(identities := configs[c].identities + {i})
      else if c in before then configs[c].(identities := configs[c].identities - {i})
      else configs[c]
  }

  function PutIdentityValue(m: Model, index: nat, id: Id, data: IdentityData): Identity {
    if id in m.identities then m.identities[id].(data := data, index := index)
    else Identity(data, {}, map[], map[], index, false)
  }

  ghost function PutIdentity(m: Model, index: nat, id: Id, data: IdentityData): Model {
    var before := if id in m.identities then Referenced(m.identities[id].data.serviceConfigs) else {};
    m.(configs := IdentityReferences(m.configs, id, before, Referenced(data.serviceConfigs)),
       identities := m.identities[id := PutIdentityValue(m, index, id, data)])
  }

  function PoliciesWithoutIdentity(ps: Policies, gone: set<Id>, i: Id): Policies {
    map p | p in ps :: if p in gone then ps[p].(identities := ps[p].identities - {i}) else ps[p]
  }

  /** The identity leaves every policy it lists, by cleanup events, and then goes. */
  ghost function DeleteIdentity(m: Model, id: Id): Model {
    if id !in m.identities then m else
    var prev := m.identities[id];
    m.(configs := IdentityReferences(m.configs, id, Referenced(prev.data.serviceConfigs), {}),
       policies := PoliciesWithoutIdentity(m.policies, prev.policies, id),
       identities := m.identities - {id})
  }

  // ---- services ---------------------------------------------------------------------------------------

  /** removeFromConfigs, then addToConfigs */
  function ServiceReferences(configs: map<Id, Config>, s: Id, remove: multiset<Id>, add: multiset<Id>)
    : map<Id, Config>
  {
    map c | c in configs ::
      if c in add then configs[c].(services := configs[c].services + {s})
      else if c in remove then configs[c].(services := configs[c].services - {s})
      else configs[c]
  }

  /** On an update the config references move by the difference of the two lists, which leaves the list sorted. */
  function PutService(m: Model, index: nat, id: Id, data: ServiceData): Model {
    if id !in m.services then
      m.(configs := ServiceReferences(m.configs, id, multiset{}, multiset(data.configs)),
         services := m.services[id := Service(data, {}, index)])
    else
      var prev := m.services[id];
      var before, after := multiset(prev.data.configs), multiset(data.configs);
      m.(configs := ServiceReferences(m.configs, id, before - after, after - before),
         services := m.services[id := Service(data.(configs := SliceDiff.Sort(data.configs)), prev.policies, index)],
         policies := PoliciesTouched(m.policies, prev.policies, index))
  }

  /** The policies a service's cleanup events are for. */
  function PoliciesWithService(m: Model, id: Id): set<Id> {
    set p | p in m.policies && id in m.services && p in m.services[id].policies && id in m.policies[p].services
  }

  /** The policies among gone through which identity id, listing mine, is affected. */
  ghost function Via(ps: Policies, gone: set<Id>, id: Id, mine: set<Id>): set<Id> {
    set p | p in gone && p in ps && id in ps[p].identities && p in mine
  }

  ghost function OfType(ps: Policies, via: set<Id>, t: PolicyType): set<Id> {
    set p | p in via && p in ps && ps[p].policyType == t
  }

  function Lowered(a: ServiceAccess, dial: nat, bind: nat, index: nat): ServiceAccess {
    ServiceAccess(a.dial - dial, a.bind - bind,
                  if dial > 0 then Max(a.dialIndex, index) else a.dialIndex,
                  if bind > 0 then Max(a.bindIndex, index) else a.bindIndex)
  }

  function AccessLowered(access: AccessMap, s: Id, dial: nat, bind: nat, index: nat): AccessMap {
    if dial + bind == 0 then access
    else if Lowered(Get(access, s), dial, bind, index).HasAccess()
    then access[s := Lowered(Get(access, s), dial, bind, index)]
    else access - {s}
  }

  /** The policies among via that lose their only service, and hold check c. */
  ghost function Emptied(ps: Policies, via: set<Id>, s: Id, c: Id): set<Id> {
    set p | p in via && p in ps && ps[p].services == {s} && c in ps[p].checks
  }

  /** Service s is taken out of each policy in via, for one identity. */
  ghost function ServiceLost(ps: Policies, via: set<Id>, i: Identity, s: Id, index: nat): Identity {
    i.(access := if i.tracked
                 then AccessLowered(i.access, s, |OfType(ps, via, Dial)|, |OfType(ps, via, Bind)|, index)
                 else i.access,
       checks := map c | c in i.checks &&
                         (|Emptied(ps, via, s, c)| > 0 ==> i.checks[c] - |Emptied(ps, via, s, c)| >= 1)
                   :: i.checks[c] - |Emptied(ps, via, s, c)|)
  }

  function PoliciesWithoutService(ps: Policies, gone: set<Id>, s: Id, index: nat): Policies {
    map p | p in ps ::
      if p in gone then ps[p].(services := ps[p].services - {s}, servicesIndex := index) else ps[p]
  }

  ghost function AllServiceLost(all: map<Id, Identity>, ps: Policies, gone: set<Id>, s: Id, index: nat)
    : map<Id, Identity>
  {
    map i | i in all :: ServiceLost(ps, Via(ps, gone, i, all[i].policies), all[i], s, index)
  }

  ghost function DeleteService(m: Model, index: nat, id: Id): Model {
    if id !in m.services then m else
    var gone := PoliciesWithService(m, id);
    m.(services := m.services - {id},
       configs := ServiceReferences(m.configs, id, multiset(m.services[id].data.configs), multiset{}),
       policies := PoliciesWithoutService(m.policies, gone, id, index),
       identities := AllServiceLost(m.identities, m.policies, gone, id, index))
  }

  // ---- posture checks ---------------------------------------------------------------------------------

  function PutCheck(m: Model, index: nat, id: Id, data: Text): Model {
    var linked := if id in m.checks then m.checks[id].policies else {};
    m.(checks := m.checks[id := Check(data, linked, index)],
       policies := PolicyChecksTouched(m.policies, linked, index))
  }

  function PoliciesWithCheck(m: Model, id: Id): set<Id> {
    set p | p in m.policies && id in m.checks && p in m.checks[id].policies && id in m.policies[p].checks
  }

  /** The affected policies that have services: only those reach the identities. */
  ghost function Active(ps: Policies, gone: set<Id>, id: Id): set<Id> {
    set p | p in gone && p in ps && ps[p].services != {} && id in ps[p].identities
  }

  ghost predicate TouchedBy(ps: Policies, active: set<Id>, t: PolicyType, s: Id) {
    exists p :: p in active && p in ps && ps[p].policyType == t && s in ps[p].services
  }

  ghost function AccessTouched(ps: Policies, active: set<Id>, access: AccessMap, index: nat): AccessMap {
    map s | s in access ::
      access[s].(dialIndex := if TouchedBy(ps, active, Dial, s) then Max(access[s].dialIndex, index)
                              else access[s].dialIndex,
                 bindIndex := if TouchedBy(ps, active, Bind, s) then Max(access[s].bindIndex, index)
                              else access[s].bindIndex)
  }

  /** Check c is taken out of each policy in active, for one identity. */
  ghost function CheckLost(ps: Policies, active: set<Id>, i: Identity, c: Id, index: nat): Identity {
    var uses := |active * i.policies|;
    i.(checks := if uses == 0 || c !in i.checks then i.checks
                 else if i.checks[c] - uses >= 1 then i.checks[c := i.checks[c] - uses] else i.checks - {c},
       access := if i.tracked then AccessTouched(ps, active, i.access, index) else i.access)
  }

  ghost predicate CheckLostPanics(ps: Policies, active: set<Id>, i: Identity) {
    exists p :: p in active && p in ps && NilLookup(i, ps[p])
  }

  function PoliciesWithoutCheck(ps: Policies, gone: set<Id>, c: Id, index: nat): Policies {
    map p | p in ps :: if p in gone then ps[p].(checks := ps[p].checks - {c}, checksIndex := index) else ps[p]
  }

  ghost function AllCheckLost(all: map<Id, Identity>, ps: Policies, gone: set<Id>, c: Id, index: nat)
    : map<Id, Identity>
  {
    map i | i in all :: CheckLost(ps, Active(ps, gone, i), all[i], c, index)
  }

  ghost predicate AnyCheckLostPanics(all: map<Id, Identity>, ps: Policies, gone: set<Id>) {
    exists i :: i in all && CheckLostPanics(ps, Active(ps, gone, i), all[i])
  }

  ghost function DeleteCheck(m: Model, index: nat, id: Id): Model {
    if id !in m.checks then m else
    var gone := PoliciesWithCheck(m, id);
    m.(checks := m.checks - {id},
       policies := PoliciesWithoutCheck(m.policies, gone, id, index),
       identities := AllCheckLost(m.identities, m.policies, gone, id, index),
       panicked := m.panicked || AnyCheckLostPanics(m.identities, m.policies, gone))
  }

  // ---- service policies -------------------------------------------------------------------------------

  /** A member of a policy whose type changes leaves the old policy and joins the new one. */
  function Flipped(i: Identity, id: Id, prev: Policy, next: Policy, index: nat): Identity {
    Joined(Left(i, id, prev, index), id, next, index)
  }

  function MembersFlipped(all: map<Id, Identity>, ids: set<Id>, id: Id, prev: Policy, next: Policy, index: nat)
    : map<Id, Identity>
  {
    map i | i in all :: if i in ids then Flipped(all[i], id, prev, next, index) else all[i]
  }

  /** An update keeps the memberships, restarts checksIndex, and re-counts its identities when the type flips. */
  function PutPolicy(m: Model, index: nat, id: Id, name: Text, t: PolicyType): Model {
    if id !in m.policies then
      m.(policies := m.policies[id := Policy(name, t, {}, {}, {}, index, 0)])
    else
      var prev := m.policies[id];
      var next := Policy(name, t, prev.services, prev.checks, prev.identities, index, 0);
      m.(policies := m.policies[id := next],
         identities := if prev.policyType != t
                       then MembersFlipped(m.identities, prev.identities, id, prev, next, index) else m.identities)
  }

  function DeletePolicy(m: Model, index: nat, id: Id): Model {
    if id !in m.policies then m else
    var prev := m.policies[id];
    m.(policies := m.policies - {id},
       identities := AllJoinedOrLeft(m.identities, prev.identities, id, prev, index, false))
  }

  function JoinedOrLeft(i: Identity, pid: Id, p: Policy, index: nat, add: bool): Identity {
    if add then Joined(i, pid, p, index) else Left(i, pid, p, index)
  }

  function AllJoinedOrLeft(all: map<Id, Identity>, ids: set<Id>, pid: Id, p: Policy, index: nat, add: bool)
    : map<Id, Identity>
  {
    map i | i in all :: if i in ids then JoinedOrLeft(all[i], pid, p, index, add) else all[i]
  }

  function ChangeIdentities(m: Model, index: nat, pid: Id, ids: set<Id>, add: bool): Model
    requires pid in m.policies
  {
    var p := m.policies[pid];
    var known := ids * m.identities.Keys;
    m.(policies := m.policies[pid := p.(identities := if add then p.identities + known else p.identities - known)],
       identities := AllJoinedOrLeft(m.identities, ids, pid, p, index, add))
  }

  /** A member's counters after a service delta, and after the switch of the policy's checks it may cause. */
  function MemberServicesMoved(i: Identity, pid: Id, p: Policy, q: Policy, ids: multiset<Id>, index: nat, add: bool)
    : Identity
  {
    var j := ServicesMoved(i, pid, p, ids, index, add);
    if p.services == {} && q.services != {} then ChecksMoved(j, pid, q, multiset(q.checks), index, true)
    else if p.services != {} && q.services == {} then ChecksMoved(j, pid, q, multiset(q.checks), index, false)
    else j
  }

  function AllServicesMoved(all: map<Id, Identity>, pid: Id, p: Policy, q: Policy, ids: multiset<Id>, index: nat,
                            add: bool)
    : map<Id, Identity>
  {
    map i | i in all :: if i in p.identities then MemberServicesMoved(all[i], pid, p, q, ids, index, add) else all[i]
  }

  function AllChecksMoved(all: map<Id, Identity>, pid: Id, p: Policy, ids: multiset<Id>, index: nat, add: bool)
    : map<Id, Identity>
  {
    map i | i in all :: if i in p.identities then ChecksMoved(all[i], pid, p, ids, index, add) else all[i]
  }

  function ServicesLinked(all: map<Id, Service>, ids: seq<Id>, pid: Id, add: bool): map<Id, Service> {
    map s | s in all :: if s in ids then all[s].(policies := Relisted(all[s].policies, {pid}, add)) else all[s]
  }

  function ChecksLinked(all: map<Id, Check>, ids: seq<Id>, pid: Id, add: bool): map<Id, Check> {
    map c | c in all :: if c in ids then all[c].(policies := Relisted(all[c].policies, {pid}, add)) else all[c]
  }

  function ChangeServices(m: Model, index: nat, pid: Id, ids: seq<Id>, add: bool): Model
    requires pid in m.policies
  {
    var p := m.policies[pid];
    var q := p.(services := Relisted(p.services, ToSet(ids), add), servicesIndex := index);
    m.(policies := m.policies[pid := q],
       services := ServicesLinked(m.services, ids, pid, add),
       identities := AllServicesMoved(m.identities, pid, p, q, multiset(ids), index, add),
       panicked := m.panicked ||
                   (p.services == {} && q.services != {} &&
                    exists i :: i in m.identities && i in p.identities &&
                                NilLookup(ServicesMoved(m.identities[i], pid, p, multiset(ids), index, add), q)))
  }

  function ChangeChecks(m: Model, index: nat, pid: Id, ids: seq<Id>, add: bool): Model
    requires pid in m.policies
  {
    var p := m.policies[pid];
    m.(policies := m.policies[pid := p.(checks := Relisted(p.checks, ToSet(ids), add), checksIndex := index)],
       checks := ChecksLinked(m.checks, ids, pid, add),
       identities := if p.services != {} then AllChecksMoved(m.identities, pid, p, multiset(ids), index, add)
                     else m.identities,
       panicked := m.panicked ||
                   (p.services != {} &&
                    exists i :: i in m.identities && i in p.identities && NilLookup(m.identities[i], p)))
  }

  /** HandleServicePolicyChange: a delta for an unknown policy is dropped. */
  function Change(m: Model, index: nat, change: PolicyChange): Model {
    if change.policyId !in m.policies then m else
    match change.related
    case RelatedIdentity => ChangeIdentities(m, index, change.policyId, ToSet(change.ids), change.add)
    case RelatedService => ChangeServices(m, index, change.policyId, change.ids, change.add)
    case RelatedPostureCheck => ChangeChecks(m, index, change.policyId, change.ids, change.add)
  }

  // ---- dispatch ---------------------------------------------------------------------------------------

  ghost function Handle(m: Model, index: nat, e: Event): Model {
    match e
    case ConfigTypeEvent(a, id, name) => if a.Delete? then DeleteConfigType(m, id)
                                         else PutConfigType(m, index, id, name)
    case ConfigEvent(a, id, data) => if a.Delete? then DeleteConfig(m, index, id) else PutConfig(m, index, id, data)
    case IdentityEvent(a, id, data) => if a.Delete? then DeleteIdentity(m, id) else PutIdentity(m, index, id, data)
    case ServiceEvent(a, id, data) => if a.Delete? then DeleteService(m, index, id) else PutService(m, index, id, data)
    case PolicyEvent(a, id, name, t) => if a.Delete? then DeletePolicy(m, index, id)
                                        else PutPolicy(m, index, id, name, t)
    case CheckEvent(a, id, data) => if a.Delete? then DeleteCheck(m, index, id) else PutCheck(m, index, id, data)
    case ChangeEvent(change) => Change(m, index, change)
  }

  ghost function HandleAll(m: Model, index: nat, events: seq<Event>): Model
    decreases |events|
  {
    if events == [] then m else HandleAll(Handle(m, index, events[0]), index, events[1..])
  }

  // ---- service access tracking ------------------------------------------------------------------------

  /** An upper bound over the policies in via that is attained, 0 if there are none. */
  ghost predicate IsLatest(ps: Policies, via: set<Id>, latest: nat) {
    && (forall p :: p in via && p in ps ==> Max(ps[p].checksIndex, ps[p].servicesIndex) <= latest)
    && (latest == 0 || exists p :: p in via && p in ps && Max(ps[p].checksIndex, ps[p].servicesIndex) == latest)
  }

  ghost predicate AccessListedAt(ps: Policies, mine: set<Id>, access: AccessMap, s: Id) {
    var d, b := Granting(ps, mine, Dial, s), Granting(ps, mine, Bind, s);
    && (s in access <==> |d| + |b| > 0)
    && (s in access ==> access[s].dial == |d| && access[s].bind == |b| &&
                        IsLatest(ps, d, access[s].dialIndex) && IsLatest(ps, b, access[s].bindIndex))
  }

  /** buildServiceAccessList: an access map counted from scratch. */
  ghost predicate IsAccessList(ps: Policies, mine: set<Id>, access: AccessMap) {
    forall s :: AccessListedAt(ps, mine, access, s)
  }

  /** EnableServiceAccessTracking, with the list it builds. */
  function EnableTracking(m: Model, id: Id, access: AccessMap): Model {
    if id !in m.identities || m.identities[id].tracked then m
    else m.(identities := m.identities[id := m.identities[id].(tracked := true, access := access)])
  }

  /** DisableServiceAccessTracking */
  function DisableTracking(m: Model, id: Id): Model {
    if id !in m.identities || !m.identities[id].tracked then m
    else m.(identities := m.identities[id := m.identities[id].(tracked := false, access := map[])])
  }
}
