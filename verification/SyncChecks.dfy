/**
 How a model change reaches the subscriber loop (queueSyncCheck, queueNewIdentitySubCheck, markIdentityForCheck,
 markIdentityCheckComplete and processSubscriberEvents in common/router_data_model.go): a flag per identity, a bounded
 event queue with a one-slot scan request as fallback, and a single processor. Handlers and processor interleave freely.

 The identities considered are subscribed and stay in the model. A version counts an identity's changes; seen is the
 version its last check read.
 */
module SyncChecks {
  import opened Types

  datatype Flag = Added | Updated

  /** A handler on its way: the model has changed; the flag is set; the event queue was found full. */
  datatype Phase = Changed | Marked | Refused

  datatype Marker = Marker(id: Id, flag: Flag, phase: Phase)

  datatype QueueEvent = CheckFor(id: Id, flag: Flag) | SyncAll

  /**
   A scan reads the flags key by key (unread, then found if a flag was set), and then for each key found removes the
   entry and checks the identity.
   */
  datatype Processor =
    | Idle
    | Checking(id: Id)
    | Scanning(unread: set<Id>, found: set<Id>)
    | ScanChecking(id: Id, unread: set<Id>, found: set<Id>)
    | Syncing(todo: set<Id>)
    | SyncChecking(id: Id, todo: set<Id>)

  datatype State = State(
    capacity: nat,
    version: map<Id, nat>,
    seen: map<Id, nat>,
    flags: map<Id, set<Flag>>,
    queue: seq<QueueEvent>,
    token: bool,
    markers: seq<Marker>,
    processor: Processor)
  {
    ghost predicate Ok() {
      && seen.Keys == version.Keys == flags.Keys
      && (forall k :: 0 <= k < |markers| ==> markers[k].id in version)
      && (forall k :: 0 <= k < |queue| && queue[k].CheckFor? ==> queue[k].id in version)
      && |queue| <= capacity
      && match processor
         case Idle => true
         case Checking(id) => id in version
         case Scanning(unread, found) => unread !! found && unread + found <= version.Keys
         case ScanChecking(id, unread, found) => id in version && unread !! found && unread + found <= version.Keys
         case Syncing(todo) => todo <= version.Keys
         case SyncChecking(id, todo) => id in version && todo <= version.Keys
    }
  }

  datatype Step =
    | Change(id: Id, flag: Flag)   // a handler updates the model
    | RequestSyncAll               // SyncAllSubscribers
    | Mark(k: nat)                 // markIdentityForCheck
    | Send(k: nat)                 // the event fits the queue
    | Refuse(k: nat)               // it does not
    | Notify(k: nat)               // the scan request is made, or one is pending already
    | Dequeue                      // an event's process: markIdentityCheckComplete
    | Check                        // checkForChanges
    | TakeToken                    // the scan starts
    | Read(id: Id)                 // the scan's snapshot of one key
    | Remove(id: Id)               // the scan removes the entry
    | EndScan
    | SyncOne(id: Id)              // a full sync clears the Updated flag of one identity, then checks it
    | EndSync

  predicate External(step: Step) {
    step.Change? || step.RequestSyncAll?
  }

  predicate ByHandler(step: Step) {
    step.Change? || step.RequestSyncAll? || step.Mark? || step.Send? || step.Refuse? || step.Notify?
  }

  predicate InCheck(p: Processor) {
    p.Checking? || p.ScanChecking? || p.SyncChecking?
  }

  ghost predicate Enabled(s: State, step: Step) {
    match step
    case Change(id, _) => id in s.version
    case RequestSyncAll => |s.queue| < s.capacity
    case Mark(k) => k < |s.markers| && s.markers[k].phase == Changed
    case Send(k) => k < |s.markers| && s.markers[k].phase == Marked && |s.queue| < s.capacity
    case Refuse(k) => k < |s.markers| && s.markers[k].phase == Marked && |s.queue| >= s.capacity
    case Notify(k) => k < |s.markers| && s.markers[k].phase == Refused
    case Dequeue => s.processor.Idle? && s.queue != []
    case Check => InCheck(s.processor)
    case TakeToken => s.processor.Idle? && s.token
    case Read(id) => s.processor.Scanning? && id in s.processor.unread
    case Remove(id) => s.processor.Scanning? && id in s.processor.found
    case EndScan => s.processor.Scanning? && s.processor.unread == {} && s.processor.found == {}
    case SyncOne(id) => s.processor.Syncing? && id in s.processor.todo
    case EndSync => s.processor.Syncing? && s.processor.todo == {}
  }

  ghost function Without<T>(xs: seq<T>, k: nat): (r: seq<T>)
    requires k < |xs|
    ensures |r| == |xs| - 1 && forall j :: 0 <= j < |r| ==> r[j] == if j < k then xs[j] else xs[j + 1]
  {
    xs[..k] + xs[k + 1..]
  }

  /** The flag is cleared, and only if it was set is the identity checked. */
  ghost function Completed(s: State, id: Id, flag: Flag): State
    requires s.Ok() && id in s.version
  {
    s.(flags := s.flags[id := s.flags[id] - {flag}],
       processor := if flag in s.flags[id] then Checking(id) else Idle)
  }

  ghost function Next(s: State, step: Step): State
    requires s.Ok() && Enabled(s, step)
  {
    match step
    case Change(id, flag) =>
      s.(version := s.version[id := s.version[id] + 1], markers := s.markers + [Marker(id, flag, Changed)])
    case RequestSyncAll => s.(queue := s.queue + [SyncAll])
    case Mark(k) =>
      var m := s.markers[k];
      s.(flags := s.flags[m.id := s.flags[m.id] + {m.flag}], markers := s.markers[k := m.(phase := Marked)])
    case Send(k) =>
      s.(queue := s.queue + [CheckFor(s.markers[k].id, s.markers[k].flag)], markers := Without(s.markers, k))
    case Refuse(k) => s.(markers := s.markers[k := s.markers[k].(phase := Refused)])
    case Notify(k) => s.(token := true, markers := Without(s.markers, k))
    case Dequeue =>
      var rest := s.(queue := s.queue[1..]);
      if s.queue[0].SyncAll? then rest.(processor := Syncing(s.version.Keys))
      else assert rest.Ok(); Completed(rest, s.queue[0].id, s.queue[0].flag)
    case Check =>
      s.(seen := s.seen[s.processor.id := s.version[s.processor.id]],
         processor := match s.processor
                      case ScanChecking(_, unread, found) => Scanning(unread, found)
                      case SyncChecking(_, todo) => Syncing(todo)
                      case _ => Idle)
    case TakeToken => s.(token := false, processor := Scanning(s.version.Keys, {}))
    case Read(id) =>
      s.(processor := Scanning(s.processor.unread - {id},
                               if s.flags[id] == {} then s.processor.found else s.processor.found + {id}))
    case Remove(id) =>
      s.(flags := s.flags[id := {}], processor := ScanChecking(id, s.processor.unread, s.processor.found - {id}))
    case EndScan => s.(processor := Idle)
    case SyncOne(id) =>
      s.(flags := s.flags[id := s.flags[id] - {Updated}], processor := SyncChecking(id, s.processor.todo - {id}))
    case EndSync => s.(processor := Idle)
  }

  // ---- the invariant -------------------------------------------------------------------------------------

  ghost predicate MarkerFor(s: State, id: Id, flag: Flag) {
    exists k :: 0 <= k < |s.markers| && s.markers[k].id == id && s.markers[k].flag == flag &&
                !s.markers[k].phase.Changed?
  }

  ghost predicate AboutToMark(s: State, id: Id) {
    exists k :: 0 <= k < |s.markers| && s.markers[k].id == id && s.markers[k].phase.Changed?
  }

  ghost predicate Queued(s: State, id: Id, flag: Flag) {
    exists k :: 0 <= k < |s.queue| && s.queue[k] == CheckFor(id, flag)
  }

  ghost predicate ScanHas(s: State, id: Id) {
    (s.processor.Scanning? || s.processor.ScanChecking?) && (id in s.processor.unread || id in s.processor.found)
  }

  /** A set flag has an event, a pending scan request, a handler about to send one, or a scan still to come to it. */
  ghost predicate Covered(s: State, id: Id, flag: Flag) {
    Queued(s, id, flag) || s.token || MarkerFor(s, id, flag) || ScanHas(s, id)
  }

  /** A change not yet seen has a handler about to set a flag, a set flag, or a check under way. */
  ghost predicate Pending(s: State, id: Id)
    requires s.Ok() && id in s.version
  {
    AboutToMark(s, id) || s.flags[id] != {} || (InCheck(s.processor) && s.processor.id == id)
  }

  ghost predicate PendingIfUnseen(s: State, id: Id)
    requires s.Ok() && id in s.version
  {
    s.seen[id] <= s.version[id] && (s.seen[id] < s.version[id] ==> Pending(s, id))
  }

  ghost predicate FlagsCovered(s: State)
    requires s.Ok()
  {
    forall id, flag :: id in s.flags && flag in s.flags[id] ==> Covered(s, id, flag)
  }

  ghost predicate ChangesPending(s: State)
    requires s.Ok()
  {
    forall id :: id in s.version ==> PendingIfUnseen(s, id)
  }

  ghost predicate Inv(s: State) {
    s.Ok() && FlagsCovered(s) && ChangesPending(s)
  }

  // ---- every step keeps it ---------------------------------------------------------------------------------

  lemma HandlersKeepOk(s: State, step: Step)
    requires s.Ok() && Enabled(s, step)
    requires ByHandler(step)
    ensures Next(s, step).Ok()
  {
  }

  lemma DequeueKeepsOk(s: State)
    requires s.Ok() && Enabled(s, Dequeue)
    ensures Next(s, Dequeue).Ok()
  {
  }

  lemma ScansKeepOk(s: State, step: Step)
    requires s.Ok() && Enabled(s, step)
    requires step.Check? || step.TakeToken? || step.Read? || step.Remove? || step.EndScan? || step.SyncOne? ||
             step.EndSync?
    ensures Next(s, step).Ok()
  {
  }

  lemma OkKept(s: State, step: Step)
    requires s.Ok() && Enabled(s, step)
    ensures Next(s, step).Ok()
  {
    if ByHandler(step) {
      HandlersKeepOk(s, step);
    } else if step.Dequeue? {
      DequeueKeepsOk(s);
    } else {
      ScansKeepOk(s, step);
    }
  }

  lemma WithoutKeeps<T>(xs: seq<T>, k: nat, j: nat) returns (i: nat)
    requires k < |xs| && j < |xs| && j != k
    ensures i < |Without(xs, k)| && Without(xs, k)[i] == xs[j]
  {
    i := if j < k then j else j - 1;
  }

  /** A handler that leaves does not take another one's place. */
  lemma LeavingKeepsMarker(s: State, k: nat, id: Id, flag: Flag)
    requires k < |s.markers| && MarkerFor(s, id, flag)
    ensures MarkerFor(s.(markers := Without(s.markers, k)), id, flag) ||
            (s.markers[k].id == id && s.markers[k].flag == flag)
  {
    var j :| 0 <= j < |s.markers| && s.markers[j].id == id && s.markers[j].flag == flag && !s.markers[j].phase.Changed?;
    if j != k {
      var i := WithoutKeeps(s.markers, k, j);
    }
  }

  lemma LeavingKeepsAbout(s: State, k: nat, id: Id)
    requires k < |s.markers| && !s.markers[k].phase.Changed? && AboutToMark(s, id)
    ensures AboutToMark(s.(markers := Without(s.markers, k)), id)
  {
    var j :| 0 <= j < |s.markers| && s.markers[j].id == id && s.markers[j].phase.Changed?;
    var i := WithoutKeeps(s.markers, k, j);
  }

  lemma QueueGrows(s: State, e: QueueEvent, id: Id, flag: Flag)
    ensures Queued(s, id, flag) ==> Queued(s.(queue := s.queue + [e]), id, flag)
    ensures e == CheckFor(id, flag) ==> Queued(s.(queue := s.queue + [e]), id, flag)
  {
    var t := s.(queue := s.queue + [e]);
    assert t.queue[|s.queue|] == e;
    if Queued(s, id, flag) {
      var k :| 0 <= k < |s.queue| && s.queue[k] == CheckFor(id, flag);
      assert t.queue[k] == CheckFor(id, flag);
    }
  }

  lemma QueueShrinks(s: State, id: Id, flag: Flag)
    requires s.queue != [] && Queued(s, id, flag) && s.queue[0] != CheckFor(id, flag)
    ensures Queued(s.(queue := s.queue[1..]), id, flag)
  {
    var k :| 0 <= k < |s.queue| && s.queue[k] == CheckFor(id, flag);
    assert s.queue[1..][k - 1] == CheckFor(id, flag);
  }

  lemma MarkerMoves(s: State, k: nat, m: Marker, id: Id, flag: Flag)
    requires k < |s.markers| && m.id == s.markers[k].id && m.flag == s.markers[k].flag && !m.phase.Changed?
    ensures MarkerFor(s, id, flag) ==> MarkerFor(s.(markers := s.markers[k := m]), id, flag)
    ensures m.id == id && m.flag == flag ==> MarkerFor(s.(markers := s.markers[k := m]), id, flag)
    ensures AboutToMark(s, id) && (!s.markers[k].phase.Changed? || m.id != id) ==>
            AboutToMark(s.(markers := s.markers[k := m]), id)
  {
    var t := s.(markers := s.markers[k := m]);
    assert t.markers[k] == m;
    if MarkerFor(s, id, flag) {
      var j :| 0 <= j < |s.markers| && s.markers[j].id == id && s.markers[j].flag == flag &&
               !s.markers[j].phase.Changed?;
      assert t.markers[j].id == id;
    }
    if AboutToMark(s, id) && (!s.markers[k].phase.Changed? || m.id != id) {
      var j :| 0 <= j < |s.markers| && s.markers[j].id == id && s.markers[j].phase.Changed?;
      assert t.markers[j] == s.markers[j];
    }
  }

  lemma MarkerArrives(s: State, m: Marker, id: Id, flag: Flag)
    requires m.phase.Changed?
    ensures MarkerFor(s, id, flag) ==> MarkerFor(s.(markers := s.markers + [m]), id, flag)
    ensures AboutToMark(s, id) || m.id == id ==> AboutToMark(s.(markers := s.markers + [m]), id)
  {
    var t := s.(markers := s.markers + [m]);
    assert t.markers[|s.markers|] == m;
    if MarkerFor(s, id, flag) {
      var j :| 0 <= j < |s.markers| && s.markers[j].id == id && s.markers[j].flag == flag &&
               !s.markers[j].phase.Changed?;
      assert t.markers[j] == s.markers[j];
    }
    if AboutToMark(s, id) {
      var j :| 0 <= j < |s.markers| && s.markers[j].id == id && s.markers[j].phase.Changed?;
      assert t.markers[j] == s.markers[j];
    }
  }

  lemma FlagKept(s: State, step: Step, id: Id, flag: Flag)
    requires Inv(s) && Enabled(s, step) && id in s.flags && flag in Next(s, step).flags[id]
    ensures Covered(Next(s, step), id, flag)
  {
    var t := Next(s, step);
    match step {
      case Change(i, f) => MarkerArrives(s, Marker(i, f, Changed), id, flag);
      case RequestSyncAll => QueueGrows(s, SyncAll, id, flag);
      case Mark(k) => MarkerMoves(s, k, s.markers[k].(phase := Marked), id, flag);
      case Send(k) =>
        QueueGrows(s, CheckFor(s.markers[k].id, s.markers[k].flag), id, flag);
        if MarkerFor(s, id, flag) { LeavingKeepsMarker(s, k, id, flag); }
      case Refuse(k) => MarkerMoves(s, k, s.markers[k].(phase := Refused), id, flag);
      case Dequeue =>
        assert Covered(s, id, flag);
        if Queued(s, id, flag) && s.queue[0] != CheckFor(id, flag) { QueueShrinks(s, id, flag); }
      case _ =>
    }
  }

  lemma HandlersKeepPending(s: State, step: Step, id: Id)
    requires s.Ok() && Enabled(s, step) && id in s.version && PendingIfUnseen(s, id) && ByHandler(step)
    requires Next(s, step).Ok()
    ensures PendingIfUnseen(Next(s, step), id)
  {
    match step {
      case Change(i, f) => MarkerArrives(s, Marker(i, f, Changed), id, f);
      case RequestSyncAll =>
      case Mark(k) => MarkerMoves(s, k, s.markers[k].(phase := Marked), id, s.markers[k].flag);
      case Send(k) => if AboutToMark(s, id) { LeavingKeepsAbout(s, k, id); }
      case Refuse(k) => MarkerMoves(s, k, s.markers[k].(phase := Refused), id, s.markers[k].flag);
      case Notify(k) => if AboutToMark(s, id) { LeavingKeepsAbout(s, k, id); }
    }
  }

  lemma ChangeKept(s: State, step: Step, id: Id)
    requires s.Ok() && Enabled(s, step) && id in s.version && PendingIfUnseen(s, id) && Next(s, step).Ok()
    ensures PendingIfUnseen(Next(s, step), id)
  {
    if ByHandler(step) {
      HandlersKeepPending(s, step, id);
    }
  }

  lemma StepKeepsInv(s: State, step: Step)
    requires Inv(s) && Enabled(s, step)
    ensures Inv(Next(s, step))
  {
    var t := Next(s, step);
    OkKept(s, step);
    forall id, flag | id in t.flags && flag in t.flags[id] ensures Covered(t, id, flag) {
      FlagKept(s, step, id, flag);
    }
    forall id | id in t.version ensures PendingIfUnseen(t, id) {
      ChangeKept(s, step, id);
    }
  }

  // ---- whole runs --------------------------------------------------------------------------------------------

  ghost predicate Run(s: State, steps: seq<Step>, t: State)
    requires s.Ok()
    decreases |steps|
  {
    if steps == [] then t == s
    else Enabled(s, steps[0]) && (OkKept(s, steps[0]); Run(Next(s, steps[0]), steps[1..], t))
  }

  /** Somewhere in the run identity id is checked, and so sees the version of that moment. */
  ghost predicate CheckedIn(s: State, steps: seq<Step>, t: State, id: Id)
    requires s.Ok() && Run(s, steps, t)
    decreases |steps|
  {
    steps != [] &&
    ((steps[0].Check? && s.processor.id == id && Next(s, Check).seen[id] == s.version[id]) ||
     (OkKept(s, steps[0]); CheckedIn(Next(s, steps[0]), steps[1..], t, id)))
  }

  /** A full sync still has to check the identity. */
  ghost predicate StillToSync(p: Processor, id: Id) {
    (p.Syncing? && id in p.todo) || (p.SyncChecking? && (p.id == id || id in p.todo))
  }

  lemma SyncStep(s: State, step: Step, id: Id)
    requires s.Ok() && Enabled(s, step) && StillToSync(s.processor, id)
    ensures StillToSync(Next(s, step).processor, id) || (step.Check? && s.processor.id == id)
  {
  }

  lemma {:induction false} SyncGetsThere(s: State, steps: seq<Step>, t: State, id: Id)
    requires s.Ok() && Run(s, steps, t) && StillToSync(s.processor, id) && Enabled(t, EndSync)
    ensures CheckedIn(s, steps, t, id)
    decreases |steps|
  {
    if steps != [] {
      OkKept(s, steps[0]);
      SyncStep(s, steps[0], id);
      if !(steps[0].Check? && s.processor.id == id) {
        SyncGetsThere(Next(s, steps[0]), steps[1..], t, id);
      } else {
        assert Next(s, Check).seen[id] == s.version[id];
      }
    }
  }

  /** Between the dequeue of a full sync and its end every identity is checked, whatever interleaves. */
  lemma FullSyncChecksAll(s: State, steps: seq<Step>, t: State, id: Id)
    requires s.Ok() && Enabled(s, Dequeue) && s.queue[0].SyncAll? && Next(s, Dequeue).Ok()
    requires Run(Next(s, Dequeue), steps, t) && Enabled(t, EndSync) && id in s.version
    ensures CheckedIn(Next(s, Dequeue), steps, t, id)
  {
    SyncGetsThere(Next(s, Dequeue), steps, t, id);
  }

  /** Nothing has changed since the subscriptions were set up, and nothing is under way. */
  ghost predicate Init(s: State) {
    && s.Ok() && s.seen == s.version && (forall id :: id in s.flags ==> s.flags[id] == {})
    && s.queue == [] && !s.token && s.markers == [] && s.processor.Idle?
  }

  lemma {:induction false} RunKeepsInv(s: State, steps: seq<Step>, t: State)
    requires Inv(s) && Run(s, steps, t)
    ensures Inv(t)
    decreases |steps|
  {
    if steps != [] {
      StepKeepsInv(s, steps[0]);
      RunKeepsInv(Next(s, steps[0]), steps[1..], t);
    }
  }

  /** No handler, event, scan request or check is under way. */
  ghost predicate Quiet(s: State) {
    s.markers == [] && s.queue == [] && !s.token && s.processor.Idle?
  }

  /** No lost sync check: in every reachable state that is quiet, every change has been seen by a check. */
  lemma NoLostCheck(s: State, steps: seq<Step>, t: State)
    requires Init(s) && Run(s, steps, t)
    ensures Inv(t)
    ensures Quiet(t) ==> t.seen == t.version
  {
    RunKeepsInv(s, steps, t);
    if Quiet(t) {
      NoneUnseen(t);
    }
  }

  // ---- and the processor gets there ----------------------------------------------------------------------------

  /** Once the handlers stop, some step is possible until all is quiet. */
  lemma StepUntilQuiet(s: State) returns (step: Step)
    requires s.Ok() && !Quiet(s) && s.capacity > 0
    ensures Enabled(s, step) && !External(step)
  {
    if s.markers != [] {
      match s.markers[0].phase {
        case Changed => step := Mark(0);
        case Marked => step := if |s.queue| < s.capacity then Send(0) else Refuse(0);
        case Refused => step := Notify(0);
      }
    } else {
      match s.processor {
        case Idle => step := if s.queue != [] then Dequeue else TakeToken;
        case Checking(_) => step := Check;
        case ScanChecking(_, _, _) => step := Check;
        case Scanning(unread, found) =>
          step := if unread != {} then Read(Any(unread)) else if found != {} then Remove(Any(found)) else EndScan;
        case SyncChecking(_, _) => step := Check;
        case Syncing(todo) => step := if todo != {} then SyncOne(Any(todo)) else EndSync;
      }
    }
  }

  function ScanCost(n: nat): nat {
    3 * n + 1
  }

  function MarkerCost(m: Marker, n: nat): nat {
    match m.phase
    case Changed => ScanCost(n) + 2 * n + 7
    case Marked => ScanCost(n) + 2 * n + 6
    case Refused => ScanCost(n) + 2
  }

  function MarkersCost(ms: seq<Marker>, n: nat): nat {
    if ms == [] then 0 else MarkerCost(ms[0], n) + MarkersCost(ms[1..], n)
  }

  function ProcessorCost(p: Processor): nat {
    match p
    case Idle => 0
    case Checking(_) => 1
    case Scanning(unread, found) => 3 * |unread| + 2 * |found| + 1
    case ScanChecking(_, unread, found) => 3 * |unread| + 2 * |found| + 2
    case Syncing(todo) => 2 * |todo| + 1
    case SyncChecking(_, todo) => 2 * |todo| + 2
  }

  function EventsCost(events: nat, n: nat): nat {
    if events == 0 then 0 else 2 * n + 3 + EventsCost(events - 1, n)
  }

  /** An upper bound on the steps still to take: an event costs a check of at most every identity. */
  function Cost(s: State): nat {
    var n := |s.version|;
    MarkersCost(s.markers, n) + EventsCost(|s.queue|, n) + (if s.token then ScanCost(n) + 1 else 0) +
    ProcessorCost(s.processor)
  }

  lemma {:induction false} MarkerReplaced(ms: seq<Marker>, k: nat, m: Marker, n: nat)
    requires k < |ms|
    ensures MarkersCost(ms[k := m], n) + MarkerCost(ms[k], n) == MarkersCost(ms, n) + MarkerCost(m, n)
    decreases |ms|
  {
    if k == 0 {
      assert ms[k := m][1..] == ms[1..];
    } else {
      assert ms[k := m][1..] == ms[1..][k - 1 := m];
      MarkerReplaced(ms[1..], k - 1, m, n);
    }
  }

  lemma {:induction false} MarkerGone(ms: seq<Marker>, k: nat, n: nat)
    requires k < |ms|
    ensures MarkersCost(Without(ms, k), n) + MarkerCost(ms[k], n) == MarkersCost(ms, n)
    decreases |ms|
  {
    if k == 0 {
      assert Without(ms, 0) == ms[1..];
    } else {
      assert Without(ms, k)[1..] == Without(ms[1..], k - 1);
      MarkerGone(ms[1..], k - 1, n);
    }
  }

  lemma HandlerCost(s: State, step: Step)
    requires s.Ok() && Enabled(s, step) && (step.Mark? || step.Send? || step.Refuse? || step.Notify?)
    ensures Cost(Next(s, step)) < Cost(s)
  {
    var n := |s.version|;
    match step {
      case Mark(k) => MarkerReplaced(s.markers, k, s.markers[k].(phase := Marked), n);
      case Send(k) => MarkerGone(s.markers, k, n);
      case Refuse(k) => MarkerReplaced(s.markers, k, s.markers[k].(phase := Refused), n);
      case Notify(k) => MarkerGone(s.markers, k, n);
    }
  }

  /** The steps that take an identity off a set. */
  lemma OneLess<T>(todo: set<T>, x: T)
    requires x in todo
    ensures |todo - {x}| == |todo| - 1
  {
  }

  lemma OneMoreAtMost<T>(found: set<T>, x: T)
    ensures |found + {x}| <= |found| + 1
  {
    assert x in found ==> found + {x} == found;
  }

  lemma ReadCost(s: State, id: Id)
    requires s.Ok() && Enabled(s, Read(id))
    ensures ProcessorCost(Next(s, Read(id)).processor) < ProcessorCost(s.processor)
  {
    OneLess(s.processor.unread, id);
    OneMoreAtMost(s.processor.found, id);
  }

  lemma RemoveCost(s: State, id: Id)
    requires s.Ok() && Enabled(s, Remove(id))
    ensures ProcessorCost(Next(s, Remove(id)).processor) < ProcessorCost(s.processor)
  {
    OneLess(s.processor.found, id);
  }

  lemma SyncOneCost(s: State, id: Id)
    requires s.Ok() && Enabled(s, SyncOne(id))
    ensures ProcessorCost(Next(s, SyncOne(id)).processor) < ProcessorCost(s.processor)
  {
    OneLess(s.processor.todo, id);
  }

  lemma SetCost(s: State, step: Step)
    requires s.Ok() && Enabled(s, step) && (step.Read? || step.Remove? || step.SyncOne?)
    ensures Cost(Next(s, step)) < Cost(s)
  {
    match step {
      case Read(id) => ReadCost(s, id);
      case Remove(id) => RemoveCost(s, id);
      case SyncOne(id) => SyncOneCost(s, id);
    }
  }

  lemma CostDecreases(s: State, step: Step)
    requires s.Ok() && Enabled(s, step) && !External(step)
    ensures Cost(Next(s, step)) < Cost(s)
  {
    if step.Mark? || step.Send? || step.Refuse? || step.Notify? {
      HandlerCost(s, step);
    } else if step.Read? || step.Remove? || step.SyncOne? {
      SetCost(s, step);
    }
  }

  /**
   From any reachable state, a run without further changes takes at most Cost steps, and if it cannot be continued
   every change has been seen.
   */
  lemma {:induction false} ChecksCatchUp(s: State, steps: seq<Step>, t: State)
    requires Inv(s) && s.capacity > 0 && Run(s, steps, t) && forall k :: 0 <= k < |steps| ==> !External(steps[k])
    ensures |steps| <= Cost(s)
    ensures (forall step :: External(step) || !Enabled(t, step)) ==> t.seen == t.version
    decreases |steps|
  {
    if steps != [] {
      StepKeepsInv(s, steps[0]);
      CostDecreases(s, steps[0]);
      assert forall k :: 0 <= k < |steps[1..]| ==> steps[1..][k] == steps[k + 1];
      ChecksCatchUp(Next(s, steps[0]), steps[1..], t);
    } else if forall step :: External(step) || !Enabled(t, step) {
      if !Quiet(t) {
        var step := StepUntilQuiet(t);
      }
      NoneUnseen(t);
    }
  }

  lemma NoneUnseen(t: State)
    requires Inv(t) && Quiet(t)
    ensures t.seen == t.version
  {
    forall id | id in t.version ensures t.seen[id] == t.version[id] {
      forall flag ensures flag !in t.flags[id] {
        QuietCoversNothing(t, id, flag);
      }
      assert t.flags[id] == {};
    }
  }

  lemma QuietCoversNothing(t: State, id: Id, flag: Flag)
    requires Quiet(t)
    ensures !Covered(t, id, flag)
  {
  }
}
