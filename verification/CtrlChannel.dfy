/**
 The multi-underlay control channel (common/ctrlchan/channel.go): three queues, underlays that pull from them, and a
 flag with a one-slot wakeup by which the default underlay learns that it must carry high-priority traffic too.

 Messages are numbered per queue in the order they are sent. The steps of all parties interleave freely.
 */
module CtrlChannels {
  import opened Types

  datatype Kind = Default | High | Low

  datatype Msg = Msg(kind: Kind, n: nat)

  /**
   An underlay's sender: calling its message source, blocked in the first select of GetNextMsgDefault (entered with the
   flag set) or in the second, or holding a message it is to transmit. Only default underlays use the middle two.
   */
  datatype Phase = Calling | First | Second | Holding(msg: Msg)

  datatype Underlay = Underlay(kind: Kind, phase: Phase)

  /** The messages from head up to next wait. */
  datatype Queue = Queue(head: nat, next: nat)

  /** single says whether the channel keeps at most one default underlay; wire is what left, and on which kind. */
  datatype State = State(
    single: bool,
    underlays: map<Id, Underlay>,
    default: Queue, high: Queue, low: Queue,
    hasHigh: bool,
    token: bool,
    notifying: nat,
    wire: seq<(Kind, Msg)>)

  datatype Step =
    | Send(kind: Kind)
    | Connect(id: Id, kind: Kind)
    | Load(id: Id)               // the default source reads the flag
    | Pull(id: Id, from: Kind)
    | Wake(id: Id)               // the first select receives the wakeup
    | Transmit(id: Id)
    | Fail(id: Id)               // the transmission fails: HandleTxFailed drops the message, the underlay goes
    | Lose(id: Id)               // the underlay closes while it waits
    | Track(has: bool)           // trackHighPriority up to its swap
    | Notify                     // and its send, dropped if a wakeup is pending

  function QueueOf(s: State, kind: Kind): Queue {
    match kind
    case Default => s.default
    case High => s.high
    case Low => s.low
  }

  function WithQueue(s: State, kind: Kind, q: Queue): State {
    match kind
    case Default => s.(default := q)
    case High => s.(high := q)
    case Low => s.(low := q)
  }

  ghost predicate IsDefault(s: State, id: Id) {
    id in s.underlays && s.underlays[id].kind == Default
  }

  /** What an underlay may take, by its kind and by the select it is in. */
  predicate Serves(u: Underlay, from: Kind) {
    match u.kind
    case Default => (u.phase.First? && from != High) || u.phase.Second?
    case High => u.phase.Calling? && from == High
    case Low => u.phase.Calling? && from == Low
  }

  ghost predicate Enabled(s: State, step: Step) {
    match step
    case Send(_) => true
    case Connect(id, kind) => id !in s.underlays && (kind == Default && s.single ==> forall i :: !IsDefault(s, i))
    case Load(id) => IsDefault(s, id) && s.underlays[id].phase.Calling?
    case Pull(id, from) => id in s.underlays && Serves(s.underlays[id], from) &&
                           QueueOf(s, from).head < QueueOf(s, from).next
    case Wake(id) => IsDefault(s, id) && s.underlays[id].phase.First? && s.token
    case Transmit(id) => id in s.underlays && s.underlays[id].phase.Holding?
    case Fail(id) => id in s.underlays && s.underlays[id].phase.Holding?
    case Lose(id) => id in s.underlays && !s.underlays[id].phase.Holding?
    case Track(_) => true
    case Notify => s.notifying > 0
  }

  ghost function Moved(s: State, id: Id, phase: Phase): State
    requires id in s.underlays
  {
    s.(underlays := s.underlays[id := s.underlays[id].(phase := phase)])
  }

  ghost function Next(s: State, step: Step): State
    requires Enabled(s, step)
  {
    match step
    case Send(kind) => var q := QueueOf(s, kind); WithQueue(s, kind, q.(next := q.next + 1))
    case Connect(id, kind) => s.(underlays := s.underlays[id := Underlay(kind, Calling)])
    case Load(id) => Moved(s, id, if s.hasHigh then First else Second)
    case Pull(id, from) =>
      var q := QueueOf(s, from);
      WithQueue(Moved(s, id, Holding(Msg(from, q.head))), from, q.(head := q.head + 1))
    case Wake(id) => Moved(s.(token := false), id, Calling)
    case Transmit(id) => Moved(s.(wire := s.wire + [(s.underlays[id].kind, s.underlays[id].phase.msg)]), id, Calling)
    case Fail(id) => s.(underlays := s.underlays - {id})
    case Lose(id) => s.(underlays := s.underlays - {id})
    case Track(has) => s.(hasHigh := has, notifying := if s.hasHigh && !has then s.notifying + 1 else s.notifying)
    case Notify => s.(token := true, notifying := s.notifying - 1)
  }

  ghost predicate Run(s: State, steps: seq<Step>, t: State)
    decreases |steps|
  {
    if steps == [] then t == s else Enabled(s, steps[0]) && Run(Next(s, steps[0]), steps[1..], t)
  }

  ghost predicate Reaches(s: State, t: State) {
    exists steps :: Run(s, steps, t)
  }

  ghost predicate Init(s: State) {
    s == State(s.single, map[], Queue(0, 0), Queue(0, 0), Queue(0, 0), false, false, 0, [])
  }

  // ---- the order of default traffic --------------------------------------------------------------------------

  /** The default messages transmitted, by their number in the order of sending. */
  function DefaultSent(wire: seq<(Kind, Msg)>): seq<nat> {
    if wire == [] then []
    else
      var last := wire[|wire| - 1].1;
      DefaultSent(wire[..|wire| - 1]) + if last.kind == Default then [last.n] else []
  }

  ghost predicate Ascending(ns: seq<nat>) {
    forall j, k :: 0 <= j < k < |ns| ==> ns[j] < ns[k]
  }

  ghost predicate Below(ns: seq<nat>, n: int) {
    forall k :: 0 <= k < |ns| ==> ns[k] < n
  }

  ghost predicate HoldsDefault(s: State, id: Id) {
    id in s.underlays && s.underlays[id].phase.Holding? && s.underlays[id].phase.msg.kind == Default
  }

  /** Default messages are held by default underlays and leave on them. */
  ghost predicate OnDefault(s: State) {
    && (forall id :: HoldsDefault(s, id) ==> s.underlays[id].kind == Default)
    && (forall k :: 0 <= k < |s.wire| ==> s.wire[k].1.kind == Default ==> s.wire[k].0 == Default)
  }

  /** What has left is in order and below what is held, which is below what waits. */
  ghost predicate InOrder(s: State) {
    && Ascending(DefaultSent(s.wire)) && Below(DefaultSent(s.wire), s.default.head)
    && (forall id :: HoldsDefault(s, id) ==>
          s.underlays[id].phase.msg.n < s.default.head && Below(DefaultSent(s.wire), s.underlays[id].phase.msg.n))
  }

  ghost predicate OneDefault(s: State) {
    forall i, j :: IsDefault(s, i) && IsDefault(s, j) ==> i == j
  }

  lemma OnDefaultKept(s: State, step: Step)
    requires OnDefault(s) && Enabled(s, step)
    ensures OnDefault(Next(s, step))
  {
    if !step.Transmit? && !step.Pull? {
      StaysApart(s, step);
    }
  }

  lemma OneDefaultKept(s: State, step: Step)
    requires s.single && OneDefault(s) && Enabled(s, step)
    ensures OneDefault(Next(s, step))
  {
    var t := Next(s, step);
    assert forall id :: IsDefault(t, id) && !IsDefault(s, id) ==> step == Connect(id, Default);
  }

  lemma SentGrows(wire: seq<(Kind, Msg)>, entry: (Kind, Msg))
    ensures DefaultSent(wire + [entry]) == DefaultSent(wire) + if entry.1.kind == Default then [entry.1.n] else []
  {
    assert (wire + [entry])[..|wire|] == wire;
  }

  /** A transmission ends the hold of its underlay and of no other. */
  lemma HeldAfterTransmit(s: State, id: Id)
    requires Enabled(s, Transmit(id))
    ensures
      var t := Next(s, Transmit(id));
      && t.wire == s.wire + [(s.underlays[id].kind, s.underlays[id].phase.msg)] && t.default == s.default
      && forall i :: HoldsDefault(t, i) ==> i != id && HoldsDefault(s, i) && t.underlays[i] == s.underlays[i]
  {
  }

  lemma TransmitDefaultKeepsOrder(s: State, id: Id)
    requires OneDefault(s) && OnDefault(s) && InOrder(s) && Enabled(s, Transmit(id)) && HoldsDefault(s, id)
    ensures InOrder(Next(s, Transmit(id)))
  {
    var t := Next(s, Transmit(id));
    HeldAfterTransmit(s, id);
    SentGrows(s.wire, (s.underlays[id].kind, s.underlays[id].phase.msg));
    forall i ensures !HoldsDefault(t, i) {
      assert HoldsDefault(s, i) ==> IsDefault(s, i) && IsDefault(s, id);
    }
  }

  lemma TransmitKeepsOrder(s: State, id: Id)
    requires OneDefault(s) && OnDefault(s) && InOrder(s) && Enabled(s, Transmit(id))
    ensures InOrder(Next(s, Transmit(id)))
  {
    if HoldsDefault(s, id) {
      TransmitDefaultKeepsOrder(s, id);
    } else {
      var t := Next(s, Transmit(id));
      HeldAfterTransmit(s, id);
      SentGrows(s.wire, (s.underlays[id].kind, s.underlays[id].phase.msg));
      assert DefaultSent(t.wire) == DefaultSent(s.wire);
    }
  }

  lemma PullKeepsOrder(s: State, id: Id, from: Kind)
    requires InOrder(s) && Enabled(s, Pull(id, from))
    ensures InOrder(Next(s, Pull(id, from)))
  {
  }

  /** The other steps leave the wire, the head of the queue and the messages held alone. */
  ghost predicate Apart(s: State, t: State) {
    && t.wire == s.wire && t.default.head == s.default.head
    && forall id :: HoldsDefault(t, id) ==> HoldsDefault(s, id) && t.underlays[id] == s.underlays[id]
  }

  lemma StaysApart(s: State, step: Step)
    requires Enabled(s, step) && !step.Transmit? && !step.Pull?
    ensures Apart(s, Next(s, step))
  {
  }

  lemma ApartKeepsOrder(s: State, t: State)
    requires InOrder(s) && Apart(s, t)
    ensures InOrder(t)
  {
  }

  lemma InOrderKept(s: State, step: Step)
    requires OneDefault(s) && OnDefault(s) && InOrder(s) && Enabled(s, step)
    ensures InOrder(Next(s, step))
  {
    if step.Transmit? {
      TransmitKeepsOrder(s, step.id);
    } else if step.Pull? {
      PullKeepsOrder(s, step.id, step.from);
    } else {
      StaysApart(s, step);
      ApartKeepsOrder(s, Next(s, step));
    }
  }

  lemma {:induction false} RunKeepsOrder(s: State, steps: seq<Step>, t: State)
    requires OnDefault(s) && Run(s, steps, t)
    ensures OnDefault(t)
    ensures s.single && OneDefault(s) && InOrder(s) ==> InOrder(t)
    decreases |steps|
  {
    if steps != [] {
      OnDefaultKept(s, steps[0]);
      if s.single && OneDefault(s) && InOrder(s) {
        OneDefaultKept(s, steps[0]);
        InOrderKept(s, steps[0]);
      }
      RunKeepsOrder(Next(s, steps[0]), steps[1..], t);
    }
  }

  /**
   For every interleaving of sends, connects, losses and failed transmissions: no default message ever leaves on a
   high- or low-priority underlay, and with at most one default underlay alive those that leave do so in the order they
   were sent, each at most once.
   */
  lemma DefaultTrafficOrder(s: State, steps: seq<Step>, t: State)
    requires Init(s) && Run(s, steps, t)
    ensures forall k :: 0 <= k < |t.wire| && t.wire[k].1.kind == Default ==> t.wire[k].0 == Default
    ensures s.single ==> Ascending(DefaultSent(t.wire)) && Below(DefaultSent(t.wire), t.default.next)
  {
    assert OnDefault(s) && OneDefault(s) && InOrder(s);
    RunKeepsOrder(s, steps, t);
    HeadBelowNext(s, steps, t);
  }

  lemma {:induction false} HeadBelowNext(s: State, steps: seq<Step>, t: State)
    requires s.default.head <= s.default.next && Run(s, steps, t)
    ensures t.default.head <= t.default.next
    decreases |steps|
  {
    if steps != [] {
      HeadBelowNext(Next(s, steps[0]), steps[1..], t);
    }
  }

  // ---- the wakeup -----------------------------------------------------------------------------------------------

  /** A default underlay waits without high-priority traffic, and nothing will wake it. */
  ghost predicate Stranded(s: State, id: Id) {
    IsDefault(s, id) && s.underlays[id].phase.First? && !s.hasHigh && !s.token && s.notifying == 0
  }

  ghost predicate NoneStranded(s: State) {
    forall id :: !Stranded(s, id)
  }

  lemma NoneStrandedKept(s: State, step: Step)
    requires OneDefault(s) && NoneStranded(s) && Enabled(s, step)
    ensures NoneStranded(Next(s, step))
  {
    var t := Next(s, step);
    forall id ensures !Stranded(t, id) {
      assert !Stranded(s, id);
      if step.Wake? {
        assert IsDefault(s, id) ==> id == step.id;
      }
    }
  }

  lemma {:induction false} RunStrandsNone(s: State, steps: seq<Step>, t: State)
    requires s.single && OneDefault(s) && NoneStranded(s) && Run(s, steps, t)
    ensures NoneStranded(t)
    decreases |steps|
  {
    if steps != [] {
      OneDefaultKept(s, steps[0]);
      NoneStrandedKept(s, steps[0]);
      RunStrandsNone(Next(s, steps[0]), steps[1..], t);
    }
  }

  /** No lost wakeup, even when calls of trackHighPriority overlap. */
  lemma NoLostWakeup(s: State, steps: seq<Step>, t: State)
    requires Init(s) && s.single && Run(s, steps, t)
    ensures forall id :: !Stranded(t, id)
  {
    RunStrandsNone(s, steps, t);
  }

  // ---- every kind of traffic -------------------------------------------------------------------------------------

  /** A default underlay carries every kind, a high- or low-priority one its own. */
  predicate MayCarry(underlay: Kind, msg: Kind) {
    underlay == Default || underlay == msg
  }

  ghost predicate OnItsOwn(s: State) {
    && (forall id :: id in s.underlays && s.underlays[id].phase.Holding? ==>
          MayCarry(s.underlays[id].kind, s.underlays[id].phase.msg.kind))
    && (forall id :: id in s.underlays && s.underlays[id].kind != Default ==>
          s.underlays[id].phase.Calling? || s.underlays[id].phase.Holding?)
    && (forall k :: 0 <= k < |s.wire| ==> MayCarry(s.wire[k].0, s.wire[k].1.kind))
  }

  lemma HeldKept(s: State, step: Step, id: Id)
    requires OnItsOwn(s) && Enabled(s, step) && id in Next(s, step).underlays
    ensures
      var u := Next(s, step).underlays[id];
      && (u.phase.Holding? ==> MayCarry(u.kind, u.phase.msg.kind))
      && (u.kind != Default ==> u.phase.Calling? || u.phase.Holding?)
  {
  }

  lemma OwnKept(s: State, step: Step)
    requires OnItsOwn(s) && Enabled(s, step)
    ensures OnItsOwn(Next(s, step))
  {
    var t := Next(s, step);
    forall id | id in t.underlays {
      HeldKept(s, step, id);
    }
    forall k | 0 <= k < |t.wire| ensures MayCarry(t.wire[k].0, t.wire[k].1.kind) {
      if k < |s.wire| {
        assert t.wire[k] == s.wire[k];
      }
    }
  }

  lemma {:induction false} RunKeepsOwn(s: State, steps: seq<Step>, t: State)
    requires OnItsOwn(s) && Run(s, steps, t)
    ensures OnItsOwn(t)
    decreases |steps|
  {
    if steps != [] {
      OwnKept(s, steps[0]);
      RunKeepsOwn(Next(s, steps[0]), steps[1..], t);
    }
  }

  /** Whether the flag was set when underlay id last loaded it in the run, if it did since last was the answer. */
  ghost function LastLoad(s: State, steps: seq<Step>, t: State, id: Id, last: Option<bool>): Option<bool>
    requires Run(s, steps, t)
    decreases |steps|
  {
    if steps == [] then last
    else LastLoad(Next(s, steps[0]), steps[1..], t, id, if steps[0] == Load(id) then Some(s.hasHigh) else last)
  }

  /** The phase of a default underlay tells what it last loaded. */
  ghost predicate LoadedAs(s: State, id: Id, last: Option<bool>) {
    IsDefault(s, id) ==>
      match s.underlays[id].phase
      case Calling => true
      case First => last == Some(true)
      case Second => last == Some(false)
      case Holding(msg) => msg.kind == High ==> last == Some(false)
  }

  lemma LoadedStep(s: State, step: Step, id: Id, last: Option<bool>)
    requires LoadedAs(s, id, last) && Enabled(s, step)
    ensures LoadedAs(Next(s, step), id, if step == Load(id) then Some(s.hasHigh) else last)
  {
  }

  lemma {:induction false} LoadedAfter(s: State, steps: seq<Step>, t: State, id: Id, last: Option<bool>)
    requires LoadedAs(s, id, last) && Run(s, steps, t)
    ensures LoadedAs(t, id, LastLoad(s, steps, t, id, last))
    decreases |steps|
  {
    if steps != [] {
      LoadedStep(s, steps[0], id, last);
      LoadedAfter(Next(s, steps[0]), steps[1..], t, id, if steps[0] == Load(id) then Some(s.hasHigh) else last);
    }
  }

  /**
   In every run: low-priority messages leave on default or low-priority underlays alone, high-priority ones on default
   or high-priority underlays alone, and on a default underlay only if the flag was not set when that underlay last
   loaded it.
   */
  lemma TrafficKept(s: State, steps: seq<Step>, t: State)
    requires Init(s) && Run(s, steps, t)
    ensures forall k :: 0 <= k < |t.wire| ==>
              && (t.wire[k].1.kind == Low ==> t.wire[k].0 == Default || t.wire[k].0 == Low)
              && (t.wire[k].1.kind == High ==> t.wire[k].0 == Default || t.wire[k].0 == High)
              && (t.wire[k].1.kind == Default ==> t.wire[k].0 == Default)
    ensures forall id :: IsDefault(t, id) && Enabled(t, Transmit(id)) && t.underlays[id].phase.msg.kind == High ==>
                           LastLoad(s, steps, t, id, None) == Some(false)
  {
    RunKeepsOwn(s, steps, t);
    forall k | 0 <= k < |t.wire| ensures MayCarry(t.wire[k].0, t.wire[k].1.kind) {
    }
    forall id {
      LoadedAfter(s, steps, t, id, None);
    }
  }

  // ---- and gets out ------------------------------------------------------------------------------------------------

  /** The steps an underlay takes itself, and a wakeup that is on its way. */
  predicate OwnStep(step: Step, id: Id) {
    step == Load(id) || step == Wake(id) || step == Transmit(id) || (step.Pull? && step.id == id) || step == Notify
  }

  ghost predicate OwnRun(s: State, steps: seq<Step>, t: State, id: Id) {
    Run(s, steps, t) && forall k :: 0 <= k < |steps| ==> OwnStep(steps[k], id)
  }

  /** By itself the underlay can transmit the next message of the kind before any other. */
  ghost predicate CanSend(s: State, id: Id, kind: Kind) {
    id in s.underlays &&
    exists steps, t :: OwnRun(s, steps, t, id) &&
                       t.wire == s.wire + [(s.underlays[id].kind, Msg(kind, QueueOf(s, kind).head))]
  }

  lemma OwnThen(s: State, step: Step, id: Id, kind: Kind)
    requires Enabled(s, step) && OwnStep(step, id) && CanSend(Next(s, step), id, kind) && id in s.underlays
    requires
      var t := Next(s, step);
      && t.wire == s.wire && QueueOf(t, kind).head == QueueOf(s, kind).head
      && t.underlays[id].kind == s.underlays[id].kind
    ensures CanSend(s, id, kind)
  {
    var n := Next(s, step);
    var rest, t :| OwnRun(n, rest, t, id) &&
                   t.wire == n.wire + [(n.underlays[id].kind, Msg(kind, QueueOf(n, kind).head))];
    var steps := [step] + rest;
    assert steps[1..] == rest;
    forall k | 0 <= k < |steps| ensures OwnStep(steps[k], id) {
      assert k > 0 ==> steps[k] == rest[k - 1];
    }
    assert OwnRun(s, steps, t, id);
  }

  lemma PullAndTransmit(s: State, id: Id, kind: Kind)
    requires Enabled(s, Pull(id, kind))
    ensures CanSend(s, id, kind)
  {
    var n := Next(s, Pull(id, kind));
    var t := Next(n, Transmit(id));
    var steps := [Pull(id, kind), Transmit(id)];
    assert steps[1..] == [Transmit(id)] && steps[1..][1..] == [];
    assert OwnStep(steps[0], id) && OwnStep(steps[1], id);
    assert OwnRun(s, steps, t, id);
  }

  ghost predicate Waiting(s: State, kind: Kind) {
    QueueOf(s, kind).head < QueueOf(s, kind).next
  }

  /** A default underlay always gets default and low-priority traffic out, the others their own. */
  lemma OwnTrafficSent(s: State, id: Id, kind: Kind)
    requires OnItsOwn(s) && id in s.underlays && !s.underlays[id].phase.Holding? && Waiting(s, kind)
    requires s.underlays[id].kind == kind || (s.underlays[id].kind == Default && kind == Low)
    ensures CanSend(s, id, kind)
  {
    if s.underlays[id].kind == Default && s.underlays[id].phase.Calling? {
      PullAndTransmit(Next(s, Load(id)), id, kind);
      OwnThen(s, Load(id), id, kind);
    } else {
      PullAndTransmit(s, id, kind);
    }
  }

  lemma HighFromCalling(s: State, id: Id)
    requires IsDefault(s, id) && s.underlays[id].phase.Calling? && !s.hasHigh && Waiting(s, High)
    ensures CanSend(s, id, High)
  {
    PullAndTransmit(Next(s, Load(id)), id, High);
    OwnThen(s, Load(id), id, High);
  }

  lemma HighFromFirst(s: State, id: Id)
    requires IsDefault(s, id) && s.underlays[id].phase.First? && !s.hasHigh && Waiting(s, High)
    requires s.token || s.notifying > 0
    ensures CanSend(s, id, High)
  {
    if s.token {
      HighFromCalling(Next(s, Wake(id)), id);
      OwnThen(s, Wake(id), id, High);
    } else {
      var n := Next(s, Notify);
      HighFromCalling(Next(n, Wake(id)), id);
      OwnThen(n, Wake(id), id, High);
      OwnThen(s, Notify, id, High);
    }
  }

  lemma {:induction false} WireGrows(s: State, steps: seq<Step>, t: State)
    requires Run(s, steps, t)
    ensures s.wire <= t.wire
    decreases |steps|
  {
    if steps != [] {
      WireGrows(Next(s, steps[0]), steps[1..], t);
    }
  }

  lemma OwnRest(s: State, steps: seq<Step>, t: State, id: Id)
    requires OwnRun(s, steps, t, id) && steps != []
    ensures Enabled(s, steps[0]) && OwnStep(steps[0], id) && OwnRun(Next(s, steps[0]), steps[1..], t, id)
  {
    forall k | 0 <= k < |steps[1..]| ensures OwnStep(steps[1..][k], id) {
      assert steps[1..][k] == steps[k + 1];
    }
  }

  /** With no wakeup on its way, an underlay that holds a message transmits that first. */
  lemma HeldGoesFirst(s: State, id: Id, steps: seq<Step>, t: State)
    requires id in s.underlays && s.underlays[id].phase.Holding? && s.notifying == 0 && OwnRun(s, steps, t, id)
    ensures t.wire == s.wire || (|t.wire| > |s.wire| && t.wire[|s.wire|].1 == s.underlays[id].phase.msg)
  {
    if steps != [] {
      OwnRest(s, steps, t, id);
      assert steps[0] == Transmit(id);
      WireGrows(Next(s, steps[0]), steps[1..], t);
    }
  }

  /** A stranded underlay has to wait for other traffic, which leaves first. */
  lemma StrandedCannot(s: State, id: Id, steps: seq<Step>, t: State)
    requires Stranded(s, id) && OwnRun(s, steps, t, id)
    ensures t.wire != s.wire + [(Default, Msg(High, s.high.head))]
  {
    if steps != [] {
      OwnRest(s, steps, t, id);
      var n := Next(s, steps[0]);
      assert steps[0].Pull? && n.underlays[id].phase.msg.kind != High && n.wire == s.wire;
      HeldGoesFirst(n, id, steps[1..], t);
    }
  }

  /**
   While the channel has no high-priority underlay, a default underlay that holds no message can by itself get the next
   high-priority message out if and only if it is not stranded.
   */
  lemma HighSentIff(s: State, id: Id)
    requires IsDefault(s, id) && !s.underlays[id].phase.Holding? && !s.hasHigh && Waiting(s, High)
    ensures CanSend(s, id, High) <==> !Stranded(s, id)
  {
    match s.underlays[id].phase
    case Calling => HighFromCalling(s, id);
    case Second => PullAndTransmit(s, id, High);
    case First =>
      if s.token || s.notifying > 0 {
        HighFromFirst(s, id);
      } else {
        forall steps, t | OwnRun(s, steps, t, id) ensures t.wire != s.wire + [(Default, Msg(High, s.high.head))] {
          StrandedCannot(s, id, steps, t);
        }
      }
  }

  /**
   In every reachable state of a channel with a single default underlay, whichever message waits, an underlay that holds
   none can get it out by itself: a default one always default and low-priority messages, and high-priority ones
   whenever there is no high-priority underlay; the others their own.
   */
  lemma TrafficGetsOut(s: State, steps: seq<Step>, t: State, id: Id, kind: Kind)
    requires Init(s) && s.single && Run(s, steps, t)
    requires id in t.underlays && !t.underlays[id].phase.Holding? && Waiting(t, kind)
    requires t.underlays[id].kind == kind || (t.underlays[id].kind == Default && (kind == High ==> !t.hasHigh))
    ensures CanSend(t, id, kind)
  {
    if t.underlays[id].kind == Default && kind == High {
      NoLostWakeup(s, steps, t);
      HighSentIff(t, id);
    } else {
      RunKeepsOwn(s, steps, t);
      OwnTrafficSent(t, id, kind);
    }
  }

  // ---- both need the single default underlay ----------------------------------------------------------------------

  lemma {:induction false} RunOn(s: State, steps: seq<Step>, t: State, more: seq<Step>, u: State)
    requires Run(s, steps, t) && Run(t, more, u)
    ensures Run(s, steps + more, u)
    decreases |steps|
  {
    if steps == [] {
      assert steps + more == more;
    } else {
      RunOn(Next(s, steps[0]), steps[1..], t, more, u);
      assert (steps + more)[1..] == steps[1..] + more;
    }
  }

  lemma Then(s: State, step: Step, rest: seq<Step>, t: State) returns (steps: seq<Step>)
    requires Enabled(s, step) && Run(Next(s, step), rest, t)
    ensures Run(s, steps, t)
  {
    steps := [step] + rest;
    assert steps[1..] == rest;
  }

  /** Two default underlays hold one message each. */
  ghost function BothHold(s: State): State {
    s.(underlays := map[1 := Underlay(Default, Holding(Msg(Default, 0))),
                        2 := Underlay(Default, Holding(Msg(Default, 1)))],
       default := Queue(2, 2))
  }

  lemma TwoTake(s: State) returns (steps: seq<Step>)
    requires Init(s) && !s.single
    ensures Run(s, steps, BothHold(s))
  {
    var s1 := Next(s, Send(Default));
    var s2 := Next(s1, Send(Default));
    var s3 := Next(s2, Connect(1, Default));
    var s4 := Next(s3, Load(1));
    var s5 := Next(s4, Pull(1, Default));
    var s6 := Next(s5, Connect(2, Default));
    var s7 := Next(s6, Load(2));
    var t := Next(s7, Pull(2, Default));
    assert t == BothHold(s);
    steps := Then(s7, Pull(2, Default), [], t);
    steps := Then(s6, Load(2), steps, t);
    steps := Then(s5, Connect(2, Default), steps, t);
    steps := Then(s4, Pull(1, Default), steps, t);
    steps := Then(s3, Load(1), steps, t);
    steps := Then(s2, Connect(1, Default), steps, t);
    steps := Then(s1, Send(Default), steps, t);
    steps := Then(s, Send(Default), steps, t);
  }

  lemma TwoTransmit(s: State) returns (steps: seq<Step>, t: State)
    requires s.wire == []
    ensures Run(BothHold(s), steps, t) && t.wire == [(Default, Msg(Default, 1)), (Default, Msg(Default, 0))]
  {
    var s1 := Next(BothHold(s), Transmit(2));
    t := Next(s1, Transmit(1));
    steps := Then(s1, Transmit(1), [], t);
    steps := Then(BothHold(s), Transmit(2), steps, t);
  }

  lemma SentReversed()
    ensures DefaultSent([(Default, Msg(Default, 1)), (Default, Msg(Default, 0))]) == [1, 0]
  {
    var first, second := (Default, Msg(Default, 1)), (Default, Msg(Default, 0));
    SentGrows([], first);
    assert [] + [first] == [first];
    SentGrows([first], second);
    assert [first, second] == [first] + [second];
  }

  /** The second is the faster. */
  lemma TwoReorder(s: State) returns (t: State)
    requires Init(s) && !s.single
    ensures Reaches(s, t) && DefaultSent(t.wire) == [1, 0]
  {
    var steps := TwoTake(s);
    var rest;
    rest, t := TwoTransmit(s);
    RunOn(s, steps, BothHold(s), rest, t);
    SentReversed();
  }

  /** Two default underlays wait for one wakeup, and one of them takes it. */
  lemma TwoStrand(s: State) returns (t: State)
    requires Init(s) && !s.single
    ensures Reaches(s, t) && Stranded(t, 2)
  {
    var s1 := Next(s, Connect(1, Default));
    var s2 := Next(s1, Connect(2, Default));
    var s3 := Next(s2, Track(true));
    var s4 := Next(s3, Load(1));
    var s5 := Next(s4, Load(2));
    var s6 := Next(s5, Track(false));
    var s7 := Next(s6, Notify);
    var s8 := Next(s7, Wake(1));
    t := s8;
    var steps: seq<Step> := [];
    steps := Then(s7, Wake(1), steps, t);
    steps := Then(s6, Notify, steps, t);
    steps := Then(s5, Track(false), steps, t);
    steps := Then(s4, Load(2), steps, t);
    steps := Then(s3, Load(1), steps, t);
    steps := Then(s2, Track(true), steps, t);
    steps := Then(s1, Connect(2, Default), steps, t);
    steps := Then(s, Connect(1, Default), steps, t);
  }

  /** Default traffic keeps its order in every run exactly if the channel never has two default underlays. */
  lemma OrderIffSingle(s: State)
    requires Init(s)
    ensures s.single <==> forall t :: Reaches(s, t) ==> Ascending(DefaultSent(t.wire))
  {
    if s.single {
      forall t | Reaches(s, t) ensures Ascending(DefaultSent(t.wire)) {
        var steps :| Run(s, steps, t);
        DefaultTrafficOrder(s, steps, t);
      }
    } else {
      var t := TwoReorder(s);
      assert DefaultSent(t.wire)[0] > DefaultSent(t.wire)[1];
    }
  }

  /** And no default underlay is ever stranded in exactly the same case. */
  lemma WakeupIffSingle(s: State)
    requires Init(s)
    ensures s.single <==> forall t, id :: Reaches(s, t) ==> !Stranded(t, id)
  {
    if s.single {
      forall t, id | Reaches(s, t) ensures !Stranded(t, id) {
        var steps :| Run(s, steps, t);
        NoLostWakeup(s, steps, t);
      }
    } else {
      var t := TwoStrand(s);
    }
  }
}
