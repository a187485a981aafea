/**
 The controller's log and model, a router's model, and the three ways a router catches up: change sets as they come,
 a replay of the log, and a snapshot. Over whole runs, the router ends up with the controller's relational content.
 */
module Replication {
  import opened Types
  import opened Relations
  import opened Refinement
  import opened EventCache
  import opened Snapshot
  import opened NilEntries
  import Inv = ReceiverInvariants
  import R = Receiver
  import S = Sender

  // ---- the two sides --------------------------------------------------------------------------------------

  datatype Controller = Controller(log: LogView, model: S.SenderModel)

  /** ApplyChangeSet on the sender: the handlers run inside an accepted store. */
  ghost function Publish(ctl: Controller, cs: ChangeSet): Controller
    requires ctl.log.logSize >= 1
  {
    if ctl.log.Accepts(cs) then Controller(ctl.log.Stored(cs), S.HandleAll(ctl.model, cs.changes)) else ctl
  }

  datatype Router = Router(model: R.Model, index: nat)

  /** Store on the receiver: a change set at or below the current index is refused. */
  predicate Refuses(r: Router, cs: ChangeSet) {
    !cs.synthetic && r.index > 0 && r.index >= cs.index
  }

  /** ApplyChangeSet on the receiver. */
  ghost function Receive(r: Router, cs: ChangeSet): Router {
    if Refuses(r, cs) then r
    else Router(R.HandleAll(r.model, cs.index, cs.changes), if cs.synthetic then r.index else cs.index)
  }

  ghost function ReceiveAll(r: Router, css: seq<ChangeSet>): Router
    decreases |css|
  {
    if css == [] then r else ReceiveAll(Receive(r, css[0]), css[1..])
  }

  /** NewReceiverRouterDataModelFromDataState */
  ghost function FromSnapshot(events: seq<Event>, endIndex: nat): Router {
    Router(Rebuilt(events, endIndex), endIndex)
  }

  // ---- content over a history -----------------------------------------------------------------------------

  ghost function After(c: Content, h: seq<ChangeSet>): Content
    decreases |h|
  {
    if h == [] then c else After(StepAll(c, h[0].changes), h[1..])
  }

  ghost predicate GoodHistory(c: Content, h: seq<ChangeSet>)
    decreases |h|
  {
    h == [] || (WellFormedAll(c, h[0].changes) && GoodHistory(StepAll(c, h[0].changes), h[1..]))
  }

  lemma {:induction false} HistorySplit(c: Content, h: seq<ChangeSet>, g: seq<ChangeSet>)
    ensures After(c, h + g) == After(After(c, h), g)
    ensures GoodHistory(c, h + g) <==> GoodHistory(c, h) && GoodHistory(After(c, h), g)
    decreases |h|
  {
    if h == [] {
      assert h + g == g;
    } else {
      assert (h + g)[1..] == h[1..] + g;
      HistorySplit(StepAll(c, h[0].changes), h[1..], g);
    }
  }

  lemma AfterOne(c: Content, cs: ChangeSet)
    ensures After(c, [cs]) == StepAll(c, cs.changes)
    ensures GoodHistory(c, [cs]) <==> WellFormedAll(c, cs.changes)
  {
    assert [cs][1..] == [];
    assert After(StepAll(c, cs.changes), []) == StepAll(c, cs.changes);
  }

  /** What the router must have at index k: the content after the logged change sets up to k. */
  ghost function ContentAt(c: Content, h: seq<ChangeSet>, k: nat): Content {
    After(c, UpTo(h, k))
  }

  ghost function UpTo(h: seq<ChangeSet>, k: nat): seq<ChangeSet>
    decreases |h|
  {
    if h == [] || h[0].index > k then [] else [h[0]] + UpTo(h[1..], k)
  }

  lemma {:induction false} UpToThenFrom(h: seq<ChangeSet>, k: nat)
    requires Ascending(h)
    ensures UpTo(h, k) + From(h, k + 1) == h
    decreases |h|
  {
    if h != [] {
      if h[0].index > k {
        FromIsSuffix(h, k + 1, 0);
      } else {
        UpToThenFrom(h[1..], k);
        assert h == [h[0]] + h[1..];
      }
    }
  }

  // ---- the controller over a run ---------------------------------------------------------------------------

  /** Each event of a change set is well-formed where it applies and reuses no policy id still listed. */
  ghost predicate GoodEvents(s: S.SenderModel, events: seq<Event>)
    decreases |events|
  {
    events == [] ||
    (WellFormed(SenderContent(s), events[0]) && FreshPolicy(s, events[0]) &&
     GoodEvents(S.Handle(s, events[0]), events[1..]))
  }

  lemma {:induction false} SenderFollows(s: S.SenderModel, events: seq<Event>)
    requires NoNil(s) && GoodEvents(s, events)
    ensures SenderContent(S.HandleAll(s, events)) == StepAll(SenderContent(s), events)
    ensures NoNil(S.HandleAll(s, events)) && WellFormedAll(SenderContent(s), events)
    decreases |events|
  {
    if events != [] {
      SenderRefines(s, events[0]);
      SenderFollows(S.Handle(s, events[0]), events[1..]);
    }
  }

  lemma {:induction false} StepAllClosed(c: Content, events: seq<Event>)
    requires Closed(c) && WellFormedAll(c, events)
    ensures Closed(StepAll(c, events))
    decreases |events|
  {
    if events != [] {
      StepKeepsClosed(c, events[0]);
      StepAllClosed(Step(c, events[0]), events[1..]);
    }
  }

  ghost predicate GoodRun(ctl: Controller, css: seq<ChangeSet>)
    requires ctl.log.logSize >= 1
    decreases |css|
  {
    css == [] ||
    (!css[0].synthetic && (ctl.log.Accepts(css[0]) ==> GoodEvents(ctl.model, css[0].changes)) &&
     GoodRun(Publish(ctl, css[0]), css[1..]))
  }

  ghost function PublishAll(ctl: Controller, css: seq<ChangeSet>): (r: Controller)
    requires ctl.log.logSize >= 1
    ensures r.log.logSize == ctl.log.logSize
    decreases |css|
  {
    if css == [] then ctl else PublishAll(Publish(ctl, css[0]), css[1..])
  }

  /** The controller's content is its content at the reset, c0, moved by the change sets logged since. */
  ghost predicate Tracks(ctl: Controller, c0: Content) {
    && ctl.log.Ok() && NoNil(ctl.model) && Closed(SenderContent(ctl.model))
    && GoodHistory(c0, ctl.log.history)
    && SenderContent(ctl.model) == After(c0, ctl.log.history)
  }

  lemma PublishTracks(ctl: Controller, c0: Content, cs: ChangeSet)
    requires Tracks(ctl, c0) && !cs.synthetic && (ctl.log.Accepts(cs) ==> GoodEvents(ctl.model, cs.changes))
    ensures Tracks(Publish(ctl, cs), c0)
  {
    if ctl.log.Accepts(cs) {
      StoredKeepsOk(ctl.log, cs);
      SenderFollows(ctl.model, cs.changes);
      StepAllClosed(SenderContent(ctl.model), cs.changes);
      HistorySplit(c0, ctl.log.history, [cs]);
      AfterOne(SenderContent(ctl.model), cs);
    }
  }

  lemma {:induction false} RunTracks(ctl: Controller, c0: Content, css: seq<ChangeSet>)
    requires Tracks(ctl, c0) && GoodRun(ctl, css)
    ensures Tracks(PublishAll(ctl, css), c0)
    ensures PublishAll(ctl, css).log.base == ctl.log.base
    decreases |css|
  {
    if css != [] {
      PublishTracks(ctl, c0, css[0]);
      RunTracks(Publish(ctl, css[0]), c0, css[1..]);
    }
  }

  // ---- the router over a delivery ---------------------------------------------------------------------------

  ghost predicate Synced(r: Router, c: Content) {
    ReceiverOk(r.model) && ReceiverContent(r.model) == c && Closed(c)
  }

  /** Applying an ascending good history from above the router's index carries the content along. */
  lemma {:induction false} RouterFollows(r: Router, c: Content, h: seq<ChangeSet>)
    requires Synced(r, c) && GoodHistory(c, h) && Ascending(h)
    requires forall k :: 0 <= k < |h| ==> !h[k].synthetic && r.index < h[k].index
    ensures Synced(ReceiveAll(r, h), After(c, h))
    ensures ReceiveAll(r, h).index == if h == [] then r.index else h[|h| - 1].index
    decreases |h|
  {
    if h != [] {
      assert !Refuses(r, h[0]);
      ReceiverFollows(r.model, h[0].index, h[0].changes);
      var r1 := Receive(r, h[0]);
      assert forall k :: 0 <= k < |h[1..]| ==> h[1..][k] == h[k + 1];
      RouterFollows(r1, StepAll(c, h[0].changes), h[1..]);
      assert |h| > 1 ==> h[1..][|h[1..]| - 1] == h[|h| - 1];
    }
  }

  /** The change sets of a delivery that are not refused. */
  ghost function Fresh(index: nat, d: seq<ChangeSet>): seq<ChangeSet>
    decreases |d|
  {
    if d == [] then []
    else if d[0].index <= index then Fresh(index, d[1..])
    else [d[0]] + Fresh(d[0].index, d[1..])
  }

  /** Stale and redelivered change sets, wherever they turn up in a delivery, change nothing. */
  lemma {:induction false} StaleChangesNothing(r: Router, d: seq<ChangeSet>)
    requires r.index > 0 && forall k :: 0 <= k < |d| ==> !d[k].synthetic
    ensures ReceiveAll(r, d) == ReceiveAll(r, Fresh(r.index, d))
    decreases |d|
  {
    if d != [] {
      if d[0].index <= r.index {
        StaleChangesNothing(r, d[1..]);
      } else {
        StaleChangesNothing(Receive(r, d[0]), d[1..]);
        assert ([d[0]] + Fresh(d[0].index, d[1..]))[1..] == Fresh(d[0].index, d[1..]);
      }
    }
  }

  // ---- catching up ------------------------------------------------------------------------------------------

  /** A router that has the controller's content as of its index, at or after the controller's last reset. */
  ghost predicate Behind(r: Router, ctl: Controller, c0: Content) {
    && ReceiverOk(r.model) && ctl.log.base <= r.index <= ctl.log.Head()
    && ReceiverContent(r.model) == ContentAt(c0, ctl.log.history, r.index) && Closed(ReceiverContent(r.model))
  }

  ghost predicate CaughtUp(r: Router, ctl: Controller) {
    ReceiverOk(r.model) && ReceiverContent(r.model) == SenderContent(ctl.model) && r.index == ctl.log.Head()
  }

  /** The missing change sets, delivered in any company of stale ones, bring the router up to date. */
  lemma DeliveryCatchesUp(r: Router, ctl: Controller, c0: Content, d: seq<ChangeSet>)
    requires Tracks(ctl, c0) && Behind(r, ctl, c0) && r.index > 0
    requires forall k :: 0 <= k < |d| ==> !d[k].synthetic
    requires Fresh(r.index, d) == From(ctl.log.history, r.index + 1)
    ensures CaughtUp(ReceiveAll(r, d), ctl)
  {
    StaleChangesNothing(r, d);
    MissingCatchesUp(r, ctl, c0);
  }

  /** What a router at index k misses up to head: ascending indexed change sets above k, the last one at head. */
  ghost predicate Spans(missing: seq<ChangeSet>, k: nat, head: nat) {
    && Ascending(missing)
    && (forall j :: 0 <= j < |missing| ==> !missing[j].synthetic && k < missing[j].index)
    && head == if missing == [] then k else missing[|missing| - 1].index
  }

  lemma MissingShape(log: LogView, k: nat)
    requires log.Ok() && k <= log.Head() && log.base <= k
    ensures Spans(From(log.history, k + 1), k, log.Head())
  {
    var i := Split(log.history, k + 1);
    SuffixSpans(log.history, i, k, log.Head());
  }

  lemma SuffixSpans(h: seq<ChangeSet>, i: nat, k: nat, head: nat)
    requires Ascending(h) && i <= |h| && k <= head && head == if h == [] then k else h[|h| - 1].index
    requires forall j :: 0 <= j < |h| ==> !h[j].synthetic && (h[j].index <= k <==> j < i)
    ensures Spans(h[i..], k, head)
  {
    if i < |h| {
      assert h[i..][|h| - i - 1] == h[|h| - 1];
    }
  }

  /** Change sets that take content c at index k to content now at index head. */
  ghost predicate Carries(missing: seq<ChangeSet>, c: Content, k: nat, now: Content, head: nat) {
    GoodHistory(c, missing) && Spans(missing, k, head) && After(c, missing) == now
  }

  lemma MissingCarries(log: LogView, k: nat, c0: Content)
    requires log.Ok() && log.base <= k <= log.Head() && GoodHistory(c0, log.history)
    ensures Carries(From(log.history, k + 1), ContentAt(c0, log.history, k), k, After(c0, log.history), log.Head())
  {
    MissingIsGood(log.history, k, c0);
    MissingShape(log, k);
  }

  lemma SpanFollowed(r: Router, c: Content, missing: seq<ChangeSet>, now: Content, head: nat)
    requires Synced(r, c) && Carries(missing, c, r.index, now, head)
    ensures Synced(ReceiveAll(r, missing), now) && ReceiveAll(r, missing).index == head
  {
    RouterFollows(r, c, missing);
  }

  lemma MissingCatchesUp(r: Router, ctl: Controller, c0: Content)
    requires Tracks(ctl, c0) && Behind(r, ctl, c0)
    ensures CaughtUp(ReceiveAll(r, From(ctl.log.history, r.index + 1)), ctl)
  {
    MissingCarries(ctl.log, r.index, c0);
    SpanFollowed(r, ReceiverContent(r.model), From(ctl.log.history, r.index + 1), SenderContent(ctl.model),
                 ctl.log.Head());
  }

  lemma MissingIsGood(h: seq<ChangeSet>, k: nat, c0: Content)
    requires Ascending(h) && GoodHistory(c0, h)
    ensures GoodHistory(ContentAt(c0, h, k), From(h, k + 1))
    ensures After(ContentAt(c0, h, k), From(h, k + 1)) == After(c0, h)
  {
    UpToThenFrom(h, k);
    HistorySplit(c0, UpTo(h, k), From(h, k + 1));
  }

  /**
   Replay: a router behind at index k that applies what ReplayFrom(k + 1) answers with Success has the controller's
   content and index.
   */
  lemma ReplayCatchesUp(r: Router, ctl: Controller, c0: Content)
    requires Tracks(ctl, c0) && Behind(r, ctl, c0) && ctl.log.Replay(r.index + 1).1.Success?
    ensures CaughtUp(ReceiveAll(r, ctl.log.Replay(r.index + 1).0), ctl)
  {
    ReplayComplete(ctl.log, r.index + 1);
    MissingCatchesUp(r, ctl, c0);
  }

  /** A router told its request is from the future has nothing to catch up on. */
  lemma NothingMissing(r: Router, ctl: Controller, c0: Content)
    requires Tracks(ctl, c0) && Behind(r, ctl, c0) && ctl.log.Replay(r.index + 1).1.RequestFromFuture?
    ensures CaughtUp(r, ctl)
  {
    ReplayComplete(ctl.log, r.index + 1);
    MissingCatchesUp(r, ctl, c0);
    var i := Split(ctl.log.history, r.index + 1);
    assert i == |ctl.log.history|;
  }

  /** The full sync: a router rebuilt from the controller's snapshot, if the controller can give one. */
  ghost function FullySynced(ctl: Controller, o: Order): Option<Router>
    requires Orders(SenderSource(ctl.model), o)
  {
    match SenderSnapshot(ctl.model, o)
    case None => None
    case Some(events) => Some(FromSnapshot(events, ctl.log.Head()))
  }

  /** The controller's content and index, with exact counters. */
  ghost predicate Mirrors(r: Router, ctl: Controller) {
    ReceiverContent(r.model) == SenderContent(ctl.model) && r.index == ctl.log.Head() && Inv.Exact(r.model)
  }

  /**
   Snapshot: a controller without nil identity entries, and no other, gives a full sync. The router rebuilt has the
   controller's content and index, dangling references and what the routers fell out of step with included.
   */
  lemma SnapshotCatchesUp(ctl: Controller, o: Order)
    requires Orders(SenderSource(ctl.model), o)
    ensures FullySynced(ctl, o).Some? <==> NoNil(ctl.model)
    ensures NoNil(ctl.model) ==>
              var r := FullySynced(ctl, o).value;
              Mirrors(r, ctl) && (Closed(SenderContent(ctl.model)) ==> CaughtUp(r, ctl))
  {
    SenderRoundTrip(ctl.model, o, ctl.log.Head());
  }

  // ---- the controller's nil entries over a run --------------------------------------------------------------

  /** The events of a run that are handled: those of the change sets the log accepts. */
  ghost function Handled(ctl: Controller, css: seq<ChangeSet>): seq<Event>
    requires ctl.log.logSize >= 1
    decreases |css|
  {
    if css == [] then []
    else (if ctl.log.Accepts(css[0]) then css[0].changes else []) + Handled(Publish(ctl, css[0]), css[1..])
  }

  lemma {:induction false} HandledSplit(s: S.SenderModel, es: seq<Event>, fs: seq<Event>)
    ensures S.HandleAll(s, es + fs) == S.HandleAll(S.HandleAll(s, es), fs)
    decreases |es|
  {
    if es == [] {
      assert es + fs == fs;
    } else {
      assert (es + fs)[1..] == es[1..] + fs;
      HandledSplit(S.Handle(s, es[0]), es[1..], fs);
    }
  }

  lemma {:induction false} PublishedIsHandled(ctl: Controller, css: seq<ChangeSet>)
    requires ctl.log.logSize >= 1
    ensures PublishAll(ctl, css).model == S.HandleAll(ctl.model, Handled(ctl, css))
    decreases |css|
  {
    if css != [] {
      var next := Publish(ctl, css[0]);
      var es := if ctl.log.Accepts(css[0]) then css[0].changes else [];
      PublishedIsHandled(next, css[1..]);
      HandledSplit(ctl.model, es, Handled(next, css[1..]));
    }
  }

  /** Each membership change of the run names identities the controller has at that point. */
  ghost predicate MembersNamed(ctl: Controller, css: seq<ChangeSet>)
    requires ctl.log.logSize >= 1
  {
    NamesKnownAll(ctl.model, Handled(ctl, css))
  }

  /**
   After a run the controller can give a full sync iff no membership change of the run named an identity before its
   create without a later event about that identity; that each named known ones is enough.
   */
  lemma FullSyncIff(ctl: Controller, css: seq<ChangeSet>)
    requires ctl.log.logSize >= 1 && NoNil(ctl.model)
    ensures NoNil(PublishAll(ctl, css).model) <==> forall i, k :: !NilFrom(ctl.model, Handled(ctl, css), i, k)
    ensures NoNilThroughout(ctl.model, Handled(ctl, css)) <==> MembersNamed(ctl, css)
    ensures MembersNamed(ctl, css) ==> NoNil(PublishAll(ctl, css).model)
  {
    PublishedIsHandled(ctl, css);
    NoNilThroughoutIff(ctl.model, Handled(ctl, css));
    NoNilAfterIff(ctl.model, Handled(ctl, css));
  }

  /** Asked for what follows the router's index, either answer short of a full sync leaves the router caught up. */
  ghost predicate AgreesByReplay(r: Router, ctl: Controller)
    requires ctl.log.logSize >= 1
  {
    && (ctl.log.Replay(r.index + 1).1.Success? ==> CaughtUp(ReceiveAll(r, ctl.log.Replay(r.index + 1).0), ctl))
    && (ctl.log.Replay(r.index + 1).1.RequestFromFuture? ==> CaughtUp(r, ctl))
  }

  lemma ReplayAgrees(r: Router, ctl: Controller, c0: Content)
    requires Tracks(ctl, c0) && Behind(r, ctl, c0)
    ensures AgreesByReplay(r, ctl)
  {
    if ctl.log.Replay(r.index + 1).1.Success? { ReplayCatchesUp(r, ctl, c0); }
    if ctl.log.Replay(r.index + 1).1.RequestFromFuture? { NothingMissing(r, ctl, c0); }
  }

  /** A run of well-formed change sets, stale ones included, from a reset controller. */
  ghost predicate WellRun(ctl0: Controller, css: seq<ChangeSet>) {
    && ctl0.log.logSize >= 1 && ctl0.log.history == []
    && NoNil(ctl0.model) && Closed(SenderContent(ctl0.model)) && GoodRun(ctl0, css)
  }

  lemma WellRunTracks(ctl0: Controller, css: seq<ChangeSet>)
    requires WellRun(ctl0, css)
    ensures Tracks(PublishAll(ctl0, css), SenderContent(ctl0.model))
  {
    RunTracks(ctl0, SenderContent(ctl0.model), css);
  }

  /**
   Replica agreement over whole runs. After any run whose membership changes name identities the controller has, a full
   sync gives a router the controller's relational content and index, whatever else dangles. After a run of well-formed
   change sets from a reset controller, a router that agreed at some index ends up with that content by replay as well,
   and either way with everything exact.
   */
  lemma ReplicaAgreement(ctl0: Controller, css: seq<ChangeSet>, r: Router, o: Order)
    requires ctl0.log.logSize >= 1
    ensures
      var ctl, c0 := PublishAll(ctl0, css), SenderContent(ctl0.model);
      && (NoNil(ctl0.model) && MembersNamed(ctl0, css) && Orders(SenderSource(ctl.model), o) ==>
            FullySynced(ctl, o).Some? && Mirrors(FullySynced(ctl, o).value, ctl))
      && (WellRun(ctl0, css) && Orders(SenderSource(ctl.model), o) ==>
            FullySynced(ctl, o).Some? && CaughtUp(FullySynced(ctl, o).value, ctl))
      && (WellRun(ctl0, css) && Behind(r, ctl, c0) ==> AgreesByReplay(r, ctl))
  {
    var ctl, c0 := PublishAll(ctl0, css), SenderContent(ctl0.model);
    if WellRun(ctl0, css) {
      WellRunTracks(ctl0, css);
      if Behind(r, ctl, c0) { ReplayAgrees(r, ctl, c0); }
    }
    if NoNil(ctl0.model) { FullSyncIff(ctl0, css); }
    if Orders(SenderSource(ctl.model), o) { SnapshotCatchesUp(ctl, o); }
  }

  // ---- the controller's router sender -----------------------------------------------------------------------

  /**
   handleModelChange (controller/sync_strats/rtx.go) replays from the router's own index, and drops the first
   change set of a Success as the one the router already has.
   */
  ghost function Sent(log: LogView, index: nat): seq<ChangeSet>
    requires log.logSize >= 1 && log.Replay(index).1.Success?
  {
    var events := log.Replay(index).0;
    if events == [] then [] else events[1..]
  }

  lemma FromAbove(h: seq<ChangeSet>, k: nat)
    requires Ascending(h)
    ensures From(h, k + 1) == if From(h, k) != [] && From(h, k)[0].index == k then From(h, k)[1..] else From(h, k)
  {
    var i := Split(h, k);
    var j := if i < |h| && h[i].index == k then i + 1 else i;
    FromIsSuffix(h, k + 1, j);
  }

  /** What is sent is everything the router misses exactly when the log still has the router's own index. */
  lemma SentCompleteIff(log: LogView, index: nat)
    requires log.Ok() && log.Replay(index).1.Success?
    ensures Sent(log, index) == From(log.history, index + 1) <==> log.Logged(index)
  {
    ReplayComplete(log, index);
    FromAbove(log.history, index);
    var h := log.history;
    var i := Split(h, index);
    AnsweredIsRetained(log, index);
    assert log.Logged(index) <==> h[i].index == index;
    assert |From(h, index)| == |h| - i;
  }

  /** Where the index is logged, that replay brings the router up to date. */
  lemma SentCatchesUp(r: Router, ctl: Controller, c0: Content)
    requires Tracks(ctl, c0) && Behind(r, ctl, c0) && ctl.log.Replay(r.index).1.Success? && ctl.log.Logged(r.index)
    ensures CaughtUp(ReceiveAll(r, Sent(ctl.log, r.index)), ctl)
  {
    SentCompleteIff(ctl.log, r.index);
    MissingCatchesUp(r, ctl, c0);
  }

  /** A router synced at an index the log skipped, by another controller's snapshot say, loses the next change set. */
  lemma GapLosesChangeSet(a: ChangeSet, b: ChangeSet)
    requires a.index == 5 && b.index == 9 && !a.synthetic && !b.synthetic
    ensures LogView(4, 0, [], 0).Stored(a).Stored(b).Replay(7) == ([b], Success)
    ensures Sent(LogView(4, 0, [], 0).Stored(a).Stored(b), 7) == []
  {
    var v := LogView(4, 0, [], 0).Stored(a).Stored(b);
    assert v.history == [a, b] && v.minEntry == 5 && v.Retained() == [a, b];
    FromIsSuffix([a, b], 7, 1);
    assert [a, b][1..] == [b];
  }

  /** The log has been reset once: a minimum left from an earlier life would not lie above the base. */
  ghost predicate ResetOnce(log: LogView) {
    if log.history == [] then log.minEntry == 0 else log.minEntry > log.base
  }

  lemma StoredResetOnce(v: LogView, cs: ChangeSet)
    requires v.Ok() && ResetOnce(v)
    ensures ResetOnce(v.Stored(cs)) && v.Stored(cs).base == v.base
  {
    StoredKeepsOk(v, cs);
  }

  /** An index a router has from this controller: that of a snapshot at the reset, or of a change set logged since. */
  ghost predicate FromHere(log: LogView, index: nat) {
    index == log.base || exists k :: 0 <= k < |log.history| && log.history[k].index == index
  }

  /** To a router synced by this controller a replay is answered only from an index the log still has. */
  lemma AnsweredIsLogged(log: LogView, index: nat)
    requires log.Ok() && ResetOnce(log) && FromHere(log, index) && log.Replay(index).1.Success?
    ensures log.Logged(index)
  {
  }

  /** So what is sent to it is everything it misses. */
  lemma NothingLost(log: LogView, index: nat)
    requires log.Ok() && ResetOnce(log) && FromHere(log, index) && log.Replay(index).1.Success?
    ensures Sent(log, index) == From(log.history, index + 1)
  {
    AnsweredIsLogged(log, index);
    SentCompleteIff(log, index);
  }

  /** The reset index itself is never answered by a replay in a log reset once, so a snapshot taken there is safe. */
  lemma {:induction false} BaseIsNotReplayed(logSize: nat, base: nat, css: seq<ChangeSet>)
    requires logSize >= 1
    ensures !StoreAll(LogView(logSize, base, [], 0), css).Replay(base).1.Success?
  {
    var v := StoreAll(LogView(logSize, base, [], 0), css);
    StoreAllResetOnce(LogView(logSize, base, [], 0), css);
    StoreAllOk(LogView(logSize, base, [], 0), css);
    assert !v.Logged(base);
  }

  lemma {:induction false} StoreAllResetOnce(v: LogView, css: seq<ChangeSet>)
    requires v.Ok() && ResetOnce(v)
    ensures ResetOnce(StoreAll(v, css)) && StoreAll(v, css).base == v.base
    decreases |css|
  {
    if css != [] {
      StoredKeepsOk(v, css[0]);
      StoredResetOnce(v, css[0]);
      StoreAllResetOnce(v.Stored(css[0]), css[1..]);
    }
  }
}
