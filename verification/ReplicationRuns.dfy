/**
 The controller and a router over interleaved runs: change sets are published while earlier ones are still under
 way, delivered again, replayed or overtaken by a snapshot. At every point the router has the controller's content as
 of its own index, and every catch-up makes the two equal.
 */
module ReplicationRuns {
  import opened Types
  import opened Relations
  import opened Refinement
  import opened EventCache
  import opened Snapshot
  import opened Replication

  datatype System = System(controller: Controller, router: Router)

  datatype Act =
    | Publishes(cs: ChangeSet)
    | Delivers(k: nat)
    | Replays
    | Sends
    | Snapshots(order: Order)

  /** The channel keeps order: what arrives is the next logged change set, or one the router has already. */
  ghost predicate InOrder(h: seq<ChangeSet>, index: nat, k: nat) {
    k < |h| && (h[k].index <= index || UpTo(h, index) == h[..k])
  }

  ghost predicate Enabled(s: System, act: Act)
    requires s.controller.log.logSize >= 1
  {
    var ctl, r := s.controller, s.router;
    match act
    case Publishes(cs) => !cs.synthetic && (ctl.log.Accepts(cs) ==> GoodEvents(ctl.model, cs.changes))
    case Delivers(k) => InOrder(ctl.log.history, r.index, k)
    case Replays => ctl.log.Replay(r.index + 1).1.Success?
    case Sends => ctl.log.Replay(r.index).1.Success?
    case Snapshots(o) => Orders(SenderSource(ctl.model), o)
  }

  /** The router with what the controller answers to a request for what follows its index. */
  ghost function Answered(ctl: Controller, r: Router): Router
    requires ctl.log.logSize >= 1 && ctl.log.Replay(r.index + 1).1.Success?
  {
    ReceiveAll(r, ctl.log.Replay(r.index + 1).0)
  }

  ghost function Next(s: System, act: Act): (t: System)
    requires s.controller.log.logSize >= 1 && Enabled(s, act)
    ensures t.controller.log.logSize >= 1
  {
    var ctl, r := s.controller, s.router;
    match act
    case Publishes(cs) => s.(controller := Publish(ctl, cs))
    case Delivers(k) => s.(router := Receive(r, ctl.log.history[k]))
    case Replays => s.(router := Answered(ctl, r))
    case Sends => s.(router := ReceiveAll(r, Sent(ctl.log, r.index)))
    case Snapshots(o) =>
      match FullySynced(ctl, o)
      case None => s
      case Some(synced) => s.(router := synced)
  }

  ghost predicate Run(s: System, acts: seq<Act>, t: System)
    requires s.controller.log.logSize >= 1
    decreases |acts|
  {
    if acts == [] then t == s else Enabled(s, acts[0]) && Run(Next(s, acts[0]), acts[1..], t)
  }

  /** The router has exactly what the controller had at the router's index, which it has from this controller. */
  ghost predicate Consistent(s: System, c0: Content) {
    && Tracks(s.controller, c0) && Behind(s.router, s.controller, c0)
    && ResetOnce(s.controller.log) && FromHere(s.controller.log, s.router.index)
  }

  // ---- what each action keeps -----------------------------------------------------------------------------

  lemma {:induction false} UpToLonger(h: seq<ChangeSet>, cs: ChangeSet, k: nat)
    requires k < cs.index
    ensures UpTo(h + [cs], k) == UpTo(h, k)
    decreases |h|
  {
    if h == [] {
      assert h + [cs] == [cs];
    } else {
      assert (h + [cs])[1..] == h[1..] + [cs];
      UpToLonger(h[1..], cs, k);
    }
  }

  lemma StillFromHere(log: LogView, cs: ChangeSet, index: nat)
    requires log.logSize >= 1 && FromHere(log, index) && log.Accepts(cs)
    ensures FromHere(log.Stored(cs), index)
  {
    var h := log.Stored(cs).history;
    if k :| 0 <= k < |log.history| && log.history[k].index == index {
      assert h[k].index == index;
    }
  }

  lemma HeadFromHere(log: LogView)
    ensures FromHere(log, log.Head())
  {
    if log.history != [] {
      assert log.history[|log.history| - 1].index == log.Head();
    }
  }

  lemma PublishKeepsBehind(s: System, c0: Content, cs: ChangeSet)
    requires Consistent(s, c0) && Enabled(s, Publishes(cs))
    ensures Consistent(Next(s, Publishes(cs)), c0)
  {
    var ctl, r := s.controller, s.router;
    PublishTracks(ctl, c0, cs);
    StoredResetOnce(ctl.log, cs);
    if ctl.log.Accepts(cs) {
      StillFromHere(ctl.log, cs, r.index);
      UpToLonger(ctl.log.history, cs, r.index);
    }
  }

  lemma {:induction false} UpToNext(h: seq<ChangeSet>, k: nat, j: nat)
    requires Ascending(h) && k < |h| && UpTo(h, j) == h[..k]
    ensures UpTo(h, h[k].index) == h[..k + 1]
    decreases |h|
  {
    if k == 0 {
      assert h[..1] == [h[0]];
      assert |h| > 1 ==> h[1..][0].index > h[0].index;
    } else {
      assert h[..k][1..] == h[1..][..k - 1];
      assert h[..k + 1] == [h[0]] + h[1..][..k];
      assert h[..k][0] == h[0];
      UpToNext(h[1..], k - 1, j);
    }
  }

  /** The next change set of a good history is itself good where it applies. */
  lemma NextIsGood(c0: Content, h: seq<ChangeSet>, k: nat)
    requires GoodHistory(c0, h) && k < |h|
    ensures GoodHistory(After(c0, h[..k]), [h[k]])
    ensures After(c0, h[..k + 1]) == After(After(c0, h[..k]), [h[k]])
  {
    assert h == h[..k] + ([h[k]] + h[k + 1..]);
    HistorySplit(c0, h[..k], [h[k]] + h[k + 1..]);
    HistorySplit(After(c0, h[..k]), [h[k]], h[k + 1..]);
    HistorySplit(c0, h[..k], [h[k]]);
    assert h[..k + 1] == h[..k] + [h[k]];
  }

  lemma NextReceived(r: Router, c: Content, cs: ChangeSet)
    requires Synced(r, c) && GoodHistory(c, [cs]) && !cs.synthetic && r.index < cs.index
    ensures Synced(Receive(r, cs), After(c, [cs])) && Receive(r, cs).index == cs.index
  {
    RouterFollows(r, c, [cs]);
    assert [cs][1..] == [];
    assert ReceiveAll(Receive(r, cs), []) == Receive(r, cs);
  }

  lemma DeliveryKeepsBehind(s: System, c0: Content, k: nat)
    requires Consistent(s, c0) && Enabled(s, Delivers(k))
    ensures Consistent(Next(s, Delivers(k)), c0)
  {
    var h, r := s.controller.log.history, s.router;
    if h[k].index > r.index {
      UpToNext(h, k, r.index);
      NextIsGood(c0, h, k);
      NextReceived(r, After(c0, h[..k]), h[k]);
      assert h[k].index <= s.controller.log.Head();
    }
  }

  lemma {:induction false} UpToHead(h: seq<ChangeSet>, j: nat)
    requires forall k :: 0 <= k < |h| ==> h[k].index <= j
    ensures UpTo(h, j) == h
    decreases |h|
  {
    if h != [] {
      assert forall k :: 0 <= k < |h[1..]| ==> h[1..][k] == h[k + 1];
      UpToHead(h[1..], j);
    }
  }

  /** A router that has caught up is behind by nothing. */
  lemma CaughtUpIsBehind(ctl: Controller, r: Router, c0: Content)
    requires Tracks(ctl, c0) && CaughtUp(r, ctl)
    ensures Behind(r, ctl, c0)
  {
    UpToHead(ctl.log.history, ctl.log.Head());
  }

  lemma AnswerCatchesUp(ctl: Controller, r: Router, c0: Content)
    requires Tracks(ctl, c0) && Behind(r, ctl, c0) && ctl.log.Replay(r.index + 1).1.Success?
    ensures CaughtUp(Answered(ctl, r), ctl)
  {
    ReplayCatchesUp(r, ctl, c0);
  }

  lemma ReplaysCatchUp(s: System, c0: Content)
    requires Consistent(s, c0) && Enabled(s, Replays)
    ensures CaughtUp(Next(s, Replays).router, s.controller)
  {
    AnswerCatchesUp(s.controller, s.router, c0);
  }

  lemma SendsCatchUp(s: System, c0: Content)
    requires Consistent(s, c0) && Enabled(s, Sends)
    ensures CaughtUp(Next(s, Sends).router, s.controller)
  {
    AnsweredIsLogged(s.controller.log, s.router.index);
    SentCatchesUp(s.router, s.controller, c0);
  }

  lemma CatchUp(s: System, c0: Content, act: Act)
    requires Consistent(s, c0) && Enabled(s, act) && (act.Replays? || act.Sends? || act.Snapshots?)
    ensures CaughtUp(Next(s, act).router, s.controller)
  {
    match act
    case Replays => ReplaysCatchUp(s, c0);
    case Sends => SendsCatchUp(s, c0);
    case Snapshots(o) => SnapshotCatchesUp(s.controller, o);
  }

  lemma StepConsistent(s: System, c0: Content, act: Act)
    requires Consistent(s, c0) && Enabled(s, act)
    ensures Consistent(Next(s, act), c0)
  {
    match act
    case Publishes(cs) => PublishKeepsBehind(s, c0, cs);
    case Delivers(k) => DeliveryKeepsBehind(s, c0, k);
    case _ =>
      CatchUp(s, c0, act);
      CaughtUpIsBehind(s.controller, Next(s, act).router, c0);
      HeadFromHere(s.controller.log);
  }

  /** Whatever is sent in answer to a Success is all the router misses. */
  ghost predicate SendsAll(log: LogView, index: nat)
    requires log.logSize >= 1
  {
    log.Replay(index).1.Success? ==> Sent(log, index) == From(log.history, index + 1)
  }

  lemma NothingToCatchUpOn(ctl: Controller, r: Router, c0: Content)
    requires Tracks(ctl, c0) && Behind(r, ctl, c0) && r.index == ctl.log.Head()
    ensures ReceiverContent(r.model) == SenderContent(ctl.model)
  {
    UpToHead(ctl.log.history, r.index);
  }

  lemma AlwaysSendsAll(log: LogView, index: nat)
    requires log.Ok() && ResetOnce(log) && FromHere(log, index)
    ensures SendsAll(log, index)
  {
    if log.Replay(index).1.Success? {
      NothingLost(log, index);
    }
  }

  ghost predicate CatchesUp(t: System)
    requires t.controller.log.logSize >= 1
  {
    forall act :: Enabled(t, act) && (act.Replays? || act.Sends? || act.Snapshots?) ==>
                    CaughtUp(Next(t, act).router, t.controller)
  }

  lemma ConsistentCatchesUp(t: System, c0: Content)
    requires Consistent(t, c0)
    ensures CatchesUp(t)
  {
    forall act | Enabled(t, act) && (act.Replays? || act.Sends? || act.Snapshots?)
      ensures CaughtUp(Next(t, act).router, t.controller)
    {
      CatchUp(t, c0, act);
    }
  }

  /**
   Over every run from a controller reset once and a router with its content, whatever the interleaving: the router's
   content is the controller's content as of the router's index, the two are equal when the indexes are, and a
   replay or snapshot taken in any reached state makes them equal. The replay from the router's own index, which drops
   its first change set untested, leaves out nothing the router misses.
   */
  lemma {:induction false} ReplicasNeverDiverge(s: System, c0: Content, acts: seq<Act>, t: System)
    requires Consistent(s, c0) && Run(s, acts, t)
    ensures Consistent(t, c0)
    ensures t.router.index == t.controller.log.Head() ==>
              ReceiverContent(t.router.model) == SenderContent(t.controller.model)
    ensures CatchesUp(t) && SendsAll(t.controller.log, t.router.index)
    decreases |acts|
  {
    if acts != [] {
      StepConsistent(s, c0, acts[0]);
      ReplicasNeverDiverge(Next(s, acts[0]), c0, acts[1..], t);
    } else {
      if t.router.index == t.controller.log.Head() { NothingToCatchUpOn(t.controller, t.router, c0); }
      AlwaysSendsAll(t.controller.log, t.router.index);
      ConsistentCatchesUp(t, c0);
    }
  }

  /** A controller reset for the first time can give a snapshot, and the router built from it is consistent with it. */
  lemma StartConsistent(ctl: Controller, o: Order)
    requires ctl.log.logSize >= 1 && ctl.log.history == [] && ctl.log.minEntry == 0
    requires NoNil(ctl.model) && Closed(SenderContent(ctl.model)) && Orders(SenderSource(ctl.model), o)
    ensures FullySynced(ctl, o).Some?
    ensures Consistent(System(ctl, FullySynced(ctl, o).value), SenderContent(ctl.model))
  {
    SnapshotCatchesUp(ctl, o);
    NewTracks(ctl);
    StartsHere(ctl, FullySynced(ctl, o).value, SenderContent(ctl.model));
  }

  lemma NewTracks(ctl: Controller)
    requires ctl.log.logSize >= 1 && ctl.log.history == []
    requires NoNil(ctl.model) && Closed(SenderContent(ctl.model))
    ensures Tracks(ctl, SenderContent(ctl.model))
  {
  }

  lemma StartsHere(ctl: Controller, r: Router, c0: Content)
    requires Tracks(ctl, c0) && CaughtUp(r, ctl) && ResetOnce(ctl.log)
    ensures Consistent(System(ctl, r), c0)
  {
    CaughtUpIsBehind(ctl, r, c0);
    HeadFromHere(ctl.log);
  }
}
