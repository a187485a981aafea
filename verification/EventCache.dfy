/**
 The controller's ring-buffer event log (common/event_cache.go). `LogView` is what the log means: the change
 sets stored since the last reset, of which the ring retains the newest `logSize`. The class is the ring itself.
 */
module EventCache {
  import opened Types

  datatype ReplayResult = Success | FullSyncRequired | RequestFromFuture

  /** base is the index set by the last SetCurrentIndex (0 for a new log); history is everything stored since. */
  datatype LogView = LogView(logSize: nat, base: nat, history: seq<ChangeSet>, minEntry: nat) {

    function Head(): nat {
      if history == [] then base else history[|history| - 1].index
    }

    /** The log's entry number k: entry 0 is the base, entry k is the k-th stored change set. */
    function Entry(k: nat): nat
      requires k <= |history|
    {
      if k == 0 then base else history[k - 1].index
    }

    function Evicted(): nat {
      if |history| <= logSize then 0 else |history| - logSize
    }

    function Retained(): seq<ChangeSet> {
      history[Evicted()..]
    }

    ghost predicate Ok() {
      && logSize >= 1
      && (forall k :: 0 <= k < |history| ==> base < history[k].index && !history[k].synthetic)
      && (forall j, k :: 0 <= j < k < |history| ==> history[j].index < history[k].index)
      && (forall k :: 0 <= k < Evicted() ==> history[k].index < minEntry)
    }

    predicate Accepts(cs: ChangeSet) {
      cs.synthetic || Head() < cs.index
    }

    /** Storing: stale change sets are refused, synthetic ones pass through without being logged. */
    function Stored(cs: ChangeSet): (v: LogView)
      requires logSize >= 1
    {
      if cs.synthetic || !Accepts(cs) then this else
      var overwritten := if |history| + 1 >= logSize then Entry(|history| + 1 - logSize) else 0;
      var min := if overwritten != 0 then overwritten + 1 else minEntry;
      LogView(logSize, base, history + [cs], if min == 0 then cs.index else min)
    }

    /** SetCurrentIndex forgets the history but leaves minEntry as it was. */
    function Reset(index: nat): LogView {
      LogView(logSize, index, [], minEntry)
    }

    /** What a replay request answers. */
    function Replay(start: nat): (r: (seq<ChangeSet>, ReplayResult))
      requires logSize >= 1
    {
      if start > Head() then ([], RequestFromFuture)
      else if history == [] then ([], FullSyncRequired)
      else if start < minEntry && !Logged(start) then ([], FullSyncRequired)
      else (From(Retained(), start), Success)
    }

    /** Whether the change set with this index is still in the ring. */
    predicate Logged(index: nat) {
      exists k :: Evicted() <= k < |history| && history[k].index == index
    }
  }

  /** The change sets of h with index at least start, in order. */
  function From(h: seq<ChangeSet>, start: nat): (r: seq<ChangeSet>)
    ensures |r| <= |h|
  {
    if h == [] then []
    else if h[0].index >= start then [h[0]] + From(h[1..], start)
    else From(h[1..], start)
  }

  ghost predicate Ascending(h: seq<ChangeSet>) {
    forall j, k :: 0 <= j < k < |h| ==> h[j].index < h[k].index
  }

  /** On an ascending log the qualifying change sets are a suffix. */
  lemma {:induction false} FromIsSuffix(h: seq<ChangeSet>, start: nat, i: nat)
    requires Ascending(h) && i <= |h|
    requires forall k :: 0 <= k < i ==> h[k].index < start
    requires forall k :: i <= k < |h| ==> h[k].index >= start
    ensures From(h, start) == h[i..]
  {
    if h != [] {
      assert h[1..][..] == h[1..];
      if i > 0 {
        FromIsSuffix(h[1..], start, i - 1);
        assert h[1..][i - 1..] == h[i..];
      } else {
        FromIsSuffix(h[1..], start, 0);
        assert [h[0]] + h[1..][0..] == h;
      }
    }
  }

  /** Where the qualifying suffix starts. */
  lemma Split(h: seq<ChangeSet>, start: nat) returns (i: nat)
    requires Ascending(h)
    ensures i <= |h| && From(h, start) == h[i..]
    ensures forall k :: 0 <= k < i ==> h[k].index < start
    ensures forall k :: i <= k < |h| ==> h[k].index >= start
    ensures i < |h| ==> h[i].index >= start
  {
    i := 0;
    while i < |h| && h[i].index < start
      invariant i <= |h|
      invariant forall k :: 0 <= k < i ==> h[k].index < start
    {
      i := i + 1;
    }
    FromIsSuffix(h, start, i);
  }

  lemma FromAscending(h: seq<ChangeSet>, start: nat)
    requires Ascending(h)
    ensures Ascending(From(h, start))
  {
    var i := Split(h, start);
  }

  lemma StoredKeepsOk(v: LogView, cs: ChangeSet)
    requires v.Ok()
    ensures v.Stored(cs).Ok()
    ensures v.Stored(cs).Head() == if cs.synthetic || !v.Accepts(cs) then v.Head() else cs.index
  {
    var w := v.Stored(cs);
    if w != v {
      forall k | 0 <= k < w.Evicted() ensures w.history[k].index < w.minEntry {
        assert w.history[k] == v.history[k];
        if v.Evicted() < w.Evicted() {
          assert v.Entry(|v.history| + 1 - v.logSize) == v.history[|v.history| - v.logSize].index;
        }
      }
    }
  }

  /** A request that is answered with Success reaches back no further than the ring does. */
  lemma AnsweredIsRetained(v: LogView, start: nat)
    requires v.Ok() && v.Replay(start).1.Success?
    ensures forall j :: 0 <= j < v.Evicted() ==> v.history[j].index < start
  {
    if v.Logged(start) {
      var k :| v.Evicted() <= k < |v.history| && v.history[k].index == start;
      assert forall j :: 0 <= j < v.Evicted() ==> v.history[j].index < v.history[k].index;
    }
  }

  /** The qualifying entries of a suffix are those of the whole, when everything cut off is below the request. */
  lemma FromDrop(h: seq<ChangeSet>, e: nat, start: nat)
    requires Ascending(h) && e <= |h|
    requires forall j :: 0 <= j < e ==> h[j].index < start
    ensures From(h[e..], start) == From(h, start)
  {
    var i := Split(h, start);
    FromIsSuffix(h[e..], start, i - e);
    assert h[e..][i - e..] == h[i..];
  }

  /**
   Replay is complete and ordered: Success returns, in ascending index order, exactly the change sets stored since
   the last reset whose index is at least the request, although only the ring's newest entries are kept.
   */
  lemma ReplayComplete(v: LogView, start: nat)
    requires v.Ok()
    ensures v.Replay(start).1.Success? ==>
              && v.Replay(start).0 == From(v.history, start)
              && Ascending(v.Replay(start).0)
              && v.Replay(start).0 != []
    ensures v.Replay(start).1.RequestFromFuture? <==> start > v.Head()
    ensures v.Replay(start).1.FullSyncRequired? <==>
              start <= v.Head() && (v.history == [] || (start < v.minEntry && !v.Logged(start)))
  {
    if v.Replay(start).1.Success? {
      AnsweredIsRetained(v, start);
      FromDrop(v.history, v.Evicted(), start);
      FromAscending(v.history, start);
      var i := Split(v.history, start);
    }
  }

  /** A run of stores from a reset log: what is in the history is what was accepted. */
  function StoreAll(v: LogView, css: seq<ChangeSet>): (w: LogView)
    requires v.logSize >= 1
    ensures w.logSize == v.logSize
    decreases |css|
  {
    if css == [] then v else StoreAll(v.Stored(css[0]), css[1..])
  }

  /**
   Every reachable log meets the invariant replay completeness rests on, whatever is stored (stale, synthetic,
   gapped) and however often the ring wraps.
   */
  lemma {:induction false} ReachableLogOk(v: LogView, index: nat, css: seq<ChangeSet>)
    requires v.logSize >= 1
    ensures StoreAll(v.Reset(index), css).Ok()
  {
    StoreAllOk(v.Reset(index), css);
  }

  lemma {:induction false} StoreAllOk(v: LogView, css: seq<ChangeSet>)
    requires v.Ok()
    ensures StoreAll(v, css).Ok() && StoreAll(v, css).base == v.base && StoreAll(v, css).logSize == v.logSize
    ensures v.history <= StoreAll(v, css).history
    decreases |css|
  {
    if css != [] {
      StoredKeepsOk(v, css[0]);
      StoreAllOk(v.Stored(css[0]), css[1..]);
    }
  }

  /**
   Because Reset leaves minEntry alone, a second epoch can answer Success to a request from before the reset,
   although whatever was stored between that index and the reset is gone from the answer.
   */
  lemma StaleMinimumAnswersAcrossReset(first: ChangeSet, lost: ChangeSet, later: ChangeSet)
    requires first.index == 1 && lost.index == 2 && later.index == 11
    requires !first.synthetic && !lost.synthetic && !later.synthetic
    ensures LogView(4, 0, [], 0).Stored(first).Stored(lost).Reset(10).Stored(later).Replay(2) == ([later], Success)
  {
    var v := LogView(4, 0, [], 0).Stored(first).Stored(lost).Reset(10).Stored(later);
    assert v.history == [later] && v.minEntry == 1;
    assert v.Retained() == [later];
    FromIsSuffix([later], 2, 0);
  }

  lemma {:induction false} FromConcat(h: seq<ChangeSet>, g: seq<ChangeSet>, start: nat)
    ensures From(h + g, start) == From(h, start) + From(g, start)
    decreases |h|
  {
    if h == [] {
      assert h + g == g;
    } else {
      assert (h + g)[1..] == h[1..] + g;
      FromConcat(h[1..], g, start);
    }
  }

  /**
   When a Success answer after a reset covers everything ever stored, the epoch before the reset included:
   exactly when the request is above the index the log stood at before the reset.
   */
  lemma CompleteAcrossReset(before: LogView, index: nat, css: seq<ChangeSet>, start: nat)
    requires before.Ok() && before.history != []
    requires StoreAll(before.Reset(index), css).Replay(start).1.Success?
    ensures
      var v := StoreAll(before.Reset(index), css);
      v.Replay(start).0 == From(before.history + v.history, start) <==> start > before.Head()
  {
    var v := StoreAll(before.Reset(index), css);
    StoreAllOk(before.Reset(index), css);
    ReplayComplete(v, start);
    FromConcat(before.history, v.history, start);
    var i := Split(before.history, start);
    assert From(before.history, start) == [] <==> start > before.Head();
    assert |From(before.history + v.history, start)| == |From(before.history, start)| + |From(v.history, start)|;
  }

  // ---- the ring ---------------------------------------------------------------------------------------

  /** How many stores ago slot j was written. */
  function Age(logSize: nat, head: nat, j: nat): int {
    if j <= head then head - j else head - j + logSize
  }

  function NextSlot(head: nat, logSize: nat): (next: nat)
    requires head < logSize
    ensures next == if head + 1 == logSize then 0 else head + 1
  {
    (head + 1) % logSize
  }

  /** Slot j holds the entry that many stores back from the newest; slots never reached are 0. */
  ghost predicate Ring(log: seq<nat>, head: nat, v: LogView) {
    && |log| == v.logSize
    && head < v.logSize
    && forall j :: 0 <= j < |log| ==>
         log[j] == var age := Age(v.logSize, head, j); if age <= |v.history| then v.Entry(|v.history| - age) else 0
  }

  /** The events map holds exactly the retained change sets, by index. */
  ghost predicate Indexed(events: map<nat, ChangeSet>, v: LogView) {
    && (forall k :: v.Evicted() <= k < |v.history| ==>
          v.history[k].index in events && events[v.history[k].index] == v.history[k])
    && (forall x :: x in events ==> v.Logged(x))
  }

  lemma RingStored(log: seq<nat>, head: nat, v: LogView, cs: ChangeSet, next: nat)
    requires Ring(log, head, v) && !cs.synthetic && v.Accepts(cs)
    requires next == if head + 1 == v.logSize then 0 else head + 1
    ensures log[next] == if |v.history| + 1 >= v.logSize then v.Entry(|v.history| + 1 - v.logSize) else 0
    ensures Ring(log[next := cs.index], next, v.Stored(cs))
  {
    var w := v.Stored(cs);
    var n := |v.history|;
    assert Age(v.logSize, head, next) == v.logSize - 1;
    forall j | 0 <= j < |log|
      ensures log[next := cs.index][j] ==
              var age := Age(w.logSize, next, j); if age <= n + 1 then w.Entry(n + 1 - age) else 0
    {
      if j != next {
        assert Age(w.logSize, next, j) == Age(v.logSize, head, j) + 1;
        assert forall k :: 0 <= k <= n ==> w.Entry(k) == v.Entry(k);
      }
    }
  }

  /** The entry map after a store: the entry overwritten in the ring is gone, the new one there. */
  function Restored(events: map<nat, ChangeSet>, prev: nat, cs: ChangeSet): map<nat, ChangeSet> {
    (if prev != 0 then events - {prev} else events)[cs.index := cs]
  }

  lemma KeptStored(events: map<nat, ChangeSet>, v: LogView, cs: ChangeSet, prev: nat, k: nat)
    requires v.Ok() && Indexed(events, v) && !cs.synthetic && v.Accepts(cs)
    requires prev == if |v.history| + 1 >= v.logSize then v.Entry(|v.history| + 1 - v.logSize) else 0
    requires v.Stored(cs).Evicted() <= k < |v.history|
    ensures v.history[k].index in Restored(events, prev, cs)
    ensures Restored(events, prev, cs)[v.history[k].index] == v.history[k]
  {
    assert v.history[k].index <= v.Head();
  }

  lemma OnlyStored(events: map<nat, ChangeSet>, v: LogView, cs: ChangeSet, prev: nat, x: nat)
    requires v.Ok() && Indexed(events, v) && !cs.synthetic && v.Accepts(cs)
    requires prev == if |v.history| + 1 >= v.logSize then v.Entry(|v.history| + 1 - v.logSize) else 0
    requires x in Restored(events, prev, cs)
    ensures v.Stored(cs).Logged(x)
  {
    var w, n := v.Stored(cs), |v.history|;
    if x == cs.index {
      assert w.history[n].index == x;
    } else {
      var k :| v.Evicted() <= k < n && v.history[k].index == x;
      assert w.history[k] == v.history[k];
      assert n >= v.logSize ==> prev == v.history[n - v.logSize].index;
    }
  }

  lemma IndexedStored(events: map<nat, ChangeSet>, v: LogView, cs: ChangeSet, prev: nat)
    requires v.Ok() && Indexed(events, v) && !cs.synthetic && v.Accepts(cs)
    requires prev == if |v.history| + 1 >= v.logSize then v.Entry(|v.history| + 1 - v.logSize) else 0
    ensures Indexed(Restored(events, prev, cs), v.Stored(cs))
  {
    var w, n, after := v.Stored(cs), |v.history|, Restored(events, prev, cs);
    forall k | w.Evicted() <= k < n + 1
      ensures w.history[k].index in after && after[w.history[k].index] == w.history[k]
    {
      if k < n {
        KeptStored(events, v, cs, prev, k);
      }
    }
    forall x | x in after ensures w.Logged(x) {
      OnlyStored(events, v, cs, prev, x);
    }
  }

  lemma StoreStep(log: seq<nat>, head: nat, events: map<nat, ChangeSet>, v: LogView, cs: ChangeSet, next: nat,
                  prev: nat)
    requires v.Ok() && Ring(log, head, v) && Indexed(events, v) && !cs.synthetic && v.Accepts(cs)
    requires next == NextSlot(head, v.logSize) && prev == log[next]
    ensures v.Stored(cs).Ok()
    ensures Ring(log[next := cs.index], next, v.Stored(cs))
    ensures Indexed((if prev != 0 then events - {prev} else events)[cs.index := cs], v.Stored(cs))
    ensures v.Stored(cs) == LogView(v.logSize, v.base, v.history + [cs],
                                    if prev != 0 then prev + 1 else if v.minEntry == 0 then cs.index else v.minEntry)
  {
    StoredKeepsOk(v, cs);
    RingStored(log, head, v, cs, next);
    IndexedStored(events, v, cs, prev);
  }

  /** The slot of a retained entry. */
  function SlotOf(v: LogView, head: nat, at: nat): (j: nat)
    requires head < v.logSize && v.Evicted() <= at < |v.history|
    ensures j < v.logSize && Age(v.logSize, head, j) == |v.history| - 1 - at
  {
    var age := |v.history| - 1 - at;
    if age <= head then head - age else head - age + v.logSize
  }

  /** Entries have distinct non-zero indexes, so only one slot holds a given one. */
  lemma SlotUnique(log: seq<nat>, head: nat, v: LogView, at: nat, slot: nat)
    requires v.Ok() && Ring(log, head, v) && v.Evicted() <= at < |v.history| && slot < v.logSize
    requires log[slot] == v.history[at].index
    ensures slot == SlotOf(v, head, at)
  {
    var k := |v.history| - Age(v.logSize, head, slot);
    assert log[slot] != 0;
    assert v.Entry(k) == v.history[at].index;
    assert k - 1 == at;
  }

  /** The walk upwards from the request stops at the first retained entry at or above it. */
  lemma WalkStops(events: map<nat, ChangeSet>, v: LogView, startIndex: nat, start: nat) returns (at: nat)
    requires v.Ok() && Indexed(events, v) && startIndex <= start && start in events
    requires start > startIndex ==> startIndex >= v.minEntry
    requires forall x :: startIndex <= x < start ==> x !in events
    ensures v.Evicted() <= at < |v.history| && v.history[at].index == start
    ensures v.Replay(startIndex) == (v.history[at..], Success)
  {
    at :| v.Evicted() <= at < |v.history| && v.history[at].index == start;
    forall k | v.Evicted() <= k < at ensures v.history[k].index < startIndex {
      assert v.history[k].index in events;
    }
    assert start == startIndex ==> v.Logged(startIndex);
    ReplayAnswers(v, startIndex, at);
  }

  lemma ReplayAnswers(v: LogView, startIndex: nat, at: nat)
    requires v.Ok() && v.Evicted() <= at < |v.history| && startIndex <= v.history[at].index
    requires forall k :: v.Evicted() <= k < at ==> v.history[k].index < startIndex
    requires startIndex >= v.minEntry || v.Logged(startIndex)
    ensures v.Replay(startIndex) == (v.history[at..], Success)
  {
    FromMiddle(v.history, v.Evicted(), at, startIndex);
    assert v.history[|v.history| - 1].index >= v.history[at].index;
  }

  lemma FromMiddle(h: seq<ChangeSet>, e: nat, at: nat, start: nat)
    requires Ascending(h) && e <= at < |h|
    requires forall k :: e <= k < at ==> h[k].index < start
    requires start <= h[at].index
    ensures From(h[e..], start) == h[at..]
  {
    FromIsSuffix(h[e..], start, at - e);
    assert h[e..][at - e..] == h[at..];
  }

  /** A request below the minimum that is not in the ring itself is refused. */
  lemma BelowMinimum(events: map<nat, ChangeSet>, v: LogView, startIndex: nat)
    requires Indexed(events, v) && startIndex <= v.Head() && startIndex < v.minEntry && startIndex !in events &&
             v.logSize >= 1
    ensures v.Replay(startIndex) == ([], FullSyncRequired)
  {
    assert forall k :: v.Evicted() <= k < |v.history| ==> v.history[k].index in events;
    assert !v.Logged(startIndex);
  }

  /** If no entry lies between the request and the head, nothing has been stored since the reset. */
  lemma WalkFails(events: map<nat, ChangeSet>, v: LogView, startIndex: nat)
    requires Indexed(events, v) && startIndex <= v.Head() && v.logSize >= 1
    requires forall x :: startIndex <= x <= v.Head() ==> x !in events
    ensures v.history == []
  {
    var n := |v.history|;
    assert n > 0 ==> v.history[n - 1].index in events;
  }

  /** The log entries from a slot up to the head, around the end of the ring if need be. */
  function KeysFrom(ring: seq<nat>, head: nat, slot: nat): seq<nat>
    requires head < |ring| && slot < |ring|
  {
    if slot <= head then ring[slot..head + 1] else ring[slot..] + ring[..head + 1]
  }

  /** They are the indexes of the newest entries, oldest first. */
  lemma KeysAreNewest(ring: seq<nat>, head: nat, events: map<nat, ChangeSet>, v: LogView, at: nat)
    requires v.logSize >= 1 && Ring(ring, head, v) && Indexed(events, v) && v.Evicted() <= at < |v.history|
    ensures
      var keys := KeysFrom(ring, head, SlotOf(v, head, at));
      && |keys| == |v.history| - at
      && (forall k :: 0 <= k < |keys| ==> keys[k] in events && events[keys[k]] == v.history[at + k])
  {
    var slot := SlotOf(v, head, at);
    var keys := KeysFrom(ring, head, slot);
    forall k | 0 <= k < |keys| ensures keys[k] in events && events[keys[k]] == v.history[at + k] {
      var j := if slot + k < |ring| then slot + k else slot + k - |ring|;
      assert keys[k] == ring[j] && Age(v.logSize, head, j) == |v.history| - 1 - (at + k);
      assert v.Entry(at + k + 1) == v.history[at + k].index;
    }
  }

  method ChangeSetsOf(keys: seq<nat>, events: map<nat, ChangeSet>) returns (result: seq<ChangeSet>)
    requires forall k :: 0 <= k < |keys| ==> keys[k] in events
    ensures |result| == |keys| && forall k :: 0 <= k < |keys| ==> result[k] == events[keys[k]]
  {
    result := [];
    for k := 0 to |keys|
      invariant |result| == k && forall j :: 0 <= j < k ==> result[j] == events[keys[j]]
    {
      result := result + [events[keys[k]]];
    }
  }

  lemma SameAsSuffix(result: seq<ChangeSet>, h: seq<ChangeSet>, at: nat)
    requires at <= |h| && |result| == |h| - at && forall k :: 0 <= k < |result| ==> result[k] == h[at + k]
    ensures result == h[at..]
  {
  }

  /** The ring buffer. */
  class LoggingEventCache {
    var headLogIndex: nat
    var minEntryIndex: nat
    const logSize: nat
    var log: array<nat>
    var events: map<nat, ChangeSet>
    ghost var base: nat
    ghost var history: seq<ChangeSet>

    ghost function View(): LogView
      reads this
    {
      LogView(logSize, base, history, minEntryIndex)
    }

    ghost predicate Valid()
      reads this, log
    {
      && View().Ok()
      && Ring(log[..], headLogIndex, View())
      && Indexed(events, View())
    }

    constructor (logSize: nat)
      requires logSize >= 1
      ensures Valid() && fresh(log)
      ensures View() == LogView(logSize, 0, [], 0)
    {
      this.logSize := logSize;
      headLogIndex, minEntryIndex := 0, 0;
      log := new nat[logSize](_ => 0);
      events := map[];
      base, history := 0, [];
    }

    method SetCurrentIndex(index: nat)
      requires Valid()
      modifies this
      ensures Valid() && fresh(log)
      ensures View() == old(View()).Reset(index)
    {
      headLogIndex := 0;
      log := new nat[logSize](_ => 0);
      log[0] := index;
      events := map[];
      base, history := index, [];
    }

    method CurrentIndex() returns (index: nat)
      requires Valid()
      ensures index == View().Head()
    {
      index := log[headLogIndex];
      assert index == log[..][headLogIndex];
      assert Age(logSize, headLogIndex, headLogIndex) == 0;
    }

    /** ok is false for an out of order change set, which leaves the log untouched. */
    method Store(cs: ChangeSet) returns (ok: bool)
      requires Valid()
      modifies this, log
      ensures Valid() && log == old(log)
      ensures ok == old(View()).Accepts(cs)
      ensures View() == old(View()).Stored(cs)
    {
      if cs.synthetic {
        return true;
      }
      var currentIndex := CurrentIndex();
      if currentIndex >= cs.index {
        return false;
      }
      Append(cs);
      return true;
    }

    /** The oldest entry makes room once the ring has wrapped around. */
    method Append(cs: ChangeSet)
      requires Valid() && !cs.synthetic && View().Accepts(cs)
      modifies this, log
      ensures Valid() && log == old(log) && View() == old(View()).Stored(cs)
    {
      ghost var v, ring := View(), log[..];
      ghost var w := v.Stored(cs);
      var targetLogIndex := NextSlot(headLogIndex, logSize);
      var prevCachedIndex := log[targetLogIndex];
      StoreStep(ring, headLogIndex, events, v, cs, targetLogIndex, prevCachedIndex);
      var kept := if prevCachedIndex != 0 then events - {prevCachedIndex} else events;
      minEntryIndex := if prevCachedIndex != 0 then prevCachedIndex + 1
                       else if minEntryIndex == 0 then cs.index else minEntryIndex;
      history := history + [cs];
      assert View() == w;
      log[targetLogIndex] := cs.index;
      headLogIndex := targetLogIndex;
      assert log[..] == ring[targetLogIndex := cs.index];
      events := kept[cs.index := cs];
      assert View() == w;
    }

    /** The request moves up to the first entry at or above it, unless it must be refused. */
    method FirstEntry(startIndex: nat, headIndex: nat) returns (start: nat, outcome: ReplayResult)
      requires Valid() && headIndex == View().Head()
      ensures !outcome.Success? ==> View().Replay(startIndex) == ([], outcome)
      ensures outcome.Success? ==>
                && startIndex <= start && start in events && (start > startIndex ==> startIndex >= minEntryIndex)
                && forall x :: startIndex <= x < start ==> x !in events
    {
      start := startIndex;
      while start !in events
        invariant startIndex <= start
        invariant start > startIndex ==> startIndex >= minEntryIndex && start <= headIndex
        invariant forall x :: startIndex <= x < start ==> x !in events
        decreases headIndex + 1 - start
      {
        if start > headIndex {
          return start, RequestFromFuture;
        }
        if start < minEntryIndex {
          BelowMinimum(events, View(), startIndex);
          return start, FullSyncRequired;
        }
        start := start + 1;
        if start > headIndex {
          WalkFails(events, View(), startIndex);
          return start, FullSyncRequired;
        }
      }
      return start, Success;
    }

    /** The replay request, searching the ring from the guessed slot. */
    method ReplayFrom(startIndex: nat) returns (result: seq<ChangeSet>, outcome: ReplayResult)
      requires Valid()
      ensures (result, outcome) == View().Replay(startIndex)
    {
      var headIndex := CurrentIndex();
      var start: nat;
      start, outcome := FirstEntry(startIndex, headIndex);
      if !outcome.Success? {
        return [], outcome;
      }
      ghost var at := WalkStops(events, View(), startIndex, start);
      var startLogIndex := FindSlot(start, headIndex, at);
      KeysAreNewest(log[..], headLogIndex, events, View(), at);
      result := ChangeSetsOf(KeysFrom(log[..], headLogIndex, startLogIndex), events);
      SameAsSuffix(result, history, at);
    }

    /** The linear search: from the guess to the end, then from the beginning up to the guess. */
    method FindSlot(start: nat, headIndex: nat, ghost at: nat) returns (slot: nat)
      requires Valid() && View().Evicted() <= at < |history|
      requires start == history[at].index && headIndex == View().Head()
      ensures slot == SlotOf(View(), headLogIndex, at)
    {
      ghost var v, ring := View(), log[..];
      ghost var goal := SlotOf(v, headLogIndex, at);
      assert ring[goal] == start by { assert v.Entry(at + 1) == start; }
      assert start <= headIndex;
      var tryOffset := headIndex - start;
      var tryStartIndex := if headLogIndex - tryOffset >= 0 then headLogIndex - tryOffset else 0;
      slot := tryStartIndex;
      while slot < logSize
        invariant tryStartIndex <= slot <= logSize
        invariant goal < tryStartIndex || slot <= goal
      {
        if log[slot] == start {
          SlotUnique(ring, headLogIndex, v, at, slot);
          return;
        }
        slot := slot + 1;
      }
      slot := 0;
      while slot < tryStartIndex
        invariant slot <= tryStartIndex
        invariant slot <= goal
      {
        if log[slot] == start {
          SlotUnique(ring, headLogIndex, v, at, slot);
          return;
        }
        slot := slot + 1;
      }
      assert false;
    }
  }
}
