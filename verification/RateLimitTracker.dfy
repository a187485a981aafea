/** The moving window shared by the two limiters of controller/command/rate_limiter.go. */
module RateLimitWindows {

  /** The success counter is an unsigned 32 bit number. */
  const WRAP := 0x1_0000_0000

  function Min(a: int, b: int): int {
    if a < b then a else b
  }

  function Max(a: int, b: int): int {
    if a < b then b else a
  }

  datatype Window = Window(min: int, max: int, current: int, successes: nat) {
    predicate Ok() {
      1 <= min <= current <= max && successes < WRAP
    }

    /** Every tenth success widens the window by one, up to the maximum. */
    function Counted(): (w: Window)
      ensures w.min == min && w.max == max && w.successes == (successes + 1) % WRAP
      ensures Ok() ==> w.Ok() && w.current == Min(max, current + if w.successes % 10 == 0 then 1 else 0)
    {
      var n := (successes + 1) % WRAP;
      var next := if current + 1 > max then max else current + 1;
      this.(successes := n, current := if n % 10 == 0 then next else current)
    }

    /** Successes are not counted while the window is at its maximum. */
    function Widened(): (w: Window)
      ensures w.min == min && w.max == max && (current >= max ==> w == this)
      ensures current < max ==>
                w.successes == (successes + 1) % WRAP && w.current == current + if w.successes % 10 == 0 then 1 else 0
      ensures Ok() ==> w.Ok()
    {
      if current >= max then this else Counted()
    }

    /** A backoff narrows the window to ten below the work's position on entry, but not below the minimum. */
    function Narrowed(queuePosition: int): (w: Window)
      ensures Ok() ==> w.Ok() && w == this.(current := Max(min, Min(current, queuePosition - 10)))
    {
      var next := queuePosition - 10;
      if current <= min || next >= current then this
      else this.(current := if next < min then min else next)
    }
  }

  // ---- many successes ---------------------------------------------------------------------------------------

  function Succeeded(w: Window, k: nat): Window {
    if k == 0 then w else Succeeded(w, k - 1).Widened()
  }

  /** How many of the first n values of the wrapping counter after 0 are multiples of ten. */
  function Tens(n: nat): nat {
    if n == 0 then 0 else Tens(n - 1) + if n % WRAP % 10 == 0 then 1 else 0
  }

  function TensClosed(n: nat): nat {
    n / WRAP * 429496730 + n % WRAP / 10
  }

  lemma ClosedStep(n: nat)
    ensures TensClosed(n + 1) == TensClosed(n) + if (n + 1) % WRAP % 10 == 0 then 1 else 0
  {
    var q, r := n / WRAP, n % WRAP;
    assert n == q * WRAP + r;
    if r + 1 == WRAP {
      assert n + 1 == (q + 1) * WRAP;
    } else {
      assert (n + 1) / WRAP == q && (n + 1) % WRAP == r + 1;
    }
  }

  lemma {:induction false} TensAre(n: nat)
    ensures Tens(n) == TensClosed(n)
  {
    if n > 0 {
      TensAre(n - 1);
      ClosedStep(n - 1);
    }
  }

  lemma CounterStep(c: nat, k: nat)
    ensures ((c + k) % WRAP + 1) % WRAP == (c + k + 1) % WRAP
  {
    var q := (c + k) / WRAP;
    assert c + k == q * WRAP + (c + k) % WRAP;
  }

  lemma TensWithin(c: nat)
    requires c < WRAP
    ensures Tens(c) == c / 10
  {
    TensAre(c);
  }

  lemma TensBeyond(c: nat)
    requires WRAP <= c < 2 * WRAP
    ensures Tens(c) == 429496730 + (c - WRAP) / 10
  {
    TensAre(c);
    assert c / WRAP == 1 && c % WRAP == c - WRAP;
  }

  lemma TensInTen(c: nat)
    requires c < WRAP
    ensures Tens(c + 10) - Tens(c) == if WRAP - 10 <= c <= WRAP - 7 then 2 else 1
  {
    TensWithin(c);
    if c + 10 < WRAP {
      TensWithin(c + 10);
    } else {
      TensBeyond(c + 10);
    }
  }

  /** One more success, the window having grown by tens so far. */
  lemma OneSuccess(w: Window, v: Window, tens: nat, more: nat, n: nat)
    requires w.Ok() && v.Ok() && v.min == w.min && v.max == w.max && v.current == Min(w.max, w.current + tens)
    requires v.current < w.max ==> v.successes == n % WRAP
    requires more == tens + if (n + 1) % WRAP % 10 == 0 then 1 else 0
    ensures
      var u := v.Widened();
      && u.Ok() && u.min == w.min && u.max == w.max && u.current == Min(w.max, w.current + more)
      && (u.current < w.max ==> u.successes == (n + 1) % WRAP)
  {
    CounterStep(n, 0);
  }

  ghost predicate Grown(w: Window, v: Window, tens: int, n: nat) {
    && v.Ok() && v.min == w.min && v.max == w.max && v.current == Min(w.max, w.current + tens)
    && (v.current < w.max ==> v.successes == n % WRAP)
  }

  /**
   After any number of successes the window has grown by the tens its counter passed, up to the maximum, where it stops
   counting.
   */
  lemma {:induction false} SuccessesWiden(w: Window, k: nat)
    requires w.Ok()
    ensures
      var tens := Tens(w.successes + k) - Tens(w.successes);
      tens >= 0 && Grown(w, Succeeded(w, k), tens, w.successes + k)
  {
    if k > 0 {
      var c := w.successes;
      SuccessesWiden(w, k - 1);
      OneSuccess(w, Succeeded(w, k - 1), Tens(c + k - 1) - Tens(c), Tens(c + k) - Tens(c), c + k - 1);
    }
  }

  /**
   Ten successes in a row widen a window below its maximum by exactly one, unless the counter wraps so that 4294967290
   and 0 are both among its ten values: then by two, if there is room.
   */
  lemma TenSuccesses(w: Window)
    requires w.Ok() && w.current < w.max
    ensures Succeeded(w, 10).current ==
            Min(w.max, w.current + if WRAP - 10 <= w.successes <= WRAP - 7 then 2 else 1)
  {
    SuccessesWiden(w, 10);
    TensInTen(w.successes);
  }

  lemma WrapWidensTwice()
    ensures Succeeded(Window(1, 100, 50, 4294967288), 10).current == 52
  {
    TenSuccesses(Window(1, 100, 50, 4294967288));
  }

  lemma TensInFewer(c: nat, k: nat)
    requires c < WRAP && c % 10 == 0 && k < 10
    ensures Tens(c + k) - Tens(c) == if c == WRAP - 6 && k >= 6 then 1 else 0
  {
    TensWithin(c);
    if c + k < WRAP {
      TensWithin(c + k);
    } else {
      TensBeyond(c + k);
    }
  }

  /** From a full ten on, fewer than ten leave the window alone, but for the wrap after the last full ten. */
  lemma FewerThanTen(w: Window, k: nat)
    requires w.Ok() && w.current < w.max && w.successes % 10 == 0 && k < 10
    ensures Succeeded(w, k).current == w.current <==> !(w.successes == WRAP - 6 && k >= 6)
  {
    SuccessesWiden(w, k);
    TensInFewer(w.successes, k);
  }
}

/**
 adaptiveRateLimitTracker (controller/command/rate_limiter.go): admission into a moving window, and the race between
 Success, Backoff, Failed and expiry to complete each admitted work.
 */
module RateLimitTrackers {
  import opened Types
  import opened RateLimitWindows

  datatype Outcome = Success | Backoff | Failed

  datatype Work = Work(queuePosition: int, createTime: int)

  /** The fields guarded by the lock. Works are keyed by their unique id. */
  datatype Tracker = Tracker(window: Window, size: int, outstanding: map<Id, Work>) {
    ghost predicate Ok() {
      window.Ok() && size == |outstanding| && size <= window.max
    }

    function Admitted(id: Id, now: int): (t: Tracker)
      ensures id !in outstanding ==> (id in t.outstanding <==> size < window.current)
      ensures size < window.current ==>
                t.size == size + 1 && t.outstanding == outstanding[id := Work(t.size, now)] && t.window == window
      ensures size >= window.current ==> t == this
    {
      if size + 1 > window.current then this
      else this.(size := size + 1, outstanding := outstanding[id := Work(size + 1, now)])
    }

    function Released(id: Id, outcome: Outcome): Tracker
      requires id in outstanding
    {
      var t := this.(size := size - 1, outstanding := outstanding - {id});
      match outcome
      case Success => t.(window := window.Widened())
      case Backoff => t.(window := window.Narrowed(outstanding[id].queuePosition))
      case Failed => t
    }
  }

  lemma AdmittedOk(t: Tracker, id: Id, now: int)
    requires t.Ok() && id !in t.outstanding
    ensures t.Admitted(id, now).Ok()
  {
    assert t.outstanding[id := Work(t.size + 1, now)].Keys == t.outstanding.Keys + {id};
  }

  lemma ReleasedOk(t: Tracker, id: Id, outcome: Outcome)
    requires t.Ok() && id in t.outstanding
    ensures t.Released(id, outcome).Ok()
    ensures t.Released(id, outcome).outstanding == t.outstanding - {id}
  {
    assert (t.outstanding - {id}).Keys == t.outstanding.Keys - {id};
  }

  ghost predicate AreGone(works: map<Id, Work>, now: map<Id, Work>, gone: set<Id>) {
    forall id :: (id in now <==> id in works && id !in gone) && (id in now ==> now[id] == works[id])
  }

  lemma GoneMore(works: map<Id, Work>, now: map<Id, Work>, next: map<Id, Work>, gone: set<Id>, id: Id)
    requires AreGone(works, now, gone) && AreGone(now, next, {id})
    ensures AreGone(works, next, gone + {id})
  {
  }

  lemma GoneIsMinus(works: map<Id, Work>, now: map<Id, Work>, gone: set<Id>)
    requires AreGone(works, now, gone)
    ensures now == works - gone
  {
    var rest := works - gone;
    assert forall id :: id in now.Keys <==> id in rest.Keys;
    assert now.Keys == rest.Keys;
    assert forall id :: id in now ==> now[id] == rest[id];
  }

  lemma TakenOnce(works: seq<Id>, k: nat)
    requires Distinct(works) && k < |works|
    ensures works[k] !in ToSet(works[..k]) && ToSet(works[..k + 1]) == ToSet(works[..k]) + {works[k]}
  {
    assert works[..k + 1] == works[..k] + [works[k]];
  }

  // ---- the tracker -------------------------------------------------------------------------------------------

  class AdaptiveRateLimitTracker {
    const minWindow: int
    const maxWindow: int
    const timeout: int
    var currentWindow: int
    var currentSize: int
    var successCounter: nat
    var outstandingWork: map<Id, Work>
    /** The completed flags of the works handed out. */
    var completed: set<Id>

    function Value(): Tracker
      reads this
    {
      Tracker(Window(minWindow, maxWindow, currentWindow, successCounter), currentSize, outstandingWork)
    }

    ghost predicate Valid()
      reads this
    {
      Value().Ok() && forall id :: id in outstandingWork ==> id !in completed
    }

    constructor (minSize: int, maxSize: int, timeout: int)
      requires 1 <= minSize <= maxSize
      ensures Valid() && Value() == Tracker(Window(minSize, maxSize, maxSize, 0), 0, map[]) && completed == {}
      ensures this.timeout == timeout
    {
      minWindow, maxWindow, this.timeout := minSize, maxSize, timeout;
      currentWindow, currentSize, successCounter, outstandingWork := maxSize, 0, 0, map[];
      completed := {};
    }

    method IsRateLimited() returns (limited: bool)
      requires Valid()
      ensures limited <==> currentSize >= currentWindow
      ensures limited <==> forall id, now :: Value().Admitted(id, now) == Value()
    {
      limited := currentSize >= currentWindow;
      if !limited {
        assert Value().Admitted(0, 0).size == currentSize + 1;
      }
    }

    method RunRateLimited(id: Id, now: int) returns (admitted: bool)
      requires Valid() && id !in outstandingWork && id !in completed
      modifies this
      ensures Valid() && Value() == old(Value()).Admitted(id, now) && completed == old(completed)
      ensures admitted == (id in outstandingWork) && currentWindow == old(currentWindow)
      ensures admitted <==> old(currentSize) < old(currentWindow)
      ensures admitted ==> currentSize == old(currentSize) + 1 &&
                           outstandingWork == old(outstandingWork)[id := Work(currentSize, now)]
      ensures !admitted ==> currentSize == old(currentSize) && outstandingWork == old(outstandingWork)
    {
      AdmittedOk(Value(), id, now);
      currentSize := currentSize + 1;
      if currentSize > currentWindow {
        currentSize := currentSize - 1;
        return false;
      }
      outstandingWork := outstandingWork[id := Work(currentSize, now)];
      return true;
    }

    method RecordSuccess(id: Id)
      requires Valid() && id in outstandingWork
      modifies `currentWindow, `currentSize, `successCounter, `outstandingWork
      ensures Valid() && Value() == old(Value()).Released(id, Success)
      ensures currentSize == old(currentSize) - 1 && outstandingWork == old(outstandingWork) - {id}
      ensures old(currentWindow) == maxWindow ==> currentWindow == maxWindow && successCounter == old(successCounter)
      ensures old(currentWindow) < maxWindow ==>
                && successCounter == (old(successCounter) + 1) % WRAP
                && currentWindow == old(currentWindow) + if successCounter % 10 == 0 then 1 else 0
    {
      ReleasedOk(Value(), id, Success);
      currentSize := currentSize - 1;
      outstandingWork := outstandingWork - {id};
      if currentWindow >= maxWindow {
        return;
      }
      successCounter := (successCounter + 1) % WRAP;
      if successCounter % 10 == 0 {
        currentWindow := currentWindow + 1;
        if currentWindow > maxWindow {
          currentWindow := maxWindow;
        }
      }
    }

    method RecordBackoff(id: Id)
      requires Valid() && id in outstandingWork
      modifies `currentWindow, `currentSize, `outstandingWork
      ensures Valid() && Value() == old(Value()).Released(id, Backoff)
      ensures currentSize == old(currentSize) - 1 && outstandingWork == old(outstandingWork) - {id}
      ensures currentWindow == Max(minWindow, Min(old(currentWindow), old(outstandingWork)[id].queuePosition - 10))
    {
      ReleasedOk(Value(), id, Backoff);
      var nextWindow := outstandingWork[id].queuePosition - 10;
      currentSize := currentSize - 1;
      outstandingWork := outstandingWork - {id};
      if currentWindow <= minWindow {
        return;
      }
      if nextWindow < currentWindow {
        currentWindow := if nextWindow < minWindow then minWindow else nextWindow;
      }
    }

    /** Success, Backoff and Failed: the first to complete the work frees its slot, later ones do nothing. */
    method Complete(id: Id, outcome: Outcome)
      requires Valid() && (id in outstandingWork || id in completed)
      modifies this
      ensures Valid() && completed == old(completed) + {id}
      ensures Value() == if id in old(completed) then old(Value()) else old(Value()).Released(id, outcome)
      ensures outstandingWork == old(outstandingWork) - {id}
      ensures currentSize == old(currentSize) - if id in old(completed) then 0 else 1
      ensures outcome == Failed || id in old(completed) ==> currentWindow == old(currentWindow)
      ensures outcome == Success ==> old(currentWindow) <= currentWindow <= old(currentWindow) + 1
      ensures outcome == Backoff && id !in old(completed) ==>
                currentWindow == Max(minWindow, Min(old(currentWindow), old(outstandingWork)[id].queuePosition - 10))
    {
      if id in completed {
        return;
      }
      ReleasedOk(Value(), id, outcome);
      match outcome {
        case Success => RecordSuccess(id);
        case Backoff => RecordBackoff(id);
        case Failed =>
          currentSize := currentSize - 1;
          outstandingWork := outstandingWork - {id};
      }
      completed := completed + {id};
    }

    predicate Expired(work: Work, now: int) {
      now - work.createTime > timeout
    }

    /** The window after backing off from a work. */
    function Lowered(window: int, work: Work): int {
      Max(minWindow, Min(window, work.queuePosition - 10))
    }

    /** The window after backing off from works in any order: what the lowest of them makes it. */
    ghost predicate LoweredBy(before: int, now: int, works: map<Id, Work>, done: set<Id>) {
      && (done == {} ==> now == before)
      && (forall id :: id in done && id in works ==> now <= Lowered(before, works[id]))
      && (done != {} ==> exists id :: id in done && id in works && now == Lowered(before, works[id]))
    }

    lemma LoweredMore(before: int, now: int, next: int, works: map<Id, Work>, done: set<Id>, id: Id)
      requires LoweredBy(before, now, works, done) && minWindow <= now && minWindow <= before && id in works
      requires next == Lowered(now, works[id])
      ensures LoweredBy(before, next, works, done + {id})
    {
      if done == {} {
        assert id in done + {id} && next == Lowered(before, works[id]);
      } else {
        var low :| low in done && low in works && now == Lowered(before, works[low]);
        assert low in done + {id} && id in done + {id};
        assert next == now || next == Lowered(before, works[id]);
      }
    }

    /** The works past their timeout, in some order. */
    method CollectExpired(now: int) returns (toRemove: seq<Id>)
      requires Valid()
      ensures Enumerates(toRemove, set id | id in outstandingWork && Expired(outstandingWork[id], now))
    {
      toRemove := [];
      var todo := outstandingWork.Keys;
      ghost var found: set<Id> := {};
      while todo != {}
        invariant todo <= outstandingWork.Keys && Enumerates(toRemove, found)
        invariant found == set id | id in outstandingWork && id !in todo && Expired(outstandingWork[id], now)
      {
        var id := Next(todo);
        if Expired(outstandingWork[id], now) {
          EnumeratesMore(toRemove, found, id);
          toRemove, found := toRemove + [id], found + {id};
        }
        todo := todo - {id};
      }
      assert found == set id | id in outstandingWork && Expired(outstandingWork[id], now);
    }

    method BackoffOne(id: Id)
      requires Valid() && id in outstandingWork
      modifies this
      ensures Valid() && AreGone(old(outstandingWork), outstandingWork, {id}) && completed == old(completed) + {id}
      ensures currentWindow == Lowered(old(currentWindow), old(outstandingWork)[id])
    {
      Complete(id, Backoff);
    }

    /** The works in done are backed off from, and the others as they were. */
    ghost predicate BackedOff(works: map<Id, Work>, before: int, left: map<Id, Work>, now: int, done: set<Id>) {
      AreGone(works, left, done) && LoweredBy(before, now, works, done) && minWindow <= before && minWindow <= now
    }

    lemma BackedOffMore(works: map<Id, Work>, before: int, left: map<Id, Work>, now: int, done: set<Id>,
                        next: map<Id, Work>, window: int, id: Id)
      requires BackedOff(works, before, left, now, done) && id in left && AreGone(left, next, {id})
      requires window == Lowered(now, left[id]) && minWindow <= window
      ensures BackedOff(works, before, next, window, done + {id})
    {
      GoneMore(works, left, next, done, id);
      LoweredMore(before, now, window, works, done, id);
    }

    method BackoffNext(id: Id, ghost works: map<Id, Work>, ghost before: int, ghost done: set<Id>)
      requires Valid() && BackedOff(works, before, outstandingWork, currentWindow, done) && id in works && id !in done
      modifies this
      ensures Valid() && BackedOff(works, before, outstandingWork, currentWindow, done + {id})
      ensures completed == old(completed) + {id}
    {
      ghost var left, now := outstandingWork, currentWindow;
      BackoffOne(id);
      BackedOffMore(works, before, left, now, done, outstandingWork, currentWindow, id);
    }

    method BackoffAll(works: seq<Id>)
      requires Valid() && Distinct(works) && forall k :: 0 <= k < |works| ==> works[k] in outstandingWork
      modifies this
      ensures Valid() && outstandingWork == old(outstandingWork) - ToSet(works) &&
              completed == old(completed) + ToSet(works)
      ensures LoweredBy(old(currentWindow), currentWindow, old(outstandingWork), ToSet(works))
    {
      ghost var before, window, done: set<Id>, flags := outstandingWork, currentWindow, {}, completed;
      for k := 0 to |works|
        invariant Valid() && done == ToSet(works[..k]) && completed == flags + done
        invariant BackedOff(before, window, outstandingWork, currentWindow, done)
      {
        TakenOnce(works, k);
        BackoffNext(works[k], before, window, done);
        done := done + {works[k]};
      }
      assert works[..|works|] == works;
      GoneIsMinus(before, outstandingWork, done);
    }

    /** Exactly the works past their timeout lose their slots, each once, and the lowest of them sets the window. */
    method CleanExpired(now: int)
      requires Valid()
      modifies this
      ensures Valid()
      ensures
        var gone := set id | id in old(outstandingWork) && now - old(outstandingWork)[id].createTime > timeout;
        && LoweredBy(old(currentWindow), currentWindow, old(outstandingWork), gone)
        && outstandingWork == old(outstandingWork) - gone && completed == old(completed) + gone
        && currentSize == old(currentSize) - |gone|
    {
      var toRemove := CollectExpired(now);
      ghost var before, gone := outstandingWork, ToSet(toRemove);
      BackoffAll(toRemove);
      assert outstandingWork.Keys == before.Keys - gone;
      assert |before.Keys - gone| == |before.Keys| - |gone|;
    }
  }

  // ---- races ---------------------------------------------------------------------------------------------------

  /**
   The tracker with its callers: a work is completed by the first compare-and-swap, and its slot freed later, when the
   winner gets the lock. The cleaner collects works under the lock and backs off from them afterwards.
   */
  datatype State = State(
    tracker: Tracker,
    admitted: set<Id>,
    completed: set<Id>,
    claimed: map<Id, Outcome>,
    expiring: set<Id>,
    freed: map<Id, nat>)

  datatype Step =
    | Admit(id: Id, now: int)
    | Claim(id: Id, outcome: Outcome)
    | Release(id: Id)
    | Collect(works: set<Id>)
    | Expire(id: Id)

  ghost predicate Enabled(s: State, step: Step) {
    match step
    case Admit(id, _) => id !in s.admitted
    case Claim(id, _) => id in s.admitted
    case Release(id) => id in s.claimed && id in s.tracker.outstanding
    case Collect(works) => works <= s.tracker.outstanding.Keys
    case Expire(id) => id in s.expiring
  }

  ghost function Claimed(s: State, id: Id, outcome: Outcome): State {
    if id in s.completed then s
    else s.(completed := s.completed + {id}, claimed := s.claimed[id := outcome])
  }

  ghost function After(s: State, step: Step): State
    requires Enabled(s, step)
  {
    match step
    case Admit(id, now) =>
      var t := s.tracker.Admitted(id, now);
      if id in t.outstanding then s.(tracker := t, admitted := s.admitted + {id}, freed := s.freed[id := 0]) else s
    case Claim(id, outcome) => Claimed(s, id, outcome)
    case Release(id) =>
      s.(tracker := s.tracker.Released(id, s.claimed[id]), claimed := s.claimed - {id},
         freed := s.freed[id := (if id in s.freed then s.freed[id] else 0) + 1])
    case Collect(works) => s.(expiring := s.expiring + works)
    case Expire(id) => Claimed(s, id, Backoff).(expiring := s.expiring - {id})
  }

  /** A work is outstanding until its slot is freed, which happens once, after exactly one claim. */
  ghost predicate Inv(s: State) {
    && s.tracker.Ok()
    && (forall id :: id in s.freed <==> id in s.admitted)
    && (forall id :: id in s.admitted ==> s.freed[id] == if id in s.tracker.outstanding then 0 else 1)
    && (forall id :: id in s.tracker.outstanding ==> id in s.admitted)
    && (forall id :: id in s.completed ==> id in s.admitted)
    && (forall id :: id in s.expiring ==> id in s.admitted)
    && (forall id :: id in s.claimed <==> id in s.completed && id in s.tracker.outstanding)
    && (forall id :: id in s.admitted ==> id in s.tracker.outstanding || id in s.completed)
  }

  lemma AdmitKeeps(s: State, id: Id, now: int)
    requires Inv(s) && Enabled(s, Admit(id, now))
    ensures Inv(After(s, Admit(id, now)))
  {
    AdmittedOk(s.tracker, id, now);
  }

  lemma ClaimKeeps(s: State, id: Id, outcome: Outcome)
    requires Inv(s) && id in s.admitted
    ensures Inv(Claimed(s, id, outcome))
  {
  }

  lemma ReleaseKeeps(s: State, id: Id)
    requires Inv(s) && Enabled(s, Release(id))
    ensures Inv(After(s, Release(id)))
  {
    ReleasedOk(s.tracker, id, s.claimed[id]);
  }

  lemma StepKeepsInv(s: State, step: Step)
    requires Inv(s) && Enabled(s, step)
    ensures Inv(After(s, step))
  {
    match step {
      case Admit(id, now) => AdmitKeeps(s, id, now);
      case Claim(id, outcome) => ClaimKeeps(s, id, outcome);
      case Release(id) => ReleaseKeeps(s, id);
      case Collect(_) =>
      case Expire(id) => ClaimKeeps(s, id, Backoff);
    }
  }

  ghost predicate Run(s: State, steps: seq<Step>, t: State)
    decreases |steps|
  {
    if steps == [] then t == s else Enabled(s, steps[0]) && Run(After(s, steps[0]), steps[1..], t)
  }

  ghost predicate Init(s: State) {
    && s.tracker.Ok() && s.tracker.outstanding == map[]
    && s == State(s.tracker, {}, {}, map[], {}, map[])
  }

  lemma {:induction false} RunKeepsInv(s: State, steps: seq<Step>, t: State)
    requires Inv(s) && Run(s, steps, t)
    ensures Inv(t)
    decreases |steps|
  {
    if steps != [] {
      StepKeepsInv(s, steps[0]);
      RunKeepsInv(After(s, steps[0]), steps[1..], t);
    }
  }

  /**
   Slot conservation, however completions and expiry race: the size is the number of outstanding works and within the
   maximum window, the window stays within its bounds, no work frees two slots, and once the winners of the races have
   had the lock each completed work has freed exactly one.
   */
  lemma SlotsConserved(s: State, steps: seq<Step>, t: State)
    requires Init(s) && Run(s, steps, t)
    ensures t.tracker.size == |t.tracker.outstanding| <= t.tracker.window.max
    ensures forall id :: id in t.freed <==> id in t.admitted
    ensures t.tracker.window.min <= t.tracker.window.current <= t.tracker.window.max
    ensures forall id :: id in t.admitted ==> t.freed[id] <= 1
    ensures t.claimed == map[] ==> forall id :: id in t.admitted ==> (t.freed[id] == 1 <==> id in t.completed)
    ensures |t.admitted| == t.tracker.size + |t.admitted - t.tracker.outstanding.Keys|
  {
    InitInv(s);
    RunKeepsInv(s, steps, t);
    FreedOnce(t);
  }

  /**
   Admission by the moving window, in every reachable state: a step takes a slot if and only if it is an admission that
   finds fewer outstanding works than the current window. The work gets the new size as its position.
   */
  lemma AdmissionIff(s: State, steps: seq<Step>, t: State, step: Step)
    requires Init(s) && Run(s, steps, t) && Enabled(t, step)
    ensures
      var u := After(t, step).tracker;
      && (u.size > t.tracker.size <==> step.Admit? && |t.tracker.outstanding| < t.tracker.window.current)
      && (u.size > t.tracker.size ==>
            && step.id in u.outstanding && u.outstanding[step.id] == Work(u.size, step.now)
            && u.size <= u.window.current)
  {
    InitInv(s);
    RunKeepsInv(s, steps, t);
    AdmissionStep(t, step);
  }

  lemma AdmissionStep(t: State, step: Step)
    requires Inv(t) && Enabled(t, step)
    ensures
      var u := After(t, step).tracker;
      && (u.size > t.tracker.size <==> step.Admit? && |t.tracker.outstanding| < t.tracker.window.current)
      && (u.size > t.tracker.size ==>
            && step.id in u.outstanding && u.outstanding[step.id] == Work(u.size, step.now)
            && u.size <= u.window.current)
  {
    if step.Admit? {
      assert step.id !in t.tracker.outstanding;
    }
  }

  /** And it adapts: a backoff lowers the window to ten below the work's position, a success counts, no other does. */
  lemma WindowMoves(t: State, step: Step)
    requires Inv(t) && Enabled(t, step)
    ensures
      var before, now := t.tracker.window, After(t, step).tracker.window;
      if !step.Release? || t.claimed[step.id] == Failed then now == before
      else if t.claimed[step.id] == Backoff
      then now.current == Max(before.min, Min(before.current, t.tracker.outstanding[step.id].queuePosition - 10))
      else now == Succeeded(before, 1)
  {
    if step.Release? {
      var w := t.tracker.window;
      assert Succeeded(w, 1) == Succeeded(w, 0).Widened();
    }
  }

  lemma FreedOnce(t: State)
    requires Inv(t)
    ensures forall id :: id in t.freed <==> id in t.admitted
    ensures t.claimed == map[] ==> forall id :: id in t.admitted ==> (t.freed[id] == 1 <==> id in t.completed)
    ensures |t.admitted| == t.tracker.size + |t.admitted - t.tracker.outstanding.Keys|
  {
    var all, some := t.admitted, t.tracker.outstanding.Keys;
    forall id | id in some ensures id in all {
      assert id in t.tracker.outstanding;
    }
    SizeSplit(t.admitted, t.tracker.outstanding.Keys);
  }

  lemma InitInv(s: State)
    requires Init(s)
    ensures Inv(s)
  {
  }

  lemma SizeSplit<T>(all: set<T>, some: set<T>)
    requires some <= all
    ensures |all| == |some| + |all - some|
  {
    assert all == some + (all - some);
  }
}
