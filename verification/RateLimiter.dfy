/**
 adaptiveRateLimiter (controller/command/rate_limiter.go): callers are admitted while they fit the window, queue their
 work for a single worker and wait for its result.
 */
module RateLimiters {
  import opened Types
  import opened RateLimitWindows

  /** A caller counted in currentSize: about to queue its work, or waiting for the result. */
  datatype Caller = Admitted(queuePosition: int) | Waiting(queuePosition: int)

  /** The queue is a channel of capacity window.max; working is the work the worker holds. */
  datatype State = State(
    window: Window,
    size: int,
    callers: map<Id, Caller>,
    queue: seq<Id>,
    working: Option<Id>,
    results: set<Id>,
    closed: bool)

  datatype Step =
    | Arrive(id: Id)      // RunRateLimited up to the unlock
    | Enqueue(id: Id)     // the send succeeds
    | QueueFull(id: Id)   // neither the send nor the close is ready: the default branch
    | ShutDown(id: Id)    // the close is ready
    | Take                // the worker receives a work
    | Finish              // and hands back its result
    | Receive(id: Id)     // the caller gets the result and leaves
    | Succeed             // the locked part of success(), whose check of the window came before the lock
    | BackOff(queuePosition: int)
    | Close

  ghost predicate Enabled(s: State, step: Step) {
    match step
    case Arrive(id) => id !in s.callers && id !in s.queue && s.working != Some(id) && id !in s.results
    case Enqueue(id) => id in s.callers && s.callers[id].Admitted? && |s.queue| < s.window.max
    case QueueFull(id) => id in s.callers && s.callers[id].Admitted? && |s.queue| >= s.window.max && !s.closed
    case ShutDown(id) => id in s.callers && s.closed
    case Take => s.working.None? && s.queue != []
    case Finish => s.working.Some?
    case Receive(id) => id in s.callers && s.callers[id].Waiting? && id in s.results
    case Succeed => true
    case BackOff(_) => true
    case Close => true
  }

  ghost function Next(s: State, step: Step): State
    requires Enabled(s, step)
  {
    match step
    case Arrive(id) =>
      if s.size + 1 <= s.window.current
      then s.(size := s.size + 1, callers := s.callers[id := Admitted(s.size + 1)])
      else s
    case Enqueue(id) =>
      s.(callers := s.callers[id := Waiting(s.callers[id].queuePosition)], queue := s.queue + [id])
    case QueueFull(id) => s.(size := s.size - 1, callers := s.callers - {id})
    case ShutDown(id) => s.(size := s.size - 1, callers := s.callers - {id})
    case Take => s.(queue := s.queue[1..], working := Some(s.queue[0]))
    case Finish => s.(working := None, results := s.results + {s.working.value})
    case Receive(id) => s.(size := s.size - 1, callers := s.callers - {id}, results := s.results - {id})
    case Succeed => s.(window := s.window.Counted())
    case BackOff(queuePosition) => s.(window := s.window.Narrowed(queuePosition))
    case Close => s.(closed := true)
  }

  /** The works in the queue belong to distinct callers that wait for them. */
  ghost predicate QueueOwned(s: State) {
    && (forall j, k :: 0 <= j < k < |s.queue| ==> s.queue[j] != s.queue[k])
    && (forall k :: 0 <= k < |s.queue| ==>
          && s.queue[k] in s.callers && s.callers[s.queue[k]].Waiting?
          && s.working != Some(s.queue[k]) && s.queue[k] !in s.results)
    && (s.working.Some? ==>
          && s.working.value in s.callers && s.callers[s.working.value].Waiting?
          && s.working.value !in s.results)
    && (forall id :: id in s.results ==> id in s.callers && s.callers[id].Waiting?)
  }

  /** What a caller waits for is queued, with the worker, or done. */
  ghost predicate NoneLost(s: State) {
    forall id :: id in s.callers && s.callers[id].Waiting? ==>
                   id in s.queue || s.working == Some(id) || id in s.results
  }

  ghost predicate Inv(s: State) {
    && s.window.Ok() && s.size == |s.callers| && s.size <= s.window.max
    && (!s.closed ==> QueueOwned(s) && NoneLost(s))
  }

  /** A caller gets in if and only if it arrives while fewer callers are inside than the current window. */
  lemma ArrivalIff(s: State, step: Step)
    requires Inv(s) && Enabled(s, step)
    ensures
      var t := Next(s, step);
      && (t.size > s.size <==> step.Arrive? && |s.callers| < s.window.current)
      && (t.size > s.size ==>
            step.id in t.callers && t.callers[step.id] == Admitted(t.size) && t.size <= t.window.current)
  {
  }

  /** The window moves by the locked parts of success and backoff alone, as the limiter's clients report. */
  lemma WindowMoves(s: State, step: Step)
    requires Inv(s) && Enabled(s, step)
    ensures
      var before, now := s.window, Next(s, step).window;
      match step
      case Succeed =>
        && now.successes == (before.successes + 1) % WRAP
        && now.current == Min(before.max, before.current + if now.successes % 10 == 0 then 1 else 0)
      case BackOff(queuePosition) =>
        now.current == Max(before.min, Min(before.current, queuePosition - 10)) && now.successes == before.successes
      case _ => now == before
  {
  }

  /** A caller about to queue leaves room for its own work. */
  lemma RoomForOne(s: State, id: Id)
    requires Inv(s) && !s.closed && id in s.callers && s.callers[id].Admitted?
    ensures |s.queue| < s.window.max
  {
    var queued := ToSet(s.queue);
    DistinctSize(s.queue);
    forall x | x in queued ensures x in s.callers.Keys - {id} {
      var k :| 0 <= k < |s.queue| && s.queue[k] == x;
    }
    Fits(queued, s.callers.Keys - {id});
    assert |s.callers.Keys - {id}| == |s.callers| - 1;
  }

  lemma Fits<T>(a: set<T>, b: set<T>)
    requires a <= b
    ensures |a| <= |b|
  {
    assert b == a + (b - a);
  }

  lemma {:induction false} DistinctSize(q: seq<Id>)
    requires forall j, k :: 0 <= j < k < |q| ==> q[j] != q[k]
    ensures |ToSet(q)| == |q|
    decreases |q|
  {
    if q != [] {
      var n := |q| - 1;
      DistinctSize(q[..n]);
      assert q == q[..n] + [q[n]];
      assert ToSet(q) == ToSet(q[..n]) + {q[n]};
    }
  }

  lemma OwnedKept(s: State, step: Step)
    requires Inv(s) && Enabled(s, step) && !Next(s, step).closed
    ensures QueueOwned(Next(s, step))
  {
    if step.Enqueue? {
      var t := Next(s, step);
      assert forall k :: 0 <= k < |s.queue| ==> t.queue[k] == s.queue[k];
      assert t.queue[|s.queue|] == step.id;
    }
  }

  lemma NoneLostKept(s: State, step: Step)
    requires Inv(s) && Enabled(s, step) && !Next(s, step).closed
    ensures NoneLost(Next(s, step))
  {
    var t := Next(s, step);
    forall id | id in t.callers && t.callers[id].Waiting?
      ensures id in t.queue || t.working == Some(id) || id in t.results
    {
      if step.Take? && id in s.queue {
        assert s.queue == [s.queue[0]] + s.queue[1..];
      }
    }
  }

  lemma StepKeepsInv(s: State, step: Step)
    requires Inv(s) && Enabled(s, step)
    ensures Inv(Next(s, step))
  {
    var t := Next(s, step);
    if !t.closed {
      OwnedKept(s, step);
      NoneLostKept(s, step);
    }
    match step {
      case Arrive(id) => assert s.callers[id := Admitted(s.size + 1)].Keys == s.callers.Keys + {id};
      case Enqueue(id) => assert t.callers.Keys == s.callers.Keys;
      case QueueFull(id) => assert t.callers.Keys == s.callers.Keys - {id};
      case ShutDown(id) => assert t.callers.Keys == s.callers.Keys - {id};
      case Receive(id) => assert t.callers.Keys == s.callers.Keys - {id};
      case _ =>
    }
  }

  ghost predicate Run(s: State, steps: seq<Step>, t: State)
    decreases |steps|
  {
    if steps == [] then t == s else Enabled(s, steps[0]) && Run(Next(s, steps[0]), steps[1..], t)
  }

  ghost predicate Init(s: State) {
    s.window.Ok() && s == State(s.window, 0, map[], [], None, {}, false)
  }

  lemma {:induction false} RunKeepsInv(s: State, steps: seq<Step>, t: State)
    requires Inv(s) && Run(s, steps, t)
    ensures Inv(t)
    decreases |steps|
  {
    if steps != [] {
      StepKeepsInv(s, steps[0]);
      RunKeepsInv(Next(s, steps[0]), steps[1..], t);
    }
  }

  /**
   In every reachable state currentSize counts the callers inside and is within the maximum window, and the queue
   full branch is out of reach: before the close the queue has room for every caller admitted, and after it the close
   itself is always ready.
   */
  lemma QueueNeverFull(s: State, steps: seq<Step>, t: State)
    requires Init(s) && Run(s, steps, t)
    ensures t.size == |t.callers| <= t.window.max && t.window.min <= t.window.current <= t.window.max
    ensures forall id :: !Enabled(t, QueueFull(id))
    ensures !t.closed ==> forall id :: id in t.callers && t.callers[id].Admitted? ==> Enabled(t, Enqueue(id))
  {
    RunKeepsInv(s, steps, t);
    forall id | !t.closed && id in t.callers && t.callers[id].Admitted? ensures |t.queue| < t.window.max {
      RoomForOne(t, id);
    }
  }

  /**
   No work is lost: before the close, a caller that waits can be served by the worker alone. Its work is queued, with
   the worker or done, and when the worker has nothing left to do every result is there to be received.
   */
  lemma WorkNotLost(s: State, steps: seq<Step>, t: State, id: Id)
    requires Init(s) && Run(s, steps, t) && !t.closed && id in t.callers && t.callers[id].Waiting?
    ensures id in t.queue || t.working == Some(id) || id in t.results
    ensures !Enabled(t, Take) && !Enabled(t, Finish) ==> Enabled(t, Receive(id))
  {
    RunKeepsInv(s, steps, t);
  }
}
