/**
 * `lfq::MPMCQueueMutex` (include/queue/mutex_queue.hpp): an unbounded FIFO queue
 * guarded by one mutex, with a `closed` flag that stops further enqueues.
 *
 * Every public method takes the lock for its whole body, so each call is one
 * atomic step on the pair (contents, closed).  The class below is that step
 * machine; `Step` and `Run` are its value-level specification, used to state
 * what the multi-threaded tests assert about whole histories of calls.
 */
module MutexQueue {
  import opened Common

  /** The abstract state: `q_` from front to back, and `closed_`. */
  datatype QueueState<T> = QueueState(items: seq<T>, closed: bool)

  /** One call on the queue. */
  datatype Op<T> = EnqueueOp(v: T) | TryDequeueOp | CloseOp | IsClosedOp

  /** What a call returns: enqueue's bool, try_dequeue's bool together with
      the value written to `out` (None when it returned false), nothing, or
      is_closed's bool. */
  datatype Reply<T> = Accepted(ok: bool) | Taken(got: Option<T>) | Done | Flag(isClosed: bool)

  /** The queue as constructed (include/queue/mutex_queue.hpp:11). */
  function Fresh<T>(): QueueState<T>
  {
    QueueState([], false)
  }

  /** The effect and reply of one locked call. */
  function Step<T>(s: QueueState<T>, op: Op<T>): (QueueState<T>, Reply<T>)
  {
    match op
    case EnqueueOp(v) =>
      if s.closed then (s, Accepted(false)) else (s.(items := s.items + [v]), Accepted(true))
    case TryDequeueOp =>
      if s.items == [] then (s, Taken(None)) else (s.(items := s.items[1..]), Taken(Some(s.items[0])))
    case CloseOp => (s.(closed := true), Done)
    case IsClosedOp => (s, Flag(s.closed))
  }

  /** A history of calls: the final state, the values whose enqueue returned
      true, and the values handed out by successful try_dequeue calls, each in
      the order the calls took effect. */
  datatype Trace<T> = Trace(final: QueueState<T>, accepted: seq<T>, dequeued: seq<T>)

  /** The value an accepted enqueue adds to the history, if any. */
  function Gained<T>(s: QueueState<T>, op: Op<T>): seq<T>
  {
    if op.EnqueueOp? && !s.closed then [op.v] else []
  }

  /** The value a successful try_dequeue hands out, if any. */
  function Given<T>(s: QueueState<T>, op: Op<T>): seq<T>
  {
    if op.TryDequeueOp? && s.items != [] then [s.items[0]] else []
  }

  function Run<T>(s: QueueState<T>, ops: seq<Op<T>>): Trace<T>
    decreases |ops|
  {
    if ops == [] then Trace(s, [], [])
    else
      var t := Run(Step(s, ops[0]).0, ops[1..]);
      Trace(t.final, Gained(s, ops[0]) + t.accepted, Given(s, ops[0]) + t.dequeued)
  }

  /** The history fields agree with the replies: Gained is the value of an
      enqueue that returned true, Given the value of a try_dequeue that
      returned true. */
  lemma StepReplies<T>(s: QueueState<T>, op: Op<T>)
    ensures op.EnqueueOp? ==> (Gained(s, op) != [] <==> Step(s, op).1 == Accepted(true))
    ensures var r := Step(s, op).1;
      Given(s, op) == (if r.Taken? && r.got.Some? then [r.got.value] else [])
  {
  }

  /** One call conserves items: what was queued plus what it accepted equals
      what it handed out plus what is queued afterwards. */
  lemma StepConserves<T>(s: QueueState<T>, op: Op<T>)
    ensures s.items + Gained(s, op) == Given(s, op) + Step(s, op).0.items
  {
    if op.TryDequeueOp? && s.items != [] {
      assert s.items == [s.items[0]] + s.items[1..];
    }
  }

  /** Two conservation equations, one for a step and one for the rest of the
      run, chain into one for the whole run. */
  lemma ChainConservation<T>(before: seq<T>, gained: seq<T>, given: seq<T>, middle: seq<T>,
                             accepted: seq<T>, dequeued: seq<T>, after: seq<T>)
    requires before + gained == given + middle
    requires middle + accepted == dequeued + after
    ensures before + (gained + accepted) == (given + dequeued) + after
  {
    calc {
      before + (gained + accepted);
      (before + gained) + accepted;
      (given + middle) + accepted;
      given + (middle + accepted);
    }
  }

  /** FIFO and conservation in one equation: what was in the queue followed by
      everything accepted equals everything handed out followed by what is
      left.  No item is lost, duplicated or reordered. */
  lemma {:induction false} RunConserves<T>(s: QueueState<T>, ops: seq<Op<T>>)
    ensures s.items + Run(s, ops).accepted == Run(s, ops).dequeued + Run(s, ops).final.items
    decreases |ops|
  {
    if ops != [] {
      var s1 := Step(s, ops[0]).0;
      var t := Run(s1, ops[1..]);
      var gained, given := Gained(s, ops[0]), Given(s, ops[0]);
      RunConserves(s1, ops[1..]);
      StepConserves(s, ops[0]);
      ChainConservation(s.items, gained, given, s1.items, t.accepted, t.dequeued, t.final.items);
    }
  }

  /** From a new queue, items leave in exactly the order they were accepted:
      the dequeued values are a prefix of the accepted ones, and the total
      dequeued plus what is still queued equals the total enqueued
      (src/tests_correctness_main.cpp:58). */
  lemma FifoFromFresh<T>(ops: seq<Op<T>>)
    ensures Run(Fresh(), ops).dequeued <= Run(Fresh(), ops).accepted
    ensures |Run(Fresh(), ops).dequeued| + |Run(Fresh(), ops).final.items| == |Run(Fresh(), ops).accepted|
    ensures Run(Fresh(), ops).final.items == [] ==> Run(Fresh(), ops).dequeued == Run(Fresh(), ops).accepted
  {
    RunConserves(Fresh(), ops);
    var t := Run(Fresh<T>(), ops);
    assert t.accepted == t.dequeued + t.final.items;
    assert t.accepted[..|t.dequeued|] == t.dequeued;
  }

  /** The property the linearization test checks at every consumer
      (src/tests_correctness_main.cpp:40-44): when each producer enqueues
      strictly increasing sequence numbers, the dequeue order never shows a
      producer's numbers going backwards. */
  lemma PerProducerOrder(ops: seq<Op<(int, int)>>)
    requires var acc := Run(Fresh(), ops).accepted;
      forall i, j :: 0 <= i < j < |acc| && acc[i].0 == acc[j].0 ==> acc[i].1 < acc[j].1
    ensures var deq := Run(Fresh(), ops).dequeued;
      forall i, j :: 0 <= i < j < |deq| && deq[i].0 == deq[j].0 ==> deq[i].1 < deq[j].1
  {
    FifoFromFresh(ops);
    var t := Run(Fresh<(int, int)>(), ops);
    forall i, j | 0 <= i < j < |t.dequeued| && t.dequeued[i].0 == t.dequeued[j].0
      ensures t.dequeued[i].1 < t.dequeued[j].1
    {
      assert t.dequeued[i] == t.accepted[i] && t.dequeued[j] == t.accepted[j];
    }
  }

  /** Once closed, a queue stays closed and accepts nothing more; whatever
      happens, it never gains an item after close. */
  lemma {:induction false} ClosedIsFinal<T>(s: QueueState<T>, ops: seq<Op<T>>)
    requires s.closed
    ensures Run(s, ops).final.closed
    ensures Run(s, ops).accepted == []
    ensures |Run(s, ops).final.items| + |Run(s, ops).dequeued| == |s.items|
    decreases |ops|
  {
    if ops != [] {
      var (s1, _) := Step(s, ops[0]);
      ClosedIsFinal(s1, ops[1..]);
    }
  }

  /** A closed queue still drains (src/tests_correctness_main.cpp:68-74):
      n try_dequeue calls on a closed queue holding n items hand out exactly
      those items, front first, and leave it empty. */
  lemma {:induction false} ClosedQueueDrains<T>(s: QueueState<T>)
    requires s.closed
    ensures Run(s, seq(|s.items|, _ => TryDequeueOp)).dequeued == s.items
    ensures Run(s, seq(|s.items|, _ => TryDequeueOp)).final == QueueState([], true)
    decreases |s.items|
  {
    var ops: seq<Op<T>> := seq(|s.items|, _ => TryDequeueOp);
    if s.items != [] {
      var s1 := s.(items := s.items[1..]);
      ClosedQueueDrains(s1);
      assert ops[1..] == seq(|s1.items|, _ => TryDequeueOp);
    }
  }

  /** include/queue/mutex_queue.hpp:9-40.  The std::mutex only serialises the
      calls, which is why each method below is a single step. */
  class MPMCQueueMutex<T> {
    var items: seq<T>   // q_, front first
    var closed: bool    // closed_

    function State(): QueueState<T>
      reads this
    {
      QueueState(items, closed)
    }

    /** A new queue is empty and open; the capacity hint is ignored. */
    constructor (capacityHint: nat)
      ensures State() == Fresh()
    {
      items := [];
      closed := false;
    }

    /** Appends `v` and returns true unless the queue is closed, in which case
        it returns false and changes nothing. */
    method Enqueue(v: T) returns (ok: bool)
      modifies this
      ensures ok == !old(closed)
      ensures items == (if ok then old(items) + [v] else old(items))
      ensures closed == old(closed)
      ensures Step(old(State()), EnqueueOp(v)) == (State(), Accepted(ok))
    {
      if closed {
        return false;
      }
      items := items + [v];
      return true;
    }

    /** `bool try_dequeue(T& out)`: the caller's `out` comes in as `out` and
        leaves as `result`.  On a non-empty queue, removes the front and hands
        it out, whether or not the queue is closed; on an empty queue returns
        false and leaves `out` and the queue as they were. */
    method TryDequeue(out: T) returns (ok: bool, result: T)
      modifies this
      ensures ok == (old(items) != [])
      ensures ok ==> result == old(items)[0] && items == old(items)[1..]
      ensures !ok ==> result == out && items == old(items)
      ensures closed == old(closed)
      ensures Step(old(State()), TryDequeueOp) == (State(), Taken(if ok then Some(result) else None))
    {
      if items == [] {
        return false, out;
      }
      result := items[0];
      items := items[1..];
      ok := true;
    }

    /** Sets the closed flag; the contents are untouched, and closing twice is
        the same as closing once. */
    method Close()
      modifies this
      ensures closed && items == old(items)
      ensures Step(old(State()), CloseOp) == (State(), Done)
    {
      closed := true;
    }

    method IsClosed() returns (b: bool)
      ensures b == closed
      ensures Step(State(), IsClosedOp) == (State(), Flag(b))
    {
      b := closed;
    }
  }

  /** The shutdown test (src/tests_correctness_main.cpp:63-75): enqueue
      succeeds on an open queue, fails after close, and the element enqueued
      before close can still be taken out. */
  method ShutdownSemantics<T>(x: T, y: T) returns (first: bool, second: bool, drained: bool, got: T)
    ensures first && !second && drained && got == x
  {
    var q := new MPMCQueueMutex<T>(0);
    first := q.Enqueue(x);
    q.Close();
    second := q.Enqueue(x);
    drained, got := q.TryDequeue(y);
  }
}
