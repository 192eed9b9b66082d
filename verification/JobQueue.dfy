// The background job queue: internal/jobqueue/jobqueue.go.
//
// Callers of Enqueue, EnqueueNonBlocking, Stop and Stats and the worker goroutines interleave
// at their atomic operations: loads and adds of the counters, sends and receives on the
// channel, the cancellation of the context. One such operation is one `Action`; a job is named
// by the call that submits it. The results below hold after every interleaving.
module JobQueue {
  import opened Collections
  import opened Wrappers

  type CallId = nat

  /** Where a call of Enqueue (blocking) or EnqueueNonBlocking stands. */
  datatype CallPc =
    | Checked(blocking: bool)   // stopped.Load returned false
    | Counted(blocking: bool)   // enqueued.Add(1) is done, the select is next
    | Overfull                  // the default case was taken, enqueued.Add(-1) is next
    | Accepted | GaveUp | RefusedStopped | RefusedFull

  datatype WorkerPc =
    | Waiting                   // at the select
    | Received(item: CallId)    // started.Add(1) is next
    | Running(item: CallId)     // executing
    | Exited

  datatype StopPc = Signalled | Cancelled | Returned

  datatype Action =
    | Enter(call: CallId, isBlocking: bool)
    | Count(call: CallId)
    | Send(call: CallId)
    | GiveUp(call: CallId)
    | Overflow(call: CallId)
    | RollBack(call: CallId)
    | Receive(worker: nat)
    | Exit(worker: nat)
    | Start(worker: nat)
    | Finish(worker: nat, ok: bool)
    | SignalStop(stop: nat)
    | CancelStop(stop: nat)
    | ReturnStop(stop: nat)
    | Load(reader: nat)

  /** The queue, the positions of all its users, and two histories: the jobs accepted into the
      channel and the jobs received from it. A reader holds the loads Stats has made so far. */
  datatype State = State(
    capacity: nat, buffer: seq<CallId>, stopped: bool, cancelled: bool,
    enqueued: int, started: int, completed: int, failed: int,
    calls: map<CallId, CallPc>, workers: seq<WorkerPc>, stops: map<nat, StopPc>, readers: map<nat, seq<int>>,
    accepted: seq<CallId>, received: seq<CallId>)

  const LOADS_OF_STATS := 8

  predicate AllExited(workers: seq<WorkerPc>)
  {
    forall w :: 0 <= w < |workers| ==> workers[w] == Exited
  }

  predicate At(s: State, c: CallId, pc: CallPc)
  {
    c in s.calls && s.calls[c] == pc
  }

  predicate Enabled(s: State, a: Action)
  {
    match a
    case Enter(c, _) => c !in s.calls
    case Count(c) => c in s.calls && s.calls[c].Checked?
    case Send(c) => c in s.calls && s.calls[c].Counted? && |s.buffer| < s.capacity
    case GiveUp(c) => At(s, c, Counted(true)) && s.cancelled
    case Overflow(c) => At(s, c, Counted(false)) && |s.buffer| >= s.capacity
    case RollBack(c) => At(s, c, Overfull)
    case Receive(w) => w < |s.workers| && s.workers[w] == Waiting && s.buffer != []
    case Exit(w) => w < |s.workers| && s.workers[w] == Waiting && s.cancelled
    case Start(w) => w < |s.workers| && s.workers[w].Received?
    case Finish(w, _) => w < |s.workers| && s.workers[w].Running?
    case SignalStop(t) => t !in s.stops
    case CancelStop(t) => t in s.stops && s.stops[t] == Signalled
    case ReturnStop(t) => t in s.stops && s.stops[t] == Cancelled && AllExited(s.workers)
    case Load(r) => r in s.readers ==> |s.readers[r]| < LOADS_OF_STATS
  }

  /** The k-th load of Stats: the fields in order, then the three loads of WorkerBusy. */
  function LoadAt(s: State, k: nat): int
  {
    match k
    case 0 => s.enqueued
    case 1 => s.started
    case 2 => s.completed
    case 3 => s.failed
    case 4 => |s.buffer|
    case 5 => s.started
    case 6 => s.completed
    case _ => s.failed
  }

  function LoadsSoFar(s: State, r: nat): seq<int>
  {
    if r in s.readers then s.readers[r] else []
  }

  function Apply(s: State, a: Action): State
    requires Enabled(s, a)
  {
    match a
    case Enter(c, blocking) => s.(calls := s.calls[c := if s.stopped then RefusedStopped else Checked(blocking)])
    case Count(c) => s.(calls := s.calls[c := Counted(s.calls[c].blocking)], enqueued := s.enqueued + 1)
    case Send(c) => s.(calls := s.calls[c := Accepted], buffer := s.buffer + [c], accepted := s.accepted + [c])
    case GiveUp(c) => s.(calls := s.calls[c := GaveUp])
    case Overflow(c) => s.(calls := s.calls[c := Overfull])
    case RollBack(c) => s.(calls := s.calls[c := RefusedFull], enqueued := s.enqueued - 1)
    case Receive(w) => s.(workers := s.workers[w := Received(s.buffer[0])], buffer := s.buffer[1..],
                          received := s.received + [s.buffer[0]])
    case Exit(w) => s.(workers := s.workers[w := Exited])
    case Start(w) => s.(workers := s.workers[w := Running(s.workers[w].item)], started := s.started + 1)
    case Finish(w, ok) => s.(workers := s.workers[w := Waiting],
                             completed := s.completed + (if ok then 1 else 0),
                             failed := s.failed + (if ok then 0 else 1))
    case SignalStop(t) => s.(stops := s.stops[t := Signalled], stopped := true)
    case CancelStop(t) => s.(stops := s.stops[t := Cancelled], cancelled := true)
    case ReturnStop(t) => s.(stops := s.stops[t := Returned])
    case Load(r) => s.(readers := s.readers[r := LoadsSoFar(s, r) + [LoadAt(s, |LoadsSoFar(s, r)|)]])
  }

  /** New's defaults for sizes that are not positive. */
  function BufferSize(bufferSize: int): nat
  {
    if bufferSize <= 0 then 100 else bufferSize
  }

  function WorkerCount(numWorkers: int): nat
  {
    if numWorkers <= 0 then 2 else numWorkers
  }

  function Initial(bufferSize: int, numWorkers: int): State
  {
    State(BufferSize(bufferSize), [], false, false, 0, 0, 0, 0,
          map[], seq(WorkerCount(numWorkers), _ => Waiting), map[], map[], [], [])
  }

  // ----- interleavings -----

  ghost predicate Next(s: State, s': State)
  {
    exists a :: Enabled(s, a) && s' == Apply(s, a)
  }

  /** Some action leads from the i-th state to the next. */
  ghost predicate StepAt(tr: seq<State>, i: nat)
    requires i + 1 < |tr|
  {
    Next(tr[i], tr[i + 1])
  }

  ghost predicate Execution(tr: seq<State>, bufferSize: int, numWorkers: int)
  {
    tr != [] && tr[0] == Initial(bufferSize, numWorkers) &&
    forall i: nat :: i + 1 < |tr| ==> StepAt(tr, i)
  }

  ghost predicate ExecutionTo(tr: seq<State>, bufferSize: int, numWorkers: int, s: State)
  {
    Execution(tr, bufferSize, numWorkers) && tr[|tr| - 1] == s
  }

  /** Some interleaving leads to this state. */
  ghost predicate Reachable(s: State, bufferSize: int, numWorkers: int)
  {
    exists tr :: ExecutionTo(tr, bufferSize, numWorkers, s)
  }

  // ----- counting -----

  predicate IsInFlight(pc: CallPc)
  {
    pc.Counted? || pc.Overfull?
  }

  function InFlight(calls: map<CallId, CallPc>): set<CallId>
  {
    set c | c in calls && IsInFlight(calls[c])
  }

  function GivenUp(calls: map<CallId, CallPc>): set<CallId>
  {
    set c | c in calls && calls[c] == GaveUp
  }

  lemma CallMoves(calls: map<CallId, CallPc>, c: CallId, pc: CallPc)
    requires c in calls ==> calls[c] != GaveUp
    ensures |InFlight(calls[c := pc])| ==
            |InFlight(calls)| - (if c in calls && IsInFlight(calls[c]) then 1 else 0) +
            (if IsInFlight(pc) then 1 else 0)
    ensures |GivenUp(calls[c := pc])| == |GivenUp(calls)| + (if pc == GaveUp then 1 else 0)
  {
    var after := calls[c := pc];
    assert InFlight(after) - {c} == InFlight(calls) - {c};
    SizeMoves(InFlight(calls), InFlight(after), c);
    assert GivenUp(after) - {c} == GivenUp(calls) - {c};
    SizeMoves(GivenUp(calls), GivenUp(after), c);
  }

  lemma SizeMoves<T>(before: set<T>, after: set<T>, x: T)
    requires before - {x} == after - {x}
    ensures |after| == |before| - (if x in before then 1 else 0) + (if x in after then 1 else 0)
  {
    assert x in before ==> before == (before - {x}) + {x};
    assert x !in before ==> before == before - {x};
    assert x in after ==> after == (after - {x}) + {x};
    assert x !in after ==> after == after - {x};
  }

  function RunningIn(workers: seq<WorkerPc>): (n: nat)
    ensures n <= |workers|
    ensures AllExited(workers) ==> n == 0
  {
    if workers == [] then 0
    else RunningIn(workers[1..]) + (if workers[0].Running? then 1 else 0)
  }

  function ReceivedIn(workers: seq<WorkerPc>): (n: nat)
    ensures AllExited(workers) ==> n == 0
  {
    if workers == [] then 0
    else ReceivedIn(workers[1..]) + (if workers[0].Received? then 1 else 0)
  }

  lemma {:induction false} WorkerMoves(workers: seq<WorkerPc>, w: nat, pc: WorkerPc)
    requires w < |workers|
    ensures RunningIn(workers[w := pc]) ==
            RunningIn(workers) - (if workers[w].Running? then 1 else 0) + (if pc.Running? then 1 else 0)
    ensures ReceivedIn(workers[w := pc]) ==
            ReceivedIn(workers) - (if workers[w].Received? then 1 else 0) + (if pc.Received? then 1 else 0)
  {
    if w == 0 {
      assert workers[0 := pc][1..] == workers[1..];
    } else {
      assert workers[w := pc][1..] == workers[1..][w - 1 := pc];
      WorkerMoves(workers[1..], w - 1, pc);
    }
  }

  lemma {:induction false} NoneRunning(workers: seq<WorkerPc>)
    requires forall w :: 0 <= w < |workers| ==> workers[w] == Waiting
    ensures RunningIn(workers) == 0 && ReceivedIn(workers) == 0
  {
    if workers != [] {
      NoneRunning(workers[1..]);
    }
  }

  // ----- the invariants -----

  /** First in, first out: what was accepted is what was received, then what is buffered. */
  ghost predicate Fifo(s: State)
  {
    && s.accepted == s.received + s.buffer
    && |s.buffer| <= s.capacity
    && NoDuplicates(s.accepted)
    && (forall c :: c in s.accepted <==> At(s, c, Accepted))
  }

  ghost predicate EnqueuedAdds(s: State)
  {
    s.enqueued == |s.accepted| + |InFlight(s.calls)| + |GivenUp(s.calls)|
  }

  predicate WorkersAdd(s: State)
  {
    && s.started - s.completed - s.failed == RunningIn(s.workers)
    && s.started + ReceivedIn(s.workers) == |s.received|
  }

  predicate StopOrder(s: State)
  {
    && (s.cancelled ==> s.stopped)
    && (forall t :: t in s.stops ==> s.stopped && (s.stops[t] != Signalled ==> s.cancelled))
    && (forall t :: t in s.stops && s.stops[t] == Returned ==> AllExited(s.workers))
  }

  ghost predicate Inv(s: State)
  {
    Fifo(s) && EnqueuedAdds(s) && WorkersAdd(s) && StopOrder(s)
  }

  lemma FifoKept(s: State, a: Action)
    requires Fifo(s) && Enabled(s, a)
    ensures Fifo(Apply(s, a))
  {
    if a.Send? {
      assert !At(s, a.call, Accepted);
      assert a.call !in s.accepted;
    }
  }

  lemma EnqueuedKept(s: State, a: Action)
    requires EnqueuedAdds(s) && Enabled(s, a)
    ensures EnqueuedAdds(Apply(s, a))
  {
    match a {
      case Enter(c, _) => CallMoves(s.calls, c, Apply(s, a).calls[c]);
      case Count(c) => CallMoves(s.calls, c, Apply(s, a).calls[c]);
      case Send(c) => CallMoves(s.calls, c, Apply(s, a).calls[c]);
      case GiveUp(c) => CallMoves(s.calls, c, Apply(s, a).calls[c]);
      case Overflow(c) => CallMoves(s.calls, c, Apply(s, a).calls[c]);
      case RollBack(c) => CallMoves(s.calls, c, Apply(s, a).calls[c]);
      case _ =>
    }
  }

  lemma WorkersKept(s: State, a: Action)
    requires WorkersAdd(s) && StopOrder(s) && Enabled(s, a)
    ensures WorkersAdd(Apply(s, a)) && StopOrder(Apply(s, a))
  {
    match a {
      case Receive(w) => WorkerMoves(s.workers, w, Apply(s, a).workers[w]);
      case Exit(w) => WorkerMoves(s.workers, w, Apply(s, a).workers[w]);
      case Start(w) => WorkerMoves(s.workers, w, Apply(s, a).workers[w]);
      case Finish(w, _) => WorkerMoves(s.workers, w, Apply(s, a).workers[w]);
      case _ =>
    }
  }

  lemma InvKept(s: State, a: Action)
    requires Inv(s) && Enabled(s, a)
    ensures Inv(Apply(s, a)) && |Apply(s, a).workers| == |s.workers| && Apply(s, a).capacity == s.capacity
  {
    FifoKept(s, a);
    EnqueuedKept(s, a);
    WorkersKept(s, a);
  }

  lemma {:induction false} InvAlways(tr: seq<State>, bufferSize: int, numWorkers: int, i: nat)
    requires Execution(tr, bufferSize, numWorkers) && i < |tr|
    ensures Inv(tr[i]) && |tr[i].workers| == WorkerCount(numWorkers) && tr[i].capacity == BufferSize(bufferSize)
  {
    if i == 0 {
      NoneRunning(tr[0].workers);
    } else {
      InvAlways(tr, bufferSize, numWorkers, i - 1);
      assert StepAt(tr, i - 1);
      var a :| Enabled(tr[i - 1], a) && tr[i] == Apply(tr[i - 1], a);
      InvKept(tr[i - 1], a);
    }
  }

  // ----- what users of the queue get -----

  /** In every interleaving: jobs are received in the order they were accepted, none twice, the
      buffer stays within capacity, and the enqueued counter is the number of accepted jobs plus
      the calls still in flight plus the Enqueue calls that gave up on shutdown. */
  lemma JobsAreConserved(tr: seq<State>, bufferSize: int, numWorkers: int, i: nat)
    requires Execution(tr, bufferSize, numWorkers) && i < |tr|
    ensures tr[i].accepted == tr[i].received + tr[i].buffer
    ensures NoDuplicates(tr[i].received) && |tr[i].buffer| <= BufferSize(bufferSize)
    ensures forall c :: c in tr[i].accepted <==> At(tr[i], c, Accepted)
    ensures tr[i].enqueued == |tr[i].accepted| + |InFlight(tr[i].calls)| + |GivenUp(tr[i].calls)|
  {
    InvAlways(tr, bufferSize, numWorkers, i);
    var s := tr[i];
    forall a, b | 0 <= a < b < |s.received|
      ensures s.received[a] != s.received[b]
    {
      assert s.accepted[a] == s.received[a] && s.accepted[b] == s.received[b];
    }
  }

  /** Started, completed and failed account for the jobs now running, which are never more than
      the workers. */
  lemma CountersAreExact(tr: seq<State>, bufferSize: int, numWorkers: int, i: nat)
    requires Execution(tr, bufferSize, numWorkers) && i < |tr|
    ensures tr[i].started - tr[i].completed - tr[i].failed == RunningIn(tr[i].workers)
    ensures 0 <= tr[i].started - tr[i].completed - tr[i].failed <= WorkerCount(numWorkers)
  {
    InvAlways(tr, bufferSize, numWorkers, i);
  }

  /** The loads a Stats call has made so far, grown by the one made in this step, if any. */
  predicate LoadsForward(s: State, s': State, r: nat)
  {
    && (LoadsSoFar(s', r) == LoadsSoFar(s, r) ||
        LoadsSoFar(s', r) == LoadsSoFar(s, r) + [LoadAt(s, |LoadsSoFar(s, r)|)])
    && s.started <= s'.started && s.completed <= s'.completed && s.failed <= s'.failed
  }

  lemma StepLoads(s: State, a: Action, r: nat)
    requires Enabled(s, a)
    ensures var loads := LoadsSoFar(s, r);
            LoadsSoFar(Apply(s, a), r) == loads + if a == Load(r) then [LoadAt(s, |loads|)] else []
    ensures s.started <= Apply(s, a).started && s.completed <= Apply(s, a).completed && s.failed <= Apply(s, a).failed
  {
  }

  lemma NextLoads(s: State, s': State, r: nat)
    requires Next(s, s')
    ensures LoadsForward(s, s', r)
  {
    var a :| Enabled(s, a) && s' == Apply(s, a);
    StepLoads(s, a, r);
  }

  lemma OneLoad(s: State, s': State, r: nat, k: nat)
    requires Next(s, s') && k < |LoadsSoFar(s', r)|
    ensures if k < |LoadsSoFar(s, r)| then LoadsSoFar(s', r)[k] == LoadsSoFar(s, r)[k]
            else k == |LoadsSoFar(s, r)| == |LoadsSoFar(s', r)| - 1 && LoadsSoFar(s', r)[k] == LoadAt(s, k)
  {
    NextLoads(s, s', r);
  }

  /** Step `i` is the k-th load of the Stats call `r`. */
  predicate LoadsAt(tr: seq<State>, i: nat, r: nat, k: nat)
  {
    i + 1 < |tr| && |LoadsSoFar(tr[i], r)| == k && |LoadsSoFar(tr[i + 1], r)| == k + 1
  }

  lemma {:induction false} CountersGrow(tr: seq<State>, bufferSize: int, numWorkers: int, i: nat, j: nat, r: nat)
    requires Execution(tr, bufferSize, numWorkers) && i <= j < |tr|
    ensures |LoadsSoFar(tr[i], r)| <= |LoadsSoFar(tr[j], r)|
    ensures tr[i].started <= tr[j].started && tr[i].completed <= tr[j].completed && tr[i].failed <= tr[j].failed
    decreases j
  {
    if i < j {
      CountersGrow(tr, bufferSize, numWorkers, i, j - 1, r);
      assert StepAt(tr, j - 1);
      NextLoads(tr[j - 1], tr[j], r);
    }
  }

  /** Every number a Stats call has in hand is the counter's value at the step that loaded it. */
  lemma {:induction false} LoadsAreReadings(tr: seq<State>, bufferSize: int, numWorkers: int, j: nat, r: nat, k: nat)
    returns (i: nat)
    requires Execution(tr, bufferSize, numWorkers) && j < |tr| && k < |LoadsSoFar(tr[j], r)|
    ensures i < j && LoadsAt(tr, i, r, k) && LoadsSoFar(tr[j], r)[k] == LoadAt(tr[i], k)
  {
    assert j > 0;
    assert StepAt(tr, j - 1);
    OneLoad(tr[j - 1], tr[j], r, k);
    if k < |LoadsSoFar(tr[j - 1], r)| {
      i := LoadsAreReadings(tr, bufferSize, numWorkers, j - 1, r, k);
    } else {
      i := j - 1;
    }
  }

  lemma LoadsInOrder(tr: seq<State>, bufferSize: int, numWorkers: int, r: nat, i: nat, k: nat, i': nat, k': nat)
    requires Execution(tr, bufferSize, numWorkers) && LoadsAt(tr, i, r, k) && LoadsAt(tr, i', r, k') && k < k'
    ensures i < i'
  {
    if i' <= i {
      CountersGrow(tr, bufferSize, numWorkers, i', i, r);
    }
  }

  /** What WorkerBusy reports, exactly. Its three loads happen at some steps `a`, `b` and `c`, in
      this order; the report is the number of workers running at `a`, less the jobs completed from
      `a` to `b` and the jobs failed from `a` to `c`. So it is right for `a` exactly when there are
      no such jobs, it is negative exactly when they outnumber the workers running at `a`, and it
      falls below zero by at most the number of jobs started meanwhile. */
  lemma BusyWorkersExactly(tr: seq<State>, bufferSize: int, numWorkers: int, j: nat, r: nat)
    returns (a: nat, b: nat, c: nat)
    requires Execution(tr, bufferSize, numWorkers) && j < |tr| && |LoadsSoFar(tr[j], r)| == LOADS_OF_STATS
    ensures a < b < c < j && LoadsAt(tr, a, r, 5) && LoadsAt(tr, b, r, 6) && LoadsAt(tr, c, r, 7)
    ensures var loads := LoadsSoFar(tr[j], r);
            var busy := loads[5] - loads[6] - loads[7];
            var running := RunningIn(tr[a].workers);
            var finished := (tr[b].completed - tr[a].completed) + (tr[c].failed - tr[a].failed);
            && busy == running - finished
            && (busy == running <==> tr[b].completed == tr[a].completed && tr[c].failed == tr[a].failed)
            && (busy < 0 <==> finished > running)
            && tr[a].started - tr[c].started <= busy <= running
  {
    a := LoadsAreReadings(tr, bufferSize, numWorkers, j, r, 5);
    b := LoadsAreReadings(tr, bufferSize, numWorkers, j, r, 6);
    c := LoadsAreReadings(tr, bufferSize, numWorkers, j, r, 7);
    LoadsInOrder(tr, bufferSize, numWorkers, r, a, 5, b, 6);
    LoadsInOrder(tr, bufferSize, numWorkers, r, b, 6, c, 7);
    CountersGrow(tr, bufferSize, numWorkers, a, b, r);
    CountersGrow(tr, bufferSize, numWorkers, b, c, r);
    CountersAreExact(tr, bufferSize, numWorkers, a);
    CountersAreExact(tr, bufferSize, numWorkers, c);
  }

  /** What a finished Stats call reports in its other fields: the counters and the depth of the channel
      at five successive steps. */
  lemma FieldsAreReadings(tr: seq<State>, bufferSize: int, numWorkers: int, j: nat, r: nat) returns (at: seq<nat>)
    requires Execution(tr, bufferSize, numWorkers) && j < |tr| && |LoadsSoFar(tr[j], r)| == LOADS_OF_STATS
    ensures |at| == 5 && at[0] < at[1] < at[2] < at[3] < at[4] < j
    ensures var loads := LoadsSoFar(tr[j], r);
            && loads[0] == tr[at[0]].enqueued && loads[1] == tr[at[1]].started && loads[2] == tr[at[2]].completed
            && loads[3] == tr[at[3]].failed && loads[4] == |tr[at[4]].buffer|
  {
    var a := LoadsAreReadings(tr, bufferSize, numWorkers, j, r, 0);
    var b := LoadsAreReadings(tr, bufferSize, numWorkers, j, r, 1);
    var c := LoadsAreReadings(tr, bufferSize, numWorkers, j, r, 2);
    var d := LoadsAreReadings(tr, bufferSize, numWorkers, j, r, 3);
    var e := LoadsAreReadings(tr, bufferSize, numWorkers, j, r, 4);
    LoadsInOrder(tr, bufferSize, numWorkers, r, a, 0, b, 1);
    LoadsInOrder(tr, bufferSize, numWorkers, r, b, 1, c, 2);
    LoadsInOrder(tr, bufferSize, numWorkers, r, c, 2, d, 3);
    LoadsInOrder(tr, bufferSize, numWorkers, r, d, 3, e, 4);
    at := [a, b, c, d, e];
  }

  /** A Stats call whose loads interleave with everything else never reports more busy workers
      than there are, nor a queue depth beyond the capacity. */
  lemma StatsAreBounded(tr: seq<State>, bufferSize: int, numWorkers: int, i: nat, r: nat)
    requires Execution(tr, bufferSize, numWorkers) && i < |tr| && |LoadsSoFar(tr[i], r)| == LOADS_OF_STATS
    ensures var loads := LoadsSoFar(tr[i], r);
            loads[5] - loads[6] - loads[7] <= WorkerCount(numWorkers) && 0 <= loads[4] <= BufferSize(bufferSize)
  {
    var a, b, c := BusyWorkersExactly(tr, bufferSize, numWorkers, i, r);
    InvAlways(tr, bufferSize, numWorkers, a);
    var d := LoadsAreReadings(tr, bufferSize, numWorkers, i, r, 4);
    InvAlways(tr, bufferSize, numWorkers, d);
  }

  ghost predicate StopReturned(s: State)
  {
    exists t :: t in s.stops && s.stops[t] == Returned
  }

  /** Nothing was received, started or finished between the two states. */
  predicate SameWork(s: State, s': State)
  {
    s'.started == s.started && s'.completed == s.completed && s'.failed == s.failed &&
    s'.received == s.received && s'.workers == s.workers
  }

  lemma ExitedWorkersDoNothing(s: State, a: Action)
    requires AllExited(s.workers) && Enabled(s, a)
    ensures SameWork(s, Apply(s, a))
  {
  }

  lemma QuietWhenStopReturned(s: State)
    requires Inv(s) && StopReturned(s)
    ensures AllExited(s.workers) && s.started == s.completed + s.failed
  {
  }

  /** Once some Stop call has returned, no job is running, started equals completed plus failed,
      and at every later point no further job has been received or started. */
  lemma {:induction false} NothingRunsAfterStop(tr: seq<State>, bufferSize: int, numWorkers: int, i: nat, k: nat)
    requires Execution(tr, bufferSize, numWorkers) && i <= k < |tr| && StopReturned(tr[i])
    ensures tr[i].started == tr[i].completed + tr[i].failed && AllExited(tr[i].workers)
    ensures SameWork(tr[i], tr[k])
    decreases k
  {
    if i == k {
      InvAlways(tr, bufferSize, numWorkers, i);
      QuietWhenStopReturned(tr[i]);
    } else {
      NothingRunsAfterStop(tr, bufferSize, numWorkers, i, k - 1);
      assert StepAt(tr, k - 1);
      var a :| Enabled(tr[k - 1], a) && tr[k] == Apply(tr[k - 1], a);
      ExitedWorkersDoNothing(tr[k - 1], a);
    }
  }

  /** Exactly the jobs in the buffer are never run: once some Stop call has returned, the jobs that
      are received are those received by then, and all others ever accepted stay in the buffer. */
  lemma LeftInTheBuffer(tr: seq<State>, bufferSize: int, numWorkers: int, i: nat, k: nat)
    requires Execution(tr, bufferSize, numWorkers) && i <= k < |tr| && StopReturned(tr[i])
    ensures tr[k].received == tr[i].received && tr[i].buffer <= tr[k].buffer
    ensures forall c :: c in tr[k].accepted ==> (c in tr[k].buffer <==> c !in tr[k].received)
    ensures |tr[k].accepted| == |tr[i].received| + |tr[k].buffer|
  {
    NothingRunsAfterStop(tr, bufferSize, numWorkers, i, k);
    AcceptedGrows(tr, bufferSize, numWorkers, i, k);
    JobsAreConserved(tr, bufferSize, numWorkers, i);
    JobsAreConserved(tr, bufferSize, numWorkers, k);
    InvAlways(tr, bufferSize, numWorkers, k);
    Apart(tr[k].received, tr[k].buffer);
    assert tr[i].received + tr[i].buffer <= tr[i].received + tr[k].buffer;
    SamePrefix(tr[i].received, tr[i].buffer, tr[k].buffer);
  }

  lemma SamePrefix(a: seq<CallId>, x: seq<CallId>, y: seq<CallId>)
    requires a + x <= a + y
    ensures x <= y
  {
    forall i | 0 <= i < |x|
      ensures i < |y| && x[i] == y[i]
    {
      assert (a + x)[|a| + i] == (a + y)[|a| + i];
    }
  }

  lemma Apart(a: seq<CallId>, b: seq<CallId>)
    requires NoDuplicates(a + b)
    ensures forall c :: c in a + b ==> (c in b <==> c !in a)
  {
    forall i, j | 0 <= i < |a| && 0 <= j < |b|
      ensures a[i] != b[j]
    {
      assert (a + b)[i] != (a + b)[|a| + j];
    }
  }

  lemma {:induction false} AcceptedGrows(tr: seq<State>, bufferSize: int, numWorkers: int, i: nat, k: nat)
    requires Execution(tr, bufferSize, numWorkers) && i <= k < |tr|
    ensures tr[i].accepted <= tr[k].accepted
    decreases k
  {
    if i < k {
      AcceptedGrows(tr, bufferSize, numWorkers, i, k - 1);
      assert StepAt(tr, k - 1);
      var a :| Enabled(tr[k - 1], a) && tr[k] == Apply(tr[k - 1], a);
      OneMoreAccepted(tr[k - 1], a);
    }
  }

  lemma OneMoreAccepted(s: State, a: Action)
    requires Enabled(s, a)
    ensures s.accepted <= Apply(s, a).accepted
  {
  }

  /** Stop need not wait for the buffer: a job accepted before it can be left there for good. */
  lemma JobsCanBeLeftBehind() returns (tr: seq<State>)
    ensures Execution(tr, 1, 1) && StopReturned(tr[|tr| - 1]) && tr[|tr| - 1].buffer == [0]
    ensures exists i :: 0 <= i < |tr| && !tr[i].stopped && 0 in tr[i].accepted
  {
    tr := [Initial(1, 1)];
    tr := Extend(tr, 1, 1, Enter(0, true));
    tr := Extend(tr, 1, 1, Count(0));
    tr := Extend(tr, 1, 1, Send(0));
    var accepted := |tr| - 1;
    assert 0 in tr[accepted].accepted;
    tr := Extend(tr, 1, 1, SignalStop(0));
    tr := Extend(tr, 1, 1, CancelStop(0));
    tr := Extend(tr, 1, 1, Exit(0));
    assert AllExited(tr[|tr| - 1].workers);
    tr := Extend(tr, 1, 1, ReturnStop(0));
  }

  predicate RefusedOrAbsent(s: State, c: CallId)
  {
    s.stopped && (c in s.calls ==> s.calls[c] == RefusedStopped)
  }

  lemma RefusedStaysRefused(s: State, a: Action, c: CallId)
    requires RefusedOrAbsent(s, c) && Enabled(s, a)
    ensures RefusedOrAbsent(Apply(s, a), c)
  {
  }

  /** A call that enters once stopped is set is refused, and stays refused. */
  lemma {:induction false} NothingIsAcceptedAfterStop(tr: seq<State>, bufferSize: int, numWorkers: int,
                                                      i: nat, k: nat, c: CallId)
    requires Execution(tr, bufferSize, numWorkers) && i <= k < |tr| && tr[i].stopped && c !in tr[i].calls
    ensures RefusedOrAbsent(tr[k], c) && c !in tr[k].accepted
    decreases k
  {
    InvAlways(tr, bufferSize, numWorkers, k);
    if i < k {
      NothingIsAcceptedAfterStop(tr, bufferSize, numWorkers, i, k - 1, c);
      assert StepAt(tr, k - 1);
      var a :| Enabled(tr[k - 1], a) && tr[k] == Apply(tr[k - 1], a);
      RefusedStaysRefused(tr[k - 1], a, c);
    }
  }

  lemma Extend(tr: seq<State>, bufferSize: int, numWorkers: int, a: Action) returns (tr': seq<State>)
    requires Execution(tr, bufferSize, numWorkers) && Enabled(tr[|tr| - 1], a)
    ensures Execution(tr', bufferSize, numWorkers) && tr'[|tr'| - 1] == Apply(tr[|tr| - 1], a)
    ensures |tr'| == |tr| + 1 && tr'[|tr'| - 2] == tr[|tr| - 1] && tr <= tr'
  {
    tr' := tr + [Apply(tr[|tr| - 1], a)];
    forall i: nat | i + 1 < |tr'|
      ensures StepAt(tr', i)
    {
      if i + 1 < |tr| {
        assert StepAt(tr, i);
      } else {
        assert Next(tr[i], tr'[i + 1]);
      }
    }
  }

  lemma LoadMany(tr: seq<State>, bufferSize: int, numWorkers: int, n: nat) returns (tr': seq<State>)
    requires Execution(tr, bufferSize, numWorkers) && n + |LoadsSoFar(tr[|tr| - 1], 0)| <= LOADS_OF_STATS
    ensures Execution(tr', bufferSize, numWorkers)
    ensures var s, s' := tr[|tr| - 1], tr'[|tr'| - 1];
            |LoadsSoFar(s', 0)| == |LoadsSoFar(s, 0)| + n && s'.(readers := s.readers) == s &&
            (forall k :: 0 <= k < |LoadsSoFar(s', 0)| ==>
              LoadsSoFar(s', 0)[k] == if k < |LoadsSoFar(s, 0)| then LoadsSoFar(s, 0)[k] else LoadAt(s, k))
  {
    tr' := tr;
    if n > 0 {
      var mid := LoadMany(tr, bufferSize, numWorkers, n - 1);
      tr' := Extend(mid, bufferSize, numWorkers, Load(0));
    }
  }

  /** The bound on reported workers is one-sided: a Stats call that loads started before a job
      runs and the other counters after it reports -1 busy workers. */
  lemma BusyWorkersCanBeNegative() returns (tr: seq<State>)
    ensures Execution(tr, 1, 1)
    ensures var loads := LoadsSoFar(tr[|tr| - 1], 0);
            |loads| == LOADS_OF_STATS && loads[5] - loads[6] - loads[7] == -1
  {
    tr := [Initial(1, 1)];
    tr := LoadMany(tr, 1, 1, 6);
    tr := Extend(tr, 1, 1, Enter(0, true));
    tr := Extend(tr, 1, 1, Count(0));
    tr := Extend(tr, 1, 1, Send(0));
    tr := Extend(tr, 1, 1, Receive(0));
    tr := Extend(tr, 1, 1, Start(0));
    tr := Extend(tr, 1, 1, Finish(0, true));
    tr := LoadMany(tr, 1, 1, 2);
  }

  /** Such jobs can still come after Stop has returned: a call that found the queue running before
      is accepted afterwards, though no worker is left. */
  lemma AcceptedAfterStop() returns (tr: seq<State>)
    ensures Execution(tr, 1, 1) && |tr| >= 2 && StopReturned(tr[|tr| - 2])
    ensures 0 !in tr[|tr| - 2].accepted && 0 in tr[|tr| - 1].accepted
  {
    tr := [Initial(1, 1)];
    tr := Extend(tr, 1, 1, Enter(0, true));
    tr := Extend(tr, 1, 1, SignalStop(0));
    tr := Extend(tr, 1, 1, CancelStop(0));
    tr := Extend(tr, 1, 1, Exit(0));
    tr := Extend(tr, 1, 1, ReturnStop(0));
    tr := Extend(tr, 1, 1, Count(0));
    var before := tr;
    assert 0 in before[|before| - 1].stops;
    tr := Extend(tr, 1, 1, Send(0));
  }

  /** The call has found the queue running and is not at its end yet. */
  predicate IsUnderWay(s: State, c: CallId)
  {
    c in s.calls && (s.calls[c].Checked? || s.calls[c].Counted?)
  }

  /** No job can be accepted any more. */
  predicate Closed(s: State)
  {
    s.stopped && AllExited(s.workers) && (|s.buffer| >= s.capacity || forall c :: c in s.calls ==> !IsUnderWay(s, c))
  }

  lemma ClosedKept(s: State, a: Action)
    requires Closed(s) && Enabled(s, a)
    ensures Closed(Apply(s, a)) && Apply(s, a).accepted == s.accepted
  {
    var s' := Apply(s, a);
    if |s.buffer| < s.capacity {
      forall c | c in s'.calls
        ensures !IsUnderWay(s', c)
      {
        assert c in s.calls ==> !IsUnderWay(s, c);
      }
    }
  }

  lemma {:induction false} ClosedForGood(tr: seq<State>, bufferSize: int, numWorkers: int, i: nat, k: nat)
    requires Execution(tr, bufferSize, numWorkers) && i <= k < |tr| && Closed(tr[i])
    ensures Closed(tr[k]) && tr[k].accepted == tr[i].accepted
    decreases k
  {
    if i < k {
      ClosedForGood(tr, bufferSize, numWorkers, i, k - 1);
      assert StepAt(tr, k - 1);
      var a :| Enabled(tr[k - 1], a) && tr[k] == Apply(tr[k - 1], a);
      ClosedKept(tr[k - 1], a);
    }
  }

  /** `tr'` goes on from `tr` and accepts another job. */
  ghost predicate AcceptsMore(tr: seq<State>, tr': seq<State>, bufferSize: int, numWorkers: int)
  {
    Execution(tr', bufferSize, numWorkers) && tr <= tr' && tr != [] &&
    |tr'[|tr'| - 1].accepted| > |tr[|tr| - 1].accepted|
  }

  lemma SendUnderWay(tr: seq<State>, bufferSize: int, numWorkers: int, c: CallId) returns (tr': seq<State>)
    requires Execution(tr, bufferSize, numWorkers) && IsUnderWay(tr[|tr| - 1], c)
    requires |tr[|tr| - 1].buffer| < tr[|tr| - 1].capacity
    ensures AcceptsMore(tr, tr', bufferSize, numWorkers)
  {
    tr' := tr;
    if tr[|tr| - 1].calls[c].Checked? {
      tr' := Extend(tr', bufferSize, numWorkers, Count(c));
    }
    tr' := Extend(tr', bufferSize, numWorkers, Send(c));
  }

  /** Exactly when a job can still be accepted once a Stop call has returned: when there is room in
      the buffer and some call has found the queue running and is not at its end. */
  lemma AcceptedAfterStopExactly(tr: seq<State>, bufferSize: int, numWorkers: int)
    requires Execution(tr, bufferSize, numWorkers) && StopReturned(tr[|tr| - 1])
    ensures var s := tr[|tr| - 1];
            (exists tr' :: AcceptsMore(tr, tr', bufferSize, numWorkers)) <==>
            |s.buffer| < s.capacity && exists c :: c in s.calls && IsUnderWay(s, c)
  {
    var n := |tr| - 1;
    InvAlways(tr, bufferSize, numWorkers, n);
    if |tr[n].buffer| < tr[n].capacity && exists c :: c in tr[n].calls && IsUnderWay(tr[n], c) {
      var c :| c in tr[n].calls && IsUnderWay(tr[n], c);
      var more := SendUnderWay(tr, bufferSize, numWorkers, c);
    } else {
      assert Closed(tr[n]);
      forall tr' | Execution(tr', bufferSize, numWorkers) && tr <= tr'
        ensures !AcceptsMore(tr, tr', bufferSize, numWorkers)
      {
        ClosedForGood(tr', bufferSize, numWorkers, n, |tr'| - 1);
      }
    }
  }

  // ----- the code -----

  /** Whose step an action is. */
  datatype User = Caller(call: CallId) | Worker(worker: nat) | Stopper(stop: nat) | Reader(reader: nat)

  function UserOf(a: Action): User
  {
    match a
    case Enter(c, _) => Caller(c)
    case Count(c) => Caller(c)
    case Send(c) => Caller(c)
    case GiveUp(c) => Caller(c)
    case Overflow(c) => Caller(c)
    case RollBack(c) => Caller(c)
    case Receive(w) => Worker(w)
    case Exit(w) => Worker(w)
    case Start(w) => Worker(w)
    case Finish(w, _) => Worker(w)
    case SignalStop(t) => Stopper(t)
    case CancelStop(t) => Stopper(t)
    case ReturnStop(t) => Stopper(t)
    case Load(r) => Reader(r)
  }

  /** The state after other users' `acts`, one after the other, each as far as it is enabled. */
  function Interfered(s: State, me: User, acts: seq<Action>): State
  {
    if acts == [] then s
    else
      var mid, a := Interfered(s, me, acts[..|acts| - 1]), acts[|acts| - 1];
      if UserOf(a) != me && Enabled(mid, a) then Apply(mid, a) else mid
  }

  /** `me` stands where it stood. */
  predicate SamePlace(me: User, s: State, s': State)
  {
    |s'.workers| == |s.workers| &&
    match me
    case Caller(c) => (c in s.calls <==> c in s'.calls) && (c in s.calls ==> s'.calls[c] == s.calls[c])
    case Worker(w) => w < |s.workers| ==> s'.workers[w] == s.workers[w]
    case Stopper(t) => (t in s.stops <==> t in s'.stops) && (t in s.stops ==> s'.stops[t] == s.stops[t])
    case Reader(r) => LoadsSoFar(s', r) == LoadsSoFar(s, r) && (r in s.readers <==> r in s'.readers)
  }

  /** What has happened stays so. */
  predicate Onward(s: State, s': State)
  {
    && s'.capacity == s.capacity && (s.stopped ==> s'.stopped) && (s.cancelled ==> s'.cancelled)
  }

  lemma OthersKeepMyPlace(s: State, a: Action, me: User)
    requires Enabled(s, a) && UserOf(a) != me
    ensures SamePlace(me, s, Apply(s, a))
  {
  }

  lemma StepsGoOnward(s: State, a: Action)
    requires Enabled(s, a)
    ensures Onward(s, Apply(s, a))
  {
  }

  lemma Advance(s: State, bufferSize: int, numWorkers: int, a: Action)
    requires Reachable(s, bufferSize, numWorkers) && Enabled(s, a)
    ensures Reachable(Apply(s, a), bufferSize, numWorkers)
  {
    var tr :| ExecutionTo(tr, bufferSize, numWorkers, s);
    var tr' := Extend(tr, bufferSize, numWorkers, a);
    assert ExecutionTo(tr', bufferSize, numWorkers, Apply(s, a));
  }

  lemma {:induction false} Interference(s: State, bufferSize: int, numWorkers: int, me: User, acts: seq<Action>)
    requires Reachable(s, bufferSize, numWorkers)
    ensures Reachable(Interfered(s, me, acts), bufferSize, numWorkers)
    ensures SamePlace(me, s, Interfered(s, me, acts)) && Onward(s, Interfered(s, me, acts))
  {
    if acts != [] {
      var init, a := acts[..|acts| - 1], acts[|acts| - 1];
      Interference(s, bufferSize, numWorkers, me, init);
      var mid := Interfered(s, me, init);
      if UserOf(a) != me && Enabled(mid, a) {
        Advance(mid, bufferSize, numWorkers, a);
        OthersKeepMyPlace(mid, a, me);
        StepsGoOnward(mid, a);
      }
    }
  }

  lemma ReachableInv(s: State, bufferSize: int, numWorkers: int)
    requires Reachable(s, bufferSize, numWorkers)
    ensures Inv(s) && |s.workers| == WorkerCount(numWorkers) && s.capacity == BufferSize(bufferSize)
  {
    var tr :| ExecutionTo(tr, bufferSize, numWorkers, s);
    InvAlways(tr, bufferSize, numWorkers, |tr| - 1);
  }

  lemma ExitedCountersAgree(s: State, bufferSize: int, numWorkers: int)
    requires Reachable(s, bufferSize, numWorkers) && AllExited(s.workers)
    ensures s.started == s.completed + s.failed
  {
    ReachableInv(s, bufferSize, numWorkers);
  }

  lemma ReportBounded(s: State, bufferSize: int, numWorkers: int, r: nat)
    requires Reachable(s, bufferSize, numWorkers) && |LoadsSoFar(s, r)| == LOADS_OF_STATS
    ensures var loads := LoadsSoFar(s, r);
            loads[5] - loads[6] - loads[7] <= |s.workers| && 0 <= loads[4] <= s.capacity
  {
    var tr :| ExecutionTo(tr, bufferSize, numWorkers, s);
    StatsAreBounded(tr, bufferSize, numWorkers, |tr| - 1, r);
    ReachableInv(s, bufferSize, numWorkers);
  }

  datatype Report = Report(enqueued: int, started: int, completed: int, failed: int, queued: int, workerBusy: int)

  /** The queue's methods, with whatever the other users do between two atomic operations given
      as `others`. The queue stays in a state that some interleaving of actions leads to, so
      what is proved of interleavings holds of it. */
  class Queue {
    const bufferSize: int
    const numWorkers: int
    const capacity: nat
    var ch: seq<CallId>
    var stopped: bool
    var cancelled: bool
    var enqueued: int
    var started: int
    var completed: int
    var failed: int
    var calls: map<CallId, CallPc>
    var workers: seq<WorkerPc>
    var stops: map<nat, StopPc>
    var readers: map<nat, seq<int>>
    var accepted: seq<CallId>
    var received: seq<CallId>

    function Snapshot(): State
      reads this
    {
      State(capacity, ch, stopped, cancelled, enqueued, started, completed, failed,
            calls, workers, stops, readers, accepted, received)
    }

    ghost predicate Valid()
      reads this
    {
      Reachable(Snapshot(), bufferSize, numWorkers)
    }

    constructor (bufferSize: int, numWorkers: int)
      ensures Valid() && this.bufferSize == bufferSize && this.numWorkers == numWorkers
      ensures Snapshot() == Initial(bufferSize, numWorkers)
      ensures capacity == if bufferSize > 0 then bufferSize else 100
      ensures |workers| == if numWorkers > 0 then numWorkers else 2
    {
      this.bufferSize, this.numWorkers := bufferSize, numWorkers;
      capacity := if bufferSize <= 0 then 100 else bufferSize;
      var n := if numWorkers <= 0 then 2 else numWorkers;
      workers := seq(n, _ => Waiting);
      ch, stopped, cancelled := [], false, false;
      enqueued, started, completed, failed := 0, 0, 0, 0;
      calls, stops, readers := map[], map[], map[];
      accepted, received := [], [];
      new;
      assert ExecutionTo([Snapshot()], bufferSize, numWorkers, Snapshot());
    }

    /** The other users' turn. */
    method Others(me: User, acts: seq<Action>)
      requires Valid()
      modifies this
      ensures Valid()
      ensures SamePlace(me, old(Snapshot()), Snapshot()) && Onward(old(Snapshot()), Snapshot())
      ensures acts == [] ==> Snapshot() == old(Snapshot())
    {
      Interference(Snapshot(), bufferSize, numWorkers, me, acts);
      var s := Interfered(Snapshot(), me, acts);
      ch, stopped, cancelled := s.buffer, s.stopped, s.cancelled;
      enqueued, started, completed, failed := s.enqueued, s.started, s.completed, s.failed;
      calls, workers, stops, readers := s.calls, s.workers, s.stops, s.readers;
      accepted, received := s.accepted, s.received;
      assert Snapshot() == s;
    }

    method WhileCalling(c: CallId, others: seq<Action>)
      requires Valid() && c in calls
      modifies this
      ensures Valid() && c in calls && calls[c] == old(calls[c])
      ensures others == [] ==> Snapshot() == old(Snapshot())
    {
      Others(Caller(c), others);
    }

    method WhileWorking(w: nat, others: seq<Action>)
      requires Valid() && w < |workers|
      modifies this
      ensures Valid() && w < |workers| && workers[w] == old(workers[w])
      ensures others == [] ==> Snapshot() == old(Snapshot())
    {
      Others(Worker(w), others);
    }

    method WhileStopping(t: nat, others: seq<Action>)
      requires Valid() && t in stops
      modifies this
      ensures Valid() && t in stops && stops[t] == old(stops[t])
      ensures (old(stopped) ==> stopped) && (old(cancelled) ==> cancelled)
    {
      Others(Stopper(t), others);
    }

    method WhileReading(r: nat, others: seq<Action>)
      requires Valid()
      modifies this
      ensures Valid() && Loads(r) == old(Loads(r))
      ensures others == [] ==> Snapshot() == old(Snapshot())
    {
      Others(Reader(r), others);
    }

    // ----- Enqueue and EnqueueNonBlocking -----

    /** The first operations of both; false when the queue has been stopped. */
    method EnterAndCount(c: CallId, blocking: bool, others: seq<Action>) returns (ok: bool)
      requires Valid() && c !in calls
      modifies this
      ensures Valid() && c in calls
      ensures ok == !old(stopped) && calls[c] == if ok then Counted(blocking) else RefusedStopped
      ensures !ok || others == [] ==> ch == old(ch) && enqueued == old(enqueued) + if ok then 1 else 0
    {
      Advance(Snapshot(), bufferSize, numWorkers, Enter(c, blocking));
      if stopped {
        calls := calls[c := RefusedStopped];
        return false;
      }
      calls := calls[c := Checked(blocking)];
      WhileCalling(c, others);
      Advance(Snapshot(), bufferSize, numWorkers, Count(c));
      enqueued := enqueued + 1;
      calls := calls[c := Counted(blocking)];
      return true;
    }

    method SendJob(c: CallId)
      requires Valid() && c in calls && calls[c].Counted? && |ch| < capacity
      modifies this
      ensures Valid() && c in calls && calls[c] == Accepted && ch == old(ch) + [c] && accepted == old(accepted) + [c]
      ensures enqueued == old(enqueued)
    {
      Advance(Snapshot(), bufferSize, numWorkers, Send(c));
      ch := ch + [c];
      accepted := accepted + [c];
      calls := calls[c := Accepted];
    }

    /** Enqueue up to its select and one look at it. None while the call blocks; Await goes on then. */
    method Enqueue(c: CallId, others1: seq<Action>, others2: seq<Action>) returns (r: Option<bool>)
      requires Valid() && c !in calls
      modifies this
      ensures Valid() && c in calls
      ensures r == Some(true) ==> calls[c] == Accepted && ch != [] && ch[|ch| - 1] == c
      ensures r == Some(false) ==> calls[c] == if old(stopped) then RefusedStopped else GaveUp
      ensures r == None ==> calls[c] == Counted(true) && |ch| >= capacity && !cancelled
      ensures old(stopped) ==> r == Some(false) && ch == old(ch) && enqueued == old(enqueued)
      ensures r == Some(false) && !old(stopped) ==> cancelled
      ensures others1 == others2 == [] && !old(stopped) ==>
                && enqueued == old(enqueued) + 1
                && ch == (if r == Some(true) then old(ch) + [c] else old(ch))
                && (r == Some(true) ==> |old(ch)| < capacity) && (r == None ==> |old(ch)| >= capacity)
    {
      var ok := EnterAndCount(c, true, others1);
      if !ok {
        return Some(false);
      }
      r := Await(c, others2);
    }

    /** The select of Enqueue, looked at after the others' turn. None while the call goes on blocking,
        which it does only in a full queue that is not shut down. */
    method Await(c: CallId, others: seq<Action>) returns (r: Option<bool>)
      requires Valid() && c in calls && calls[c] == Counted(true)
      modifies this
      ensures Valid() && c in calls
      ensures r == Some(true) ==> calls[c] == Accepted && ch != [] && ch[|ch| - 1] == c
      ensures r == Some(false) ==> calls[c] == GaveUp && cancelled
      ensures r == None ==> calls[c] == Counted(true) && |ch| >= capacity && !cancelled
      ensures others == [] ==>
                && enqueued == old(enqueued) && ch == (if r == Some(true) then old(ch) + [c] else old(ch))
                && (r == Some(true) ==> |old(ch)| < capacity)
    {
      WhileCalling(c, others);
      if {
        case |ch| < capacity =>
          SendJob(c);
          return Some(true);
        case cancelled =>
          Advance(Snapshot(), bufferSize, numWorkers, GiveUp(c));
          calls := calls[c := GaveUp];
          return Some(false);
        case |ch| >= capacity && !cancelled =>
          return None;
      }
    }

    /** The default case of the select, and the roll-back after it. */
    method RefuseFull(c: CallId, others: seq<Action>)
      requires Valid() && c in calls && calls[c] == Counted(false) && |ch| >= capacity
      modifies this
      ensures Valid() && c in calls && calls[c] == RefusedFull
      ensures others == [] ==> ch == old(ch) && enqueued == old(enqueued) - 1
    {
      Advance(Snapshot(), bufferSize, numWorkers, Overflow(c));
      calls := calls[c := Overfull];
      WhileCalling(c, others);
      Advance(Snapshot(), bufferSize, numWorkers, RollBack(c));
      enqueued := enqueued - 1;
      calls := calls[c := RefusedFull];
    }

    method EnqueueNonBlocking(c: CallId, others1: seq<Action>, others2: seq<Action>, others3: seq<Action>)
      returns (ok: bool)
      requires Valid() && c !in calls
      modifies this
      ensures Valid() && c in calls
      ensures ok ==> calls[c] == Accepted && ch != [] && ch[|ch| - 1] == c
      ensures !ok ==> calls[c] == if old(stopped) then RefusedStopped else RefusedFull
      ensures old(stopped) ==> !ok && ch == old(ch) && enqueued == old(enqueued)
      ensures others1 == others2 == others3 == [] && !old(stopped) ==>
                && (ok <==> |old(ch)| < capacity)
                && ch == (if ok then old(ch) + [c] else old(ch))
                && enqueued == old(enqueued) + if ok then 1 else 0
    {
      ok := EnterAndCount(c, false, others1);
      if !ok {
        return;
      }
      WhileCalling(c, others2);
      if |ch| < capacity {
        SendJob(c);
        return true;
      }
      RefuseFull(c, others3);
      return false;
    }

    // ----- workers -----

    method ReceiveJob(w: nat) returns (item: CallId)
      requires Valid() && w < |workers| && workers[w] == Waiting && ch != []
      modifies this
      ensures Valid() && w < |workers| && workers[w] == Received(item)
      ensures old(ch) == [item] + ch && received == old(received) + [item]
      ensures started == old(started) && completed == old(completed) && failed == old(failed)
    {
      Advance(Snapshot(), bufferSize, numWorkers, Receive(w));
      item := ch[0];
      ch := ch[1..];
      received := received + [item];
      workers := workers[w := Received(item)];
    }

    /** One turn of a worker's loop: it leaves, processes the first job of the channel, or finds
        nothing to do. `succeeds` says how the job's Execute ends. */
    method WorkerTurn(w: nat, succeeds: bool, others1: seq<Action>, others2: seq<Action>) returns (job: Option<CallId>)
      requires Valid() && w < |workers| && workers[w] == Waiting
      modifies this
      ensures Valid() && w < |workers|
      ensures job.Some? ==> old(ch) != [] && job.value == old(ch)[0] && workers[w] == Waiting
      ensures job.None? && old(ch) != [] ==> old(cancelled)
      ensures job.None? ==>
                workers == old(workers)[w := if old(cancelled) then Exited else Waiting] && ch == old(ch) &&
                received == old(received) && started == old(started)
      ensures job.Some? && others1 == others2 == [] ==>
                && ch == old(ch)[1..] && started == old(started) + 1
                && completed == old(completed) + (if succeeds then 1 else 0)
                && failed == old(failed) + (if succeeds then 0 else 1)
    {
      if {
        case cancelled =>
          Advance(Snapshot(), bufferSize, numWorkers, Exit(w));
          workers := workers[w := Exited];
          return None;
        case ch != [] =>
          var item := ReceiveJob(w);
          WhileWorking(w, others1);
          Process(w, item, succeeds, others2);
          return Some(item);
        case ch == [] && !cancelled =>
          return None;
      }
    }

    method Process(w: nat, item: CallId, succeeds: bool, others: seq<Action>)
      requires Valid() && w < |workers| && workers[w] == Received(item)
      modifies this
      ensures Valid() && w < |workers| && workers[w] == Waiting
      ensures others == [] ==>
                && ch == old(ch) && started == old(started) + 1
                && completed == old(completed) + (if succeeds then 1 else 0)
                && failed == old(failed) + (if succeeds then 0 else 1)
    {
      Advance(Snapshot(), bufferSize, numWorkers, Start(w));
      started := started + 1;
      workers := workers[w := Running(item)];
      WhileWorking(w, others);
      FinishJob(w, succeeds);
    }

    method FinishJob(w: nat, succeeds: bool)
      requires Valid() && w < |workers| && workers[w].Running?
      modifies this
      ensures Valid() && workers == old(workers)[w := Waiting]
      ensures completed == old(completed) + (if succeeds then 1 else 0)
      ensures failed == old(failed) + (if succeeds then 0 else 1)
      ensures ch == old(ch) && started == old(started)
    {
      Advance(Snapshot(), bufferSize, numWorkers, Finish(w, succeeds));
      if succeeds {
        completed := completed + 1;
      } else {
        failed := failed + 1;
      }
      workers := workers[w := Waiting];
    }

    // ----- Stop and Stats -----

    /** The first two operations of Stop. */
    method SignalAndCancel(t: nat, others: seq<Action>)
      requires Valid() && t !in stops
      modifies this
      ensures Valid() && stopped && cancelled && t in stops && stops[t] == Cancelled
    {
      Advance(Snapshot(), bufferSize, numWorkers, SignalStop(t));
      stopped := true;
      stops := stops[t := Signalled];
      WhileStopping(t, others);
      Advance(Snapshot(), bufferSize, numWorkers, CancelStop(t));
      cancelled := true;
      stops := stops[t := Cancelled];
    }

    /** Stop up to its wait and one look at it. True when it returns; else AwaitWorkers goes on. */
    method Stop(t: nat, others1: seq<Action>, others2: seq<Action>) returns (done: bool)
      requires Valid() && t !in stops
      modifies this
      ensures Valid() && stopped && cancelled && t in stops
      ensures done <==> AllExited(workers)
      ensures stops[t] == if done then Returned else Cancelled
      ensures done ==> started == completed + failed
    {
      SignalAndCancel(t, others1);
      done := AwaitWorkers(t, others2);
    }

    /** The wait of Stop, looked at after the others' turn. False while a worker has not left. */
    method AwaitWorkers(t: nat, others: seq<Action>) returns (done: bool)
      requires Valid() && t in stops && stops[t] == Cancelled
      modifies this
      ensures Valid() && t in stops && (old(stopped) ==> stopped) && (old(cancelled) ==> cancelled)
      ensures done <==> AllExited(workers)
      ensures stops[t] == if done then Returned else Cancelled
      ensures done ==> started == completed + failed
    {
      WhileStopping(t, others);
      if !AllExited(workers) {
        return false;
      }
      ExitedCountersAgree(Snapshot(), bufferSize, numWorkers);
      Advance(Snapshot(), bufferSize, numWorkers, ReturnStop(t));
      stops := stops[t := Returned];
      return true;
    }

    /** The loads the Stats call `r` has made. */
    function Loads(r: nat): seq<int>
      reads this
    {
      if r in readers then readers[r] else []
    }

    /** The numbers that Stats loads, as they stand. */
    function Numbers(): seq<int>
      reads this
    {
      [enqueued, started, completed, failed, |ch|, started, completed, failed]
    }

    /** The next load of the Stats call `r`. */
    method LoadNext(r: nat) returns (value: int)
      requires Valid() && |Loads(r)| < LOADS_OF_STATS
      modifies this`readers
      ensures Valid() && Loads(r) == old(Loads(r)) + [value]
      ensures value == Numbers()[|old(Loads(r))|]
    {
      Advance(Snapshot(), bufferSize, numWorkers, Load(r));
      var loads := Loads(r);
      value := match |loads| {
        case 0 => enqueued
        case 1 => started
        case 2 => completed
        case 3 => failed
        case 4 => |ch|
        case 5 => started
        case 6 => completed
        case _ => failed
      };
      readers := readers[r := loads + [value]];
    }

    method LoadThenWait(r: nat, others: seq<Action>) returns (value: int)
      requires Valid() && |Loads(r)| < LOADS_OF_STATS
      modifies this
      ensures Valid() && Loads(r) == old(Loads(r)) + [value]
      ensures value == old(Numbers())[|old(Loads(r))|] && (others == [] ==> Numbers() == old(Numbers()))
    {
      value := LoadNext(r);
      WhileReading(r, others);
    }

    method Stats(r: nat, others: nat -> seq<Action>) returns (report: Report)
      requires Valid() && r !in readers
      modifies this
      ensures Valid() && |Loads(r)| == LOADS_OF_STATS
      ensures var loads := Loads(r);
              report == Report(loads[0], loads[1], loads[2], loads[3], loads[4], loads[5] - loads[6] - loads[7])
      ensures report.workerBusy <= |workers| && 0 <= report.queued <= capacity
      ensures report.enqueued == old(enqueued)
      ensures (forall k :: others(k) == []) ==>
                report == old(Report(enqueued, started, completed, failed, |ch|, started - completed - failed))
    {
      var all, begun, done, bad, queued := LoadFields(r, others);
      var busy := LoadBusy(r, others(5), others(6));
      ReportBounded(Snapshot(), bufferSize, numWorkers, r);
      return Report(all, begun, done, bad, queued, busy);
    }

    /** The loads of the first five fields. */
    method LoadFields(r: nat, others: nat -> seq<Action>)
      returns (all: int, begun: int, done: int, bad: int, queued: int)
      requires Valid() && r !in readers
      modifies this
      ensures Valid() && Loads(r) == [all, begun, done, bad, queued] && all == old(enqueued)
      ensures (forall k :: others(k) == []) ==> Loads(r) == old(Numbers())[..5] && Numbers() == old(Numbers())
    {
      all, begun, done := LoadThree(r, others);
      bad := LoadThenWait(r, others(3));
      queued := LoadThenWait(r, others(4));
    }

    method LoadThree(r: nat, others: nat -> seq<Action>) returns (all: int, begun: int, done: int)
      requires Valid() && r !in readers
      modifies this
      ensures Valid() && Loads(r) == [all, begun, done] && all == old(enqueued)
      ensures (forall k :: others(k) == []) ==> Loads(r) == old(Numbers())[..3] && Numbers() == old(Numbers())
    {
      all := LoadThenWait(r, others(0));
      begun := LoadThenWait(r, others(1));
      done := LoadThenWait(r, others(2));
    }

    /** The three loads of WorkerBusy. */
    method LoadBusy(r: nat, others1: seq<Action>, others2: seq<Action>) returns (busy: int)
      requires Valid() && |Loads(r)| == 5
      modifies this
      ensures Valid() && |Loads(r)| == LOADS_OF_STATS && Loads(r)[..5] == old(Loads(r))
      ensures busy == Loads(r)[5] - Loads(r)[6] - Loads(r)[7]
      ensures others1 == others2 == [] ==> busy == old(started) - old(completed) - old(failed)
    {
      var begun := LoadThenWait(r, others1);
      var done := LoadThenWait(r, others2);
      var bad := LoadNext(r);
      return begun - done - bad;
    }
  }
}
