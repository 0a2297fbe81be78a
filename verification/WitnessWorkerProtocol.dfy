/** Serialized requests to a replaceable witness worker: queueing, replies, errors, aborts and disposal. */
module WitnessWorkerProtocol {
  import opened Common

  datatype Outcome = Resolved | Rejected | Aborted

  /** A call that has finished; a call settled before it was posted has no request id. */
  datatype Settlement = Settlement(ticket: nat, requestId: Option<nat>, outcome: Outcome)

  /**
   * The state kept for one workspace. Calls are numbered by tickets, workers in order of creation. The queue of the
   * program is a chain of promises, each call waiting for the one before it: enqueued lists the calls of the chain,
   * settled the outcomes so far, and queue the calls whose turn has not come.
   */
  datatype State = State(
    worker: Option<nat>,
    nextWorker: nat,
    nextRequestId: nat,
    pending: map<nat, nat>,
    queue: seq<nat>,
    aborted: set<nat>,
    enqueued: seq<nat>,
    settled: seq<Settlement>)

  const Initial := State(None, 0, 1, map[], [], {}, [], [])

  /** workerOk and postOk say whether creating a worker and posting the message succeed. */
  datatype Step =
    | Enqueue(ticket: nat)
    | Start(workerOk: bool, postOk: bool)
    | Reply(worker: nat, requestId: nat, ok: bool)
    | WorkerError(worker: nat)
    | Abort(ticket: nat)
    | Dispose

  function Settle(s: State, ticket: nat, requestId: Option<nat>, outcome: Outcome): State {
    s.(settled := s.settled + [Settlement(ticket, requestId, outcome)])
  }

  /** Pending calls in the order of their request ids, which is the order of the Map. */
  function PendingIn(pending: map<nat, nat>, below: nat, outcome: Outcome): seq<Settlement> {
    if below == 0 then []
    else PendingIn(pending, below - 1, outcome)
         + if below - 1 in pending then [Settlement(pending[below - 1], Some(below - 1), outcome)] else []
  }

  /** terminateTrialWitnessWorker: forget the worker and reject whatever is pending. */
  function Terminate(s: State, outcome: Outcome): State {
    s.(worker := None, pending := map[], settled := s.settled + PendingIn(s.pending, s.nextRequestId, outcome))
  }

  /** Every call taken from the queue has settled, so the promise the next one waits for is resolved. */
  predicate ChainIdle(s: State) {
    |s.settled| + |s.queue| == |s.enqueued|
  }

  /** The next queued call runs once the call before it has settled; nothing looks at the pending requests. */
  function StartNext(s: State, workerOk: bool, postOk: bool): State {
    if !ChainIdle(s) || s.queue == [] then s
    else
      var ticket, s1 := s.queue[0], s.(queue := s.queue[1..]);
      if ticket in s.aborted then Settle(s1, ticket, None, Aborted)
      else if s.worker.None? && !workerOk then Settle(s1, ticket, None, Rejected)
      else
        var s2 := if s.worker.Some? then s1 else s1.(worker := Some(s.nextWorker), nextWorker := s.nextWorker + 1);
        var id, s3 := s.nextRequestId, s2.(nextRequestId := s.nextRequestId + 1);
        if postOk then s3.(pending := s3.pending[id := ticket])
        else Settle(s3.(pending := s3.pending - {id}), ticket, Some(id), Rejected)
  }

  function ReceiveReply(s: State, worker: nat, requestId: nat, ok: bool): State {
    if s.worker != Some(worker) || requestId !in s.pending then s
    else Settle(s.(pending := s.pending - {requestId}), s.pending[requestId], Some(requestId), if ok then Resolved else Rejected)
  }

  predicate IsPending(s: State, ticket: nat) {
    exists id | id in s.pending :: s.pending[id] == ticket
  }

  function Next(s: State, step: Step): State {
    match step
    case Enqueue(ticket) => s.(queue := s.queue + [ticket], enqueued := s.enqueued + [ticket])
    case Start(workerOk, postOk) => StartNext(s, workerOk, postOk)
    case Reply(worker, requestId, ok) => ReceiveReply(s, worker, requestId, ok)
    case WorkerError(worker) => if s.worker == Some(worker) then Terminate(s, Rejected) else s
    case Abort(ticket) =>
      var s1 := s.(aborted := s.aborted + {ticket});
      if IsPending(s, ticket) then Terminate(s1, Aborted) else s1
    case Dispose => Terminate(s, Aborted)
  }

  // ----- The object the program updates -----

  /** The fields of a workspace's worker state and the callbacks that change them. */
  class WorkerState {
    var worker: Option<nat>
    var nextWorker: nat
    var nextRequestId: nat
    var pending: map<nat, nat>
    var queue: seq<nat>
    var aborted: set<nat>
    var enqueued: seq<nat>
    var settled: seq<Settlement>

    function Now(): State
      reads this
    {
      State(worker, nextWorker, nextRequestId, pending, queue, aborted, enqueued, settled)
    }

    constructor ()
      ensures Now() == Initial
    {
      worker, nextWorker, nextRequestId, pending, queue, aborted := None, 0, 1, map[], [], {};
      enqueued, settled := [], [];
    }

    method TerminateWorker(outcome: Outcome)
      modifies this
      ensures Now() == Terminate(old(Now()), outcome)
    {
      worker := None;
      settled := settled + PendingIn(pending, nextRequestId, outcome);
      pending := map[];
    }

    method QueueCall(ticket: nat)
      modifies this
      ensures Now() == Next(old(Now()), Enqueue(ticket))
    {
      queue := queue + [ticket];
      enqueued := enqueued + [ticket];
    }

    method RunNext(workerOk: bool, postOk: bool)
      modifies this
      ensures Now() == Next(old(Now()), Start(workerOk, postOk))
    {
      if |settled| + |queue| != |enqueued| || queue == [] {
        return;
      }
      var ticket := queue[0];
      queue := queue[1..];
      if ticket in aborted {
        settled := settled + [Settlement(ticket, None, Aborted)];
        return;
      }
      if worker.None? {
        if !workerOk {
          settled := settled + [Settlement(ticket, None, Rejected)];
          return;
        }
        worker, nextWorker := Some(nextWorker), nextWorker + 1;
      }
      var id := nextRequestId;
      nextRequestId := nextRequestId + 1;
      pending := pending[id := ticket];
      if !postOk {
        assert pending - {id} == old(pending) - {id};
        pending := pending - {id};
        settled := settled + [Settlement(ticket, Some(id), Rejected)];
      }
    }

    method OnMessage(from: nat, requestId: nat, ok: bool)
      modifies this
      ensures Now() == Next(old(Now()), Reply(from, requestId, ok))
    {
      if worker != Some(from) || requestId !in pending {
        return;
      }
      settled := settled + [Settlement(pending[requestId], Some(requestId), if ok then Resolved else Rejected)];
      pending := pending - {requestId};
    }

    method OnError(from: nat)
      modifies this
      ensures Now() == Next(old(Now()), WorkerError(from))
    {
      if worker == Some(from) {
        TerminateWorker(Rejected);
      }
    }

    method OnAbort(ticket: nat)
      modifies this
      ensures Now() == Next(old(Now()), Abort(ticket))
    {
      aborted := aborted + {ticket};
      if exists id | id in pending :: pending[id] == ticket {
        TerminateWorker(Aborted);
      }
    }
  }

  // ----- What every interleaving keeps -----

  function Tickets(settled: seq<Settlement>): (tickets: seq<nat>)
    ensures |tickets| == |settled|
    ensures forall i | 0 <= i < |settled| :: tickets[i] == settled[i].ticket
  {
    seq(|settled|, i requires 0 <= i < |settled| => settled[i].ticket)
  }

  function InFlight(s: State): seq<nat> {
    if s.nextRequestId > 0 && s.nextRequestId - 1 in s.pending then [s.pending[s.nextRequestId - 1]] else []
  }

  /** Settled request ids increase strictly. */
  predicate IdsIncrease(settled: seq<Settlement>) {
    forall i, j | 0 <= i < j < |settled| && settled[i].requestId.Some? && settled[j].requestId.Some? ::
      settled[i].requestId.value < settled[j].requestId.value
  }

  predicate IdsBelow(settled: seq<Settlement>, bound: nat) {
    forall i | 0 <= i < |settled| && settled[i].requestId.Some? :: settled[i].requestId.value < bound
  }

  /**
   * At most one request is pending, the latest one, and then a worker is alive; settled calls, the call in flight
   * and queued calls are, in this order, exactly the calls ever enqueued.
   */
  ghost predicate Valid(s: State) {
    && s.nextRequestId >= 1
    && s.pending.Keys <= {s.nextRequestId - 1}
    && (s.pending != map[] ==> s.worker.Some?)
    && (s.worker.Some? ==> s.worker.value < s.nextWorker)
    && IdsIncrease(s.settled)
    && IdsBelow(s.settled, if s.pending == map[] then s.nextRequestId else s.nextRequestId - 1)
    && Tickets(s.settled) + InFlight(s) + s.queue == s.enqueued
  }

  lemma TicketsAppend(a: seq<Settlement>, b: seq<Settlement>)
    ensures Tickets(a + b) == Tickets(a) + Tickets(b)
  {
  }

  lemma IdsAppend(settled: seq<Settlement>, last: Settlement, bound: nat)
    requires IdsIncrease(settled) && IdsBelow(settled, bound)
    requires last.requestId.Some? ==> last.requestId.value >= bound
    ensures IdsIncrease(settled + [last])
    ensures IdsBelow(settled + [last], if last.requestId.Some? then last.requestId.value + 1 else bound)
  {
  }

  lemma {:induction false} NothingPending(pending: map<nat, nat>, below: nat, outcome: Outcome)
    requires forall id | id in pending :: id >= below
    ensures PendingIn(pending, below, outcome) == []
  {
    if below > 0 {
      NothingPending(pending, below - 1, outcome);
    }
  }

  /** With one pending request at most, termination settles that one. */
  lemma TerminateSettles(s: State, outcome: Outcome)
    requires Valid(s)
    ensures PendingIn(s.pending, s.nextRequestId, outcome)
         == if s.pending == map[] then [] else [Settlement(s.pending[s.nextRequestId - 1], Some(s.nextRequestId - 1), outcome)]
  {
    NothingPending(s.pending, s.nextRequestId - 1, outcome);
    LatestPending(s);
  }

  lemma LatestPending(s: State)
    requires Valid(s)
    ensures s.pending == map[] || s.pending == map[s.nextRequestId - 1 := s.pending[s.nextRequestId - 1]]
  {
    if s.pending != map[] {
      assert s.pending.Keys != {};
      var id :| id in s.pending;
      assert s.pending.Keys == {s.nextRequestId - 1};
    }
  }

  /** Settling the call in flight keeps everything in order. */
  lemma SettleInFlight(s: State, outcome: Outcome, t: State)
    requires Valid(s) && s.pending != map[]
    requires t.pending == map[] && t.nextRequestId == s.nextRequestId && t.queue == s.queue && t.enqueued == s.enqueued
    requires t.settled == s.settled + [Settlement(s.pending[s.nextRequestId - 1], Some(s.nextRequestId - 1), outcome)]
    requires t.worker.Some? ==> t.worker.value < t.nextWorker
    ensures Valid(t)
  {
    var last := Settlement(s.pending[s.nextRequestId - 1], Some(s.nextRequestId - 1), outcome);
    IdsAppend(s.settled, last, s.nextRequestId - 1);
    TicketsAppend(s.settled, [last]);
    assert Tickets([last]) == InFlight(s);
    assert InFlight(t) == [];
    assert Tickets(t.settled) + InFlight(t) + t.queue == Tickets(s.settled) + InFlight(s) + s.queue;
  }

  lemma TerminateValid(s: State, outcome: Outcome)
    requires Valid(s)
    ensures Valid(Terminate(s, outcome))
  {
    TerminateSettles(s, outcome);
    LatestPending(s);
    if s.pending != map[] {
      SettleInFlight(s, outcome, Terminate(s, outcome));
    } else {
      assert s.settled + [] == s.settled;
    }
  }

  /** The next call either settles at once or becomes the call in flight. */
  lemma TakeNext(s: State, t: State)
    requires Valid(s) && s.pending == map[] && s.queue != []
    requires t.queue == s.queue[1..] && t.enqueued == s.enqueued
    requires t.nextRequestId >= s.nextRequestId && (t.worker.Some? ==> t.worker.value < t.nextWorker)
    requires || (&& t.pending == map[] && |t.settled| == |s.settled| + 1 && t.settled[..|s.settled|] == s.settled
                 && t.settled[|s.settled|].ticket == s.queue[0]
                 && (t.settled[|s.settled|].requestId.Some? ==>
                       t.settled[|s.settled|].requestId == Some(s.nextRequestId) && t.nextRequestId == s.nextRequestId + 1))
             || (&& t.pending == map[s.nextRequestId := s.queue[0]] && t.settled == s.settled
                 && t.nextRequestId == s.nextRequestId + 1 && t.worker.Some?)
    ensures Valid(t)
  {
    assert s.queue == [s.queue[0]] + s.queue[1..];
    if t.pending == map[] {
      var last := t.settled[|s.settled|];
      assert t.settled == s.settled + [last];
      IdsAppend(s.settled, last, s.nextRequestId);
      TicketsAppend(s.settled, [last]);
      assert Tickets(t.settled) == Tickets(s.settled) + [s.queue[0]];
    }
  }

  /** The call taken last has settled exactly if no request is pending. */
  lemma IdleMeansNothingPending(s: State)
    requires Valid(s)
    ensures ChainIdle(s) <==> s.pending == map[]
  {
    LatestPending(s);
    assert |Tickets(s.settled)| + |InFlight(s)| + |s.queue| == |s.enqueued|;
  }

  lemma StartValid(s: State, workerOk: bool, postOk: bool)
    requires Valid(s)
    ensures Valid(StartNext(s, workerOk, postOk))
  {
    IdleMeansNothingPending(s);
    if ChainIdle(s) && s.queue != [] {
      TakeNext(s, StartNext(s, workerOk, postOk));
    }
  }

  /** Every step keeps the state valid. */
  lemma StepValid(s: State, step: Step)
    requires Valid(s)
    ensures Valid(Next(s, step))
  {
    match step {
      case Enqueue(ticket) =>
        assert Tickets(s.settled) + InFlight(s) + (s.queue + [ticket]) == s.enqueued + [ticket];
      case Start(workerOk, postOk) => StartValid(s, workerOk, postOk);
      case Reply(worker, requestId, ok) =>
        if Next(s, step) != s {
          LatestPending(s);
          SettleInFlight(s, if ok then Resolved else Rejected, Next(s, step));
        }
      case WorkerError(_) => TerminateValid(s, Rejected);
      case Abort(ticket) =>
        var s1 := s.(aborted := s.aborted + {ticket});
        assert Valid(s1);
        TerminateValid(s1, Aborted);
      case Dispose => TerminateValid(s, Aborted);
    }
  }

  /** The states of an interleaving. */
  ghost predicate Run(states: seq<State>, steps: seq<Step>) {
    && |states| == |steps| + 1
    && states[0] == Initial
    && forall i | 0 <= i < |steps| :: states[i + 1] == Next(states[i], steps[i])
  }

  /** In every state of every interleaving: one pending request at most, ids in order, no call lost or doubled. */
  lemma {:induction false} RunValid(states: seq<State>, steps: seq<Step>, i: nat)
    requires Run(states, steps) && i <= |steps|
    ensures Valid(states[i]) && |states[i].pending| <= 1
  {
    if i > 0 {
      RunValid(states, steps, i - 1);
      StepValid(states[i - 1], steps[i - 1]);
    }
    LatestPending(states[i]);
  }

  /** When every call has its own ticket, no call settles twice, or settles while queued or in flight. */
  lemma SettledOnce(states: seq<State>, steps: seq<Step>, i: nat)
    requires Run(states, steps) && i <= |steps| && Distinct(states[i].enqueued)
    ensures Distinct(Tickets(states[i].settled) + InFlight(states[i]) + states[i].queue)
    ensures forall a, b | 0 <= a < b < |states[i].settled| :: states[i].settled[a].ticket != states[i].settled[b].ticket
  {
    RunValid(states, steps, i);
    var s := states[i];
    forall a, b | 0 <= a < b < |s.settled|
      ensures s.settled[a].ticket != s.settled[b].ticket
    {
      assert s.enqueued[a] == s.settled[a].ticket && s.enqueued[b] == s.settled[b].ticket;
    }
  }

  lemma WorkerStep(s: State, step: Step)
    requires Valid(s)
    ensures var t := Next(s, step);
            s.nextWorker <= t.nextWorker && (t.worker.Some? ==> t.worker == s.worker || t.worker.value >= s.nextWorker)
  {
  }

  /** Workers are numbered in order of creation, so a later worker has a larger number. */
  lemma {:induction false} WorkersInOrder(states: seq<State>, steps: seq<Step>, i: nat, j: nat)
    requires Run(states, steps) && i <= j <= |steps|
    ensures states[i].nextWorker <= states[j].nextWorker
    ensures states[j].worker.Some? ==> states[j].worker == states[i].worker || states[j].worker.value >= states[i].nextWorker
    decreases j
  {
    if i < j {
      WorkersInOrder(states, steps, i, j - 1);
      RunValid(states, steps, j - 1);
      WorkerStep(states[j - 1], steps[j - 1]);
    }
  }

  /** A message from a worker that has been replaced or terminated changes nothing, then or ever after. */
  lemma StaleWorkerIsIgnored(states: seq<State>, steps: seq<Step>, i: nat, j: nat, k: nat, worker: nat)
    requires Run(states, steps) && i <= j <= k < |steps|
    requires states[i].worker == Some(worker) && states[j].worker != Some(worker)
    requires steps[k] == WorkerError(worker) || (steps[k].Reply? && steps[k].worker == worker)
    ensures states[k + 1] == states[k]
  {
    RunValid(states, steps, i);
    RunValid(states, steps, j);
    WorkersInOrder(states, steps, i, j);
    WorkersInOrder(states, steps, j, k);
  }

  /** A reply from the live worker to the pending request settles exactly that call with the reply's outcome. */
  lemma ReplySettles(s: State, worker: nat, requestId: nat, ok: bool)
    requires Valid(s) && s.worker == Some(worker) && requestId in s.pending
    ensures var t := Next(s, Reply(worker, requestId, ok));
            && t.settled == s.settled + [Settlement(s.pending[requestId], Some(requestId), if ok then Resolved else Rejected)]
            && t.pending == map[] && t.worker == s.worker && t.queue == s.queue
  {
    LatestPending(s);
  }

  // ----- Disposal -----

  /** Steps after disposal: the workspace no longer hands this state to new calls. */
  predicate AfterDisposal(steps: seq<Step>) {
    forall i | 0 <= i < |steps| :: !steps[i].Enqueue?
  }

  function After(s: State, steps: seq<Step>): State
    decreases |steps|
  {
    if steps == [] then s else After(Next(s, steps[0]), steps[1..])
  }

  predicate AllAborted(s: State) {
    s.pending == map[] && s.worker.None? && forall i | 0 <= i < |s.queue| :: s.queue[i] in s.aborted
  }

  lemma {:induction false} AbortedQueueStaysIdle(s: State, steps: seq<Step>)
    requires AllAborted(s) && AfterDisposal(steps)
    ensures After(s, steps).worker.None?
    decreases |steps|
  {
    if steps != [] {
      var t := Next(s, steps[0]);
      NothingPending(s.pending, s.nextRequestId, Rejected);
      assert forall i | 0 <= i < |t.queue| :: t.queue[i] in s.queue;
      AbortedQueueStaysIdle(t, steps[1..]);
    }
  }

  lemma {:induction false} WaitingCallRestartsWorker(s: State, k: nat) returns (steps: seq<Step>)
    requires Valid(s) && s.pending == map[] && s.worker.None? && k < |s.queue| && s.queue[k] !in s.aborted
    ensures AfterDisposal(steps) && After(s, steps).worker.Some?
    decreases k
  {
    var first := Start(true, true);
    var t := Next(s, first);
    IdleMeansNothingPending(s);
    StepValid(s, first);
    if s.queue[0] !in s.aborted {
      steps := [first];
      assert steps[1..] == [];
    } else {
      var rest := WaitingCallRestartsWorker(t, k - 1);
      steps := [first] + rest;
      assert steps[1..] == rest;
    }
  }

  /**
   * Disposing terminates the current worker, but a call still waiting in the queue starts a new one that nothing
   * disposes: the disposed state stays without a worker, whatever happens next, exactly if every queued call was
   * already aborted.
   */
  lemma DisposalIsFinalExactlyIfQueueAborted(s: State)
    requires Valid(s)
    ensures (forall steps: seq<Step> | AfterDisposal(steps) :: After(Next(s, Dispose), steps).worker.None?)
       <==> (forall i | 0 <= i < |s.queue| :: s.queue[i] in s.aborted)
  {
    var t := Next(s, Dispose);
    StepValid(s, Dispose);
    if forall i | 0 <= i < |s.queue| :: s.queue[i] in s.aborted {
      forall steps: seq<Step> | AfterDisposal(steps)
        ensures After(t, steps).worker.None?
      {
        AbortedQueueStaysIdle(t, steps);
      }
    } else {
      var k :| 0 <= k < |s.queue| && s.queue[k] !in s.aborted;
      var steps := WaitingCallRestartsWorker(t, k);
    }
  }

  /** The shortest such history: one call in flight, one waiting, then disposal and the waiting call's turn. */
  lemma WorkerOutlivesDisposal()
    ensures var s := After(Initial, [Enqueue(0), Enqueue(1), Start(true, true)]);
            Next(s, Dispose).worker.None? && Next(Next(s, Dispose), Start(true, true)).worker == Some(1)
  {
    var s0 := Next(Initial, Enqueue(0));
    var s1 := Next(s0, Enqueue(1));
    var s2 := Next(s1, Start(true, true));
    var steps := [Enqueue(0), Enqueue(1), Start(true, true)];
    assert steps[1..] == [Enqueue(1), Start(true, true)];
    assert steps[1..][1..] == [Start(true, true)];
    assert steps[1..][1..][1..] == [];
    assert After(s1, [Start(true, true)]) == After(s2, []);
    assert After(s0, steps[1..]) == After(s1, steps[1..][1..]);
    assert After(Initial, steps) == s2;
    StepValid(s2, Dispose);
    IdleMeansNothingPending(Next(s2, Dispose));
  }
}
