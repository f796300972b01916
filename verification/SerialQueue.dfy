/**
 The serial operation queue of semantic.js (`DocumentMemory.enqueue`). For each accepted
 operation there are three promises: its result (`tail.then(operation)`), the next tail
 (`result.then(handler, handler)`) and the promise returned to the caller (`result.finally`).
 Promise reactions run as microtasks, first in first out. A reaction without a handler for the
 settlement it sees passes the settlement on. The handlers of the tail are a parameter, so that
 what the rejection handler is for can be stated.
 */
module SerialQueue {

  /** How a promise settles. */
  datatype Outcome = Fulfilled | Rejected

  /** Which of the two handlers `then` was given. */
  datatype Handlers = Handlers(onFulfilled: bool, onRejected: bool)

  /** `then(operation)` */
  const START := Handlers(true, false)
  /** `then(() => undefined, () => undefined)` */
  const TAIL := Handlers(true, true)

  predicate Handles(h: Handlers, outcome: Outcome) {
    if outcome == Fulfilled then h.onFulfilled else h.onRejected
  }

  /** How `result.then(...)` with handlers that return nothing settles. */
  function AfterTail(h: Handlers, outcome: Outcome): Outcome {
    if Handles(h, outcome) then Fulfilled else outcome
  }

  /** A pending reaction, with the settlement it reacts to. */
  datatype Task =
    | Start(id: nat, tail: Outcome)        // of `tail.then(operation)`
    | TailDone(id: nat, result: Outcome)   // of `result.then(...)`
    | Finally(id: nat, result: Outcome)    // of `result.finally(...)`

  /** What the caller of `enqueue` gets at once. */
  datatype Reply = QueueFull | Accepted(id: nat)

  /**
   `accepted` counts accepted operations, which are numbered in order, and `running` is the one
   in flight. `tails`, `results` and `returned` are the settlements of the three promises of
   each operation so far. `started` lists the operations invoked and `outcomes` how each of
   them ended.
   */
  datatype Queue = Queue(
    maxPending: nat,
    handlers: Handlers,
    pending: nat,
    accepted: nat,
    running: seq<nat>,
    tasks: seq<Task>,
    tails: seq<Outcome>,
    results: seq<Outcome>,
    returned: seq<Outcome>,
    started: seq<nat>,
    outcomes: map<nat, Outcome>)

  function New(maxPending: nat, handlers: Handlers): Queue {
    Queue(maxPending, handlers, 0, 0, [], [], [], [], [], [], map[])
  }

  // ----- steps -------------------------------------------------------------

  datatype Event = Enqueue | RunTask | Settle(outcome: Outcome)

  /** The settlement of the newest settled tail; the first tail is `Promise.resolve()`. */
  function LastTail(tails: seq<Outcome>): Outcome {
    if tails == [] then Fulfilled else tails[|tails| - 1]
  }

  /** If the current tail is already settled, `then` queues its reaction at once. */
  function EnqueueStep(q: Queue): Queue {
    if q.pending >= q.maxPending then q
    else q.(
      pending := q.pending + 1,
      accepted := q.accepted + 1,
      tasks := q.tasks + (if |q.tails| == q.accepted then [Start(q.accepted, LastTail(q.tails))] else []))
  }

  function ReplyTo(q: Queue): Reply {
    if q.pending >= q.maxPending then QueueFull else Accepted(q.accepted)
  }

  /** The result of operation `id` settles: its two reactions are queued, the tail's first. */
  function SettleResult(q: Queue, id: nat, outcome: Outcome): Queue {
    q.(results := q.results + [outcome], tasks := q.tasks + [TailDone(id, outcome), Finally(id, outcome)])
  }

  /** A tail that fulfilled starts the operation; one that rejected skips it and rejects the result. */
  function StartStep(q: Queue, id: nat, tail: Outcome): Queue {
    if Handles(START, tail) then q.(running := q.running + [id], started := q.started + [id])
    else SettleResult(q, id, tail)
  }

  /** The tail settles, and the next operation, if any, reacts to it. */
  function TailStep(q: Queue, id: nat, result: Outcome): Queue {
    var tail := AfterTail(q.handlers, result);
    q.(tails := q.tails + [tail], tasks := q.tasks + (if id + 1 < q.accepted then [Start(id + 1, tail)] else []))
  }

  /** The count drops, and the returned promise settles as the result did. */
  function FinallyStep(q: Queue, result: Outcome): Queue {
    q.(pending := if q.pending == 0 then 0 else q.pending - 1, returned := q.returned + [result])
  }

  function RunTaskStep(q: Queue): Queue
    requires q.tasks != []
  {
    var rest := q.(tasks := q.tasks[1..]);
    match q.tasks[0]
    case Start(id, tail) => StartStep(rest, id, tail)
    case TailDone(id, result) => TailStep(rest, id, result)
    case Finally(id, result) => FinallyStep(rest, result)
  }

  /** The operation in flight ends with this outcome. */
  function SettleStep(q: Queue, outcome: Outcome): Queue
    requires q.running != []
  {
    var id := q.running[0];
    SettleResult(q.(running := q.running[1..], outcomes := q.outcomes[id := outcome]), id, outcome)
  }

  predicate Enabled(q: Queue, event: Event) {
    match event
    case Enqueue => true
    case RunTask => q.tasks != []
    case Settle(_) => q.running != []
  }

  function Next(q: Queue, event: Event): Queue
    requires Enabled(q, event)
  {
    match event
    case Enqueue => EnqueueStep(q)
    case RunTask => RunTaskStep(q)
    case Settle(outcome) => SettleStep(q, outcome)
  }

  ghost predicate IsRun(run: seq<Queue>, events: seq<Event>, maxPending: nat, handlers: Handlers) {
    && |run| == |events| + 1 && run[0] == New(maxPending, handlers)
    && forall i :: 0 <= i < |events| ==> Enabled(run[i], events[i]) && run[i + 1] == Next(run[i], events[i])
  }

  // ----- the invariant -----------------------------------------------------

  /** 0, 1, ..., n - 1 */
  function Numbers(n: nat): (s: seq<nat>)
    ensures |s| == n
  {
    seq(n, i requires 0 <= i < n => i)
  }

  ghost function StartTask(q: Queue, id: nat): seq<Task> {
    if id < q.accepted then [Start(id, Fulfilled)] else []
  }

  ghost predicate Idle(q: Queue, k: nat) {
    && q.running == [] && |q.started| == k && |q.tails| == k && |q.returned| == k
    && q.tasks == StartTask(q, k)
  }

  ghost predicate InFlight(q: Queue, k: nat) {
    && q.running == [k] && |q.started| == k + 1 && |q.tails| == k && |q.returned| == k
    && q.tasks == []
  }

  ghost predicate JustSettled(q: Queue, k: nat) {
    && k > 0 && |q.results| == k && q.running == [] && |q.started| == k
    && |q.tails| == k - 1 && |q.returned| == k - 1
    && q.tasks == [TailDone(k - 1, q.results[k - 1]), Finally(k - 1, q.results[k - 1])]
  }

  ghost predicate TailSettled(q: Queue, k: nat) {
    && k > 0 && |q.results| == k && q.running == [] && |q.started| == k
    && |q.tails| == k && |q.returned| == k - 1
    && q.tasks == [Finally(k - 1, q.results[k - 1])] + StartTask(q, k)
  }

  /** The four shapes of the microtask queue between an idle queue and the next start. */
  ghost predicate Shape(q: Queue) {
    var k := |q.results|;
    Idle(q, k) || InFlight(q, k) || JustSettled(q, k) || TailSettled(q, k)
  }

  ghost predicate AllFulfilled(tails: seq<Outcome>) {
    forall i :: 0 <= i < |tails| ==> tails[i] == Fulfilled
  }

  /** The result of every operation is its own outcome. */
  ghost predicate OwnOutcomes(q: Queue) {
    && (forall i: nat :: i in q.outcomes <==> i < |q.results|)
    && (forall i: nat :: i < |q.results| ==> q.outcomes[i] == q.results[i])
  }

  ghost predicate Inv(q: Queue) {
    && q.maxPending > 0 && q.handlers.onRejected && Shape(q)
    && |q.started| <= q.accepted && q.started == Numbers(|q.started|)
    && AllFulfilled(q.tails) && OwnOutcomes(q) && q.returned <= q.results
    && q.pending == q.accepted - |q.returned| <= q.maxPending
  }

  lemma {:induction false} NewInv(maxPending: nat, handlers: Handlers)
    requires maxPending > 0 && handlers.onRejected
    ensures Inv(New(maxPending, handlers))
  {
    assert Idle(New(maxPending, handlers), 0);
    assert Numbers(0) == [];
  }

  lemma {:induction false} NumbersExtend(n: nat)
    ensures Numbers(n) + [n] == Numbers(n + 1)
  {
  }

  lemma {:induction false} EnqueueShape(q: Queue)
    requires Shape(q) && AllFulfilled(q.tails) && |q.started| <= q.accepted
    ensures Shape(EnqueueStep(q))
  {
    var t, k := EnqueueStep(q), |q.results|;
    if Idle(q, k) {
      assert Idle(t, k);
    } else if InFlight(q, k) {
      assert InFlight(t, k);
    } else if JustSettled(q, k) {
      assert JustSettled(t, k);
    } else {
      assert TailSettled(t, k);
    }
  }

  lemma {:induction false} EnqueueInv(q: Queue)
    requires Inv(q)
    ensures Inv(EnqueueStep(q))
  {
    assert Shape(EnqueueStep(q)) by { EnqueueShape(q); }
  }

  lemma {:induction false} StartInv(q: Queue)
    requires Inv(q) && q.tasks != [] && q.tasks[0].Start?
    ensures Inv(RunTaskStep(q))
  {
    NumbersExtend(|q.started|);
    assert Idle(q, |q.results|);
    assert InFlight(RunTaskStep(q), |q.results|);
  }

  lemma {:induction false} TailInv(q: Queue)
    requires Inv(q) && q.tasks != [] && q.tasks[0].TailDone?
    ensures Inv(RunTaskStep(q))
  {
    var k := |q.results|;
    assert JustSettled(q, k);
    assert AfterTail(q.handlers, q.results[k - 1]) == Fulfilled;
    assert TailSettled(RunTaskStep(q), k);
  }

  lemma {:induction false} FinallyInv(q: Queue)
    requires Inv(q) && q.tasks != [] && q.tasks[0].Finally?
    ensures Inv(RunTaskStep(q))
  {
    var k := |q.results|;
    assert TailSettled(q, k);
    assert Idle(RunTaskStep(q), k);
    assert q.returned + [q.results[k - 1]] == q.results;
  }

  lemma {:induction false} FinallyIsCounted(q: Queue)
    requires Inv(q) && q.tasks != [] && q.tasks[0].Finally?
    ensures q.pending > 0
  {
    assert TailSettled(q, |q.results|);
  }

  lemma {:induction false} RunTaskInv(q: Queue)
    requires Inv(q) && q.tasks != []
    ensures Inv(RunTaskStep(q))
  {
    match q.tasks[0]
    case Start(_, _) => StartInv(q);
    case TailDone(_, _) => TailInv(q);
    case Finally(_, _) => FinallyInv(q);
  }

  lemma {:induction false} SettleInv(q: Queue, outcome: Outcome)
    requires Inv(q) && q.running != []
    ensures Inv(SettleStep(q, outcome))
  {
    var k := |q.results|;
    assert InFlight(q, k);
    assert JustSettled(SettleStep(q, outcome), k + 1);
  }

  lemma {:induction false} NextInv(q: Queue, event: Event)
    requires Inv(q) && Enabled(q, event)
    ensures Inv(Next(q, event))
  {
    match event
    case Enqueue => EnqueueInv(q);
    case RunTask => RunTaskInv(q);
    case Settle(outcome) => SettleInv(q, outcome);
  }

  lemma {:induction false} RunInv(run: seq<Queue>, events: seq<Event>, maxPending: nat, handlers: Handlers, i: nat)
    requires IsRun(run, events, maxPending, handlers) && maxPending > 0 && handlers.onRejected && i < |run|
    ensures Inv(run[i]) && run[i].maxPending == maxPending
  {
    if i == 0 {
      NewInv(maxPending, handlers);
    } else {
      RunInv(run, events, maxPending, handlers, i - 1);
      NextInv(run[i - 1], events[i - 1]);
    }
  }

  // ----- what holds over every run -----------------------------------------

  /**
   At every point of every run: `pending` counts the accepted operations whose `finally` has
   not run and never exceeds the bound, at most one operation is in flight, operations start
   in acceptance order, and an operation runs only after all before it settled and left the
   count.
   */
  lemma {:induction false} BoundedSerialFifo(run: seq<Queue>, events: seq<Event>, maxPending: nat, i: nat)
    requires IsRun(run, events, maxPending, TAIL) && maxPending > 0 && i < |run|
    ensures run[i].pending == run[i].accepted - |run[i].returned| <= maxPending
    ensures |run[i].running| <= 1
    ensures run[i].started == Numbers(|run[i].started|)
    ensures |run[i].started| == |run[i].results| + |run[i].running|
    ensures run[i].running != [] ==> run[i].running[0] == |run[i].results| == |run[i].returned|
  {
    RunInv(run, events, maxPending, TAIL, i);
  }

  /** An enqueue is refused exactly when the bound of unfinished operations is reached. */
  lemma {:induction false} RefusedIffFull(run: seq<Queue>, events: seq<Event>, maxPending: nat, i: nat)
    requires IsRun(run, events, maxPending, TAIL) && maxPending > 0 && i < |run|
    ensures ReplyTo(run[i]) == QueueFull <==> run[i].accepted - |run[i].returned| == maxPending
    ensures ReplyTo(run[i]).Accepted? ==> ReplyTo(run[i]).id == run[i].accepted
    ensures ReplyTo(run[i]) == QueueFull ==> EnqueueStep(run[i]) == run[i]
  {
    RunInv(run, events, maxPending, TAIL, i);
  }

  /** A submission that is not refused adds exactly one operation, the next in number. */
  lemma {:induction false} AcceptedAdds(q: Queue)
    ensures ReplyTo(q).Accepted? <==> EnqueueStep(q).accepted == q.accepted + 1
    ensures ReplyTo(q).Accepted? ==>
              ReplyTo(q).id == q.accepted && EnqueueStep(q).pending == q.pending + 1
    ensures EnqueueStep(q).results == q.results && EnqueueStep(q).outcomes == q.outcomes
  {
  }

  lemma {:induction false} AcceptedGrows(run: seq<Queue>, events: seq<Event>, maxPending: nat, handlers: Handlers,
                                         i: nat, j: nat)
    requires IsRun(run, events, maxPending, handlers) && i <= j < |run|
    ensures run[i].accepted <= run[j].accepted
    decreases j
  {
    if i < j {
      AcceptedGrows(run, events, maxPending, handlers, i, j - 1);
      assert run[j] == Next(run[j - 1], events[j - 1]);
    }
  }

  /** An accepted operation is started and settled by the time nothing is left to do. */
  lemma {:induction false} AcceptedIsStarted(run: seq<Queue>, events: seq<Event>, maxPending: nat, i: nat, j: nat)
    requires IsRun(run, events, maxPending, TAIL) && maxPending > 0 && i < |events| && i < j < |run|
    requires events[i] == Enqueue && ReplyTo(run[i]).Accepted? && run[j].tasks == [] && run[j].running == []
    ensures ReplyTo(run[i]).id < |run[j].started| && run[j].started[ReplyTo(run[i]).id] == ReplyTo(run[i]).id
    ensures ReplyTo(run[i]).id < |run[j].results| && ReplyTo(run[i]).id < |run[j].returned|
  {
    assert run[i + 1] == Next(run[i], events[i]);
    AcceptedGrows(run, events, maxPending, TAIL, i + 1, j);
    RunInv(run, events, maxPending, TAIL, j);
    assert Idle(run[j], |run[j].results|);
  }

  // ----- failure isolation -------------------------------------------------

  /** Every tail fulfils, and every promise returned settles with the outcome of its own operation. */
  ghost predicate Isolated(q: Queue) {
    && AllFulfilled(q.tails)
    && (forall j: nat :: j < |q.results| ==> j in q.outcomes && q.results[j] == q.outcomes[j])
    && (forall j: nat :: j < |q.returned| ==> j in q.outcomes && q.returned[j] == q.outcomes[j])
    && (q.tasks == [] && q.running == [] ==> q.started == Numbers(q.accepted))
  }

  ghost predicate AlwaysIsolated(maxPending: nat, handlers: Handlers) {
    forall run, events, i: nat :: IsRun(run, events, maxPending, handlers) && i < |run| ==> Isolated(run[i])
  }

  lemma {:induction false} IsolatedInRun(run: seq<Queue>, events: seq<Event>, maxPending: nat, handlers: Handlers,
                                         i: nat)
    requires IsRun(run, events, maxPending, handlers) && maxPending > 0 && handlers.onRejected && i < |run|
    ensures Isolated(run[i])
  {
    RunInv(run, events, maxPending, handlers, i);
    var q := run[i];
    assert forall j: nat :: j < |q.returned| ==> q.returned[j] == q.results[j];
  }

  /** Two operations accepted, the first started and rejected. */
  ghost function FirstRejected(maxPending: nat, h: Handlers): Queue {
    Queue(maxPending, h, 2, 2, [], [TailDone(0, Rejected), Finally(0, Rejected)],
          [], [Rejected], [], [0], map[0 := Rejected])
  }

  lemma {:induction false} RejectFirst(maxPending: nat, h: Handlers) returns (run: seq<Queue>)
    requires maxPending >= 2
    ensures IsRun(run, [Enqueue, Enqueue, RunTask, Settle(Rejected)], maxPending, h)
    ensures run[4] == FirstRejected(maxPending, h)
  {
    var q0 := New(maxPending, h);
    var q1 := q0.(pending := 1, accepted := 1, tasks := [Start(0, Fulfilled)]);
    var q2 := q1.(pending := 2, accepted := 2);
    var q3 := q2.(tasks := [], running := [0], started := [0]);
    assert EnqueueStep(q0) == q1 && EnqueueStep(q1) == q2 && RunTaskStep(q2) == q3;
    assert SettleStep(q3, Rejected) == FirstRejected(maxPending, h);
    run := [q0, q1, q2, q3, FirstRejected(maxPending, h)];
  }

  /** Without a rejection handler the second operation is skipped and rejected with the first. */
  lemma {:induction false} BareTailSkips(maxPending: nat, h: Handlers) returns (run: seq<Queue>, events: seq<Event>)
    requires maxPending >= 2 && !h.onRejected
    ensures IsRun(run, events, maxPending, h) && run[|events|].tails == [Rejected]
    ensures run[|events|].results == [Rejected, Rejected] && run[|events|].started == [0]
  {
    var front := RejectFirst(maxPending, h);
    var q4 := FirstRejected(maxPending, h);
    var q5 := q4.(tasks := [Finally(0, Rejected), Start(1, Rejected)], tails := [Rejected]);
    var q6 := q5.(tasks := [Start(1, Rejected)], pending := 1, returned := [Rejected]);
    var q7 := q6.(tasks := [TailDone(1, Rejected), Finally(1, Rejected)], results := [Rejected, Rejected]);
    assert RunTaskStep(q4) == q5 && RunTaskStep(q5) == q6 && RunTaskStep(q6) == q7;
    var more := [RunTask, RunTask, RunTask];
    events := [Enqueue, Enqueue, RunTask, Settle(Rejected)] + more;
    run := front + [q5, q6, q7];
  }

  /**
   What the rejection handler of the tail is for: outcomes stay with their own operations, and
   no operation is skipped, in every run exactly when the tail handles rejections.
   */
  lemma {:induction false} IsolatedIffRejectionHandled(maxPending: nat, handlers: Handlers)
    requires maxPending >= 2
    ensures AlwaysIsolated(maxPending, handlers) <==> handlers.onRejected
  {
    if handlers.onRejected {
      forall run, events, i: nat | IsRun(run, events, maxPending, handlers) && i < |run| ensures Isolated(run[i]) {
        IsolatedInRun(run, events, maxPending, handlers, i);
      }
    } else {
      var run, events := BareTailSkips(maxPending, handlers);
      assert !AllFulfilled(run[|events|].tails) by { assert run[|events|].tails[0] == Rejected; }
    }
  }

  /** In semantic.js: every run is isolated, for every bound. */
  lemma {:induction false} FailuresAreIsolated(run: seq<Queue>, events: seq<Event>, maxPending: nat, i: nat)
    requires IsRun(run, events, maxPending, TAIL) && maxPending > 0 && i < |run|
    ensures Isolated(run[i])
  {
    IsolatedInRun(run, events, maxPending, TAIL, i);
  }

  function EraseTask(task: Task): Task {
    match task
    case Start(id, tail) => Start(id, tail)
    case TailDone(id, _) => TailDone(id, Fulfilled)
    case Finally(id, _) => Finally(id, Fulfilled)
  }

  function EraseTasks(tasks: seq<Task>): (r: seq<Task>)
    ensures |r| == |tasks|
  {
    seq(|tasks|, i requires 0 <= i < |tasks| => EraseTask(tasks[i]))
  }

  function AllOk(n: nat): (r: seq<Outcome>)
    ensures |r| == n
  {
    seq(n, _ => Fulfilled)
  }

  /** The queue as it would be had every operation so far been fulfilled. */
  function Erase(q: Queue): Queue {
    q.(tasks := EraseTasks(q.tasks), results := AllOk(|q.results|), returned := AllOk(|q.returned|),
       outcomes := map i | i in q.outcomes :: Fulfilled)
  }

  function EraseEvent(event: Event): Event { if event.Settle? then Settle(Fulfilled) else event }

  lemma {:induction false} EraseRunTask(q: Queue)
    requires Inv(q) && q.tasks != []
    ensures Erase(q).tasks != [] && Erase(RunTaskStep(q)) == RunTaskStep(Erase(q))
  {
    var t, e := RunTaskStep(q), Erase(q);
    assert EraseTasks(q.tasks[1..]) == e.tasks[1..];
    match q.tasks[0]
    case Start(id, tail) =>
      assert tail == Fulfilled;
    case TailDone(id, result) =>
      var tail := AfterTail(q.handlers, result);
      assert tail == Fulfilled == AfterTail(q.handlers, Fulfilled);
      assert EraseTasks(q.tasks[1..] + [Start(id + 1, tail)]) == EraseTasks(q.tasks[1..]) + [Start(id + 1, tail)];
      assert q.tasks[1..] + [] == q.tasks[1..] && e.tasks[1..] + [] == e.tasks[1..];
    case Finally(id, result) =>
      assert AllOk(|q.returned|) + [Fulfilled] == AllOk(|q.returned| + 1);
  }

  lemma {:induction false} EraseEnqueue(q: Queue)
    ensures Erase(EnqueueStep(q)) == EnqueueStep(Erase(q))
  {
    var start := [Start(q.accepted, LastTail(q.tails))];
    assert EraseTasks(q.tasks + start) == EraseTasks(q.tasks) + start;
    assert q.tasks + [] == q.tasks && EraseTasks(q.tasks) + [] == EraseTasks(q.tasks);
  }

  lemma {:induction false} EraseSettle(q: Queue, outcome: Outcome)
    requires q.running != []
    ensures Erase(SettleStep(q, outcome)) == SettleStep(Erase(q), Fulfilled)
  {
    var id, n := q.running[0], |q.results|;
    assert EraseTasks(q.tasks + [TailDone(id, outcome), Finally(id, outcome)])
        == EraseTasks(q.tasks) + [TailDone(id, Fulfilled), Finally(id, Fulfilled)];
    assert AllOk(n) + [Fulfilled] == AllOk(n + 1);
    assert Erase(SettleStep(q, outcome)).outcomes == Erase(q).outcomes[id := Fulfilled];
  }

  /** A rejection changes no later step: the run with all outcomes fulfilled goes the same way. */
  lemma {:induction false} OutcomesDoNotInterfere(q: Queue, event: Event)
    requires Inv(q) && Enabled(q, event)
    ensures Enabled(Erase(q), EraseEvent(event))
    ensures Erase(Next(q, event)) == Next(Erase(q), EraseEvent(event))
  {
    match event
    case Enqueue => EraseEnqueue(q);
    case RunTask => EraseRunTask(q);
    case Settle(outcome) => EraseSettle(q, outcome);
  }

  // ----- progress ----------------------------------------------------------

  /** Steps left until every accepted operation has finished. */
  ghost function Remaining(q: Queue): int {
    4 * q.accepted - |q.started| - |q.results| - |q.tails| - |q.returned|
  }

  /** While an operation is unfinished, running it or a task is possible; either makes progress. */
  lemma {:induction false} NeverStuck(q: Queue, event: Event)
    requires Inv(q)
    ensures Remaining(q) >= 0
    ensures |q.returned| < q.accepted || |q.results| < q.accepted ==> q.tasks != [] || q.running != []
    ensures event != Enqueue && Enabled(q, event) ==> Remaining(Next(q, event)) == Remaining(q) - 1
  {
  }

  /** A schedule of tasks and settlements without new operations. */
  ghost predicate IsSchedule(q: Queue, run: seq<Queue>, events: seq<Event>) {
    && |run| == |events| + 1 && run[0] == q
    && forall i :: 0 <= i < |events| ==>
         events[i] != Enqueue && Enabled(run[i], events[i]) && run[i + 1] == Next(run[i], events[i])
  }

  lemma {:induction false} StepDrains(q: Queue, event: Event)
    requires Inv(q) && event != Enqueue && Enabled(q, event)
    ensures Inv(Next(q, event)) && Next(q, event).accepted == q.accepted
    ensures Remaining(Next(q, event)) == Remaining(q) - 1
  {
    NextInv(q, event);
    NeverStuck(q, event);
  }

  lemma {:induction false} ScheduleDrains(q: Queue, run: seq<Queue>, events: seq<Event>, n: nat)
    requires Inv(q) && IsSchedule(q, run, events) && n <= |events|
    ensures Inv(run[n]) && run[n].accepted == q.accepted && Remaining(run[n]) == Remaining(q) - n
  {
    if n > 0 {
      ScheduleDrains(q, run, events, n - 1);
      StepDrains(run[n - 1], events[n - 1]);
    }
  }

  /**
   From any reachable state, any schedule of tasks and settlements without new operations
   starts and settles every accepted operation within `Remaining` steps, whatever the outcomes.
   */
  lemma {:induction false} QueueDrains(q: Queue, run: seq<Queue>, events: seq<Event>)
    requires Inv(q) && IsSchedule(q, run, events)
    ensures run[|events|].accepted == q.accepted && |events| <= Remaining(q)
    ensures |events| == Remaining(q) <==> Drained(run[|events|])
    ensures |events| < Remaining(q) ==> run[|events|].tasks != [] || run[|events|].running != []
  {
    ScheduleDrains(q, run, events, |events|);
    NeverStuck(run[|events|], RunTask);
    DrainedIffZero(run[|events|]);
  }

  /** Every accepted operation was started, settled, and has left the count. */
  ghost predicate Drained(q: Queue) {
    q.started == Numbers(q.accepted) && |q.results| == |q.returned| == q.accepted && q.pending == 0
  }

  lemma {:induction false} DrainedIffZero(q: Queue)
    requires Inv(q)
    ensures Remaining(q) == 0 <==> q.tasks == [] && q.running == []
    ensures Remaining(q) == 0 <==> Drained(q)
  {
  }

  // ----- the object --------------------------------------------------------

  /** `DocumentMemory`: the object whose fields `enqueue` and the promise reactions update. */
  class DocumentMemory {
    const maxPending: nat
    var pending: nat
    var accepted: nat
    var running: seq<nat>
    var tasks: seq<Task>
    var tails: seq<Outcome>
    ghost var results: seq<Outcome>
    ghost var returned: seq<Outcome>
    ghost var started: seq<nat>
    ghost var outcomes: map<nat, Outcome>

    ghost function Model(): Queue
      reads this
    {
      Queue(maxPending, TAIL, pending, accepted, running, tasks, tails, results, returned, started, outcomes)
    }

    ghost predicate Valid()
      reads this
    {
      Inv(Model())
    }

    constructor (maxPending: nat)
      requires 1 <= maxPending <= 4096
      ensures Valid() && Model() == New(maxPending, TAIL)
    {
      this.maxPending := maxPending;
      pending, accepted, running, tasks, tails := 0, 0, [], [], [];
      results, returned, started, outcomes := [], [], [], map[];
      new;
      NewInv(maxPending, TAIL);
    }

    method Submit() returns (reply: Reply)
      requires Valid()
      modifies this
      ensures Valid() && Model() == EnqueueStep(old(Model())) && reply == ReplyTo(old(Model()))
    {
      EnqueueInv(Model());
      if pending >= maxPending { return QueueFull; }
      reply := Accepted(accepted);
      if |tails| == accepted { tasks := tasks + [Start(accepted, LastTail(tails))]; }
      else { assert tasks + [] == tasks; }
      pending := pending + 1;
      accepted := accepted + 1;
    }

    /** `then(operation)`: starts the operation, or passes a rejected tail on. */
    method OnStart(id: nat, tail: Outcome)
      modifies this
      ensures Model() == StartStep(old(Model()), id, tail)
    {
      if Handles(START, tail) {
        running := running + [id];
        started := started + [id];
      } else {
        results := results + [tail];
        tasks := tasks + [TailDone(id, tail), Finally(id, tail)];
      }
    }

    /** `then(() => undefined, () => undefined)`: settles the tail for the next operation. */
    method OnTail(id: nat, result: Outcome)
      modifies this
      ensures Model() == TailStep(old(Model()), id, result)
    {
      var tail := AfterTail(TAIL, result);
      tails := tails + [tail];
      if id + 1 < accepted {
        tasks := tasks + [Start(id + 1, tail)];
      } else {
        assert tasks + [] == tasks;
      }
    }

    /** `finally(() => { this.pending -= 1 })` */
    method OnFinally(result: Outcome)
      requires pending > 0
      modifies this
      ensures Model() == FinallyStep(old(Model()), result)
    {
      pending := pending - 1;
      returned := returned + [result];
    }

    /** Runs the oldest reaction. */
    method RunOne()
      requires Valid() && tasks != []
      modifies this
      ensures Valid() && Model() == RunTaskStep(old(Model()))
    {
      RunTaskInv(Model());
      if tasks[0].Finally? { FinallyIsCounted(Model()); }
      var task := tasks[0];
      tasks := tasks[1..];
      match task {
        case Start(id, tail) => OnStart(id, tail);
        case TailDone(id, result) => OnTail(id, result);
        case Finally(_, result) => OnFinally(result);
      }
    }

    method SettleRunning(outcome: Outcome)
      requires Valid() && running != []
      modifies this
      ensures Valid() && Model() == SettleStep(old(Model()), outcome)
    {
      SettleInv(Model(), outcome);
      var id := running[0];
      running := running[1..];
      outcomes := outcomes[id := outcome];
      results := results + [outcome];
      tasks := tasks + [TailDone(id, outcome), Finally(id, outcome)];
    }
  }

  /** The constructor's range check: construction succeeds exactly for bounds 1 to 4096. */
  method Create(maxPending: int) returns (memory: DocumentMemory?)
    ensures memory != null <==> 1 <= maxPending <= 4096
    ensures memory != null ==> fresh(memory) && memory.Valid() && memory.Model() == New(maxPending, TAIL)
  {
    if maxPending < 1 || maxPending > 4096 { return null; }
    memory := new DocumentMemory(maxPending);
  }
}
