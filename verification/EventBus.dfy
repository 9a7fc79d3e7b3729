/**
 The webhook worker pool of pkg/events/bus.go as steps of concurrent parties: senders, four workers
 on one channel, and callers of Shutdown behind a mutex. Items are numbered in the order in which
 they enter the channel.
 */
module EventBus {
  import opened Wrappers
  import opened Lines

  const CAPACITY: nat := 512
  const WORKERS: nat := 4

  /** A worker has left its loop when the channel was closed and empty, or failed on an item. */
  datatype Worker = Idle | Holding(item: nat) | Exited | Failed

  /** Where a call of Shutdown is: it has the mutex from Locked to Returning. */
  datatype Call = Locked | Waiting | Returning | Returned

  /**
   The channel (queue, closed), the field webhooks being nil (gone), how many items were sent, the
   items processed and the items on which a worker failed, the calls of Shutdown, and the mutex.
   */
  datatype Bus = Bus(queue: seq<nat>, closed: bool, gone: bool, sent: nat, workers: seq<Worker>,
                     processed: seq<nat>, lost: seq<nat>, calls: map<int, Call>, holder: Option<int>)

  /** Start. */
  const STARTED: Bus := Bus([], false, false, 0, seq(WORKERS, _ => Idle), [], [], map[], None)

  datatype Step = Send | Take(w: nat) | Process(w: nat) | Fail(w: nat) | Exit(w: nat)
                | Lock(c: int) | Close(c: int) | Wait(c: int) | Unlock(c: int)

  predicate At(b: Bus, c: int, call: Call) {
    c in b.calls && b.calls[c] == call
  }

  predicate AllGone(workers: seq<Worker>) {
    forall w :: 0 <= w < |workers| ==> workers[w].Exited? || workers[w].Failed?
  }

  /** What becomes of a send: nothing keeps senders from a channel that Shutdown has closed or set to nil. */
  datatype Sending = Sends | Waits | Panics | Hangs

  function SendOutcome(b: Bus): Sending {
    if b.gone then Hangs
    else if b.closed then Panics
    else if |b.queue| < CAPACITY then Sends
    else Waits
  }

  /** Which steps can be taken. */
  predicate Enabled(b: Bus, s: Step) {
    match s
    case Send => SendOutcome(b).Sends?
    case Take(w) => w < |b.workers| && b.workers[w].Idle? && b.queue != []
    case Process(w) => w < |b.workers| && b.workers[w].Holding?
    case Fail(w) => w < |b.workers| && b.workers[w].Holding?
    case Exit(w) => w < |b.workers| && b.workers[w].Idle? && b.queue == [] && b.closed
    case Lock(c) => c !in b.calls && b.holder.None?
    case Close(c) => At(b, c, Locked)
    case Wait(c) => At(b, c, Waiting) && AllGone(b.workers)
    case Unlock(c) => At(b, c, Returning)
  }

  function Next(b: Bus, s: Step): Bus
    requires Enabled(b, s)
  {
    match s
    case Send => b.(queue := b.queue + [b.sent], sent := b.sent + 1)
    case Take(w) => b.(queue := b.queue[1..], workers := b.workers[w := Holding(b.queue[0])])
    case Process(w) => b.(workers := b.workers[w := Idle], processed := b.processed + [b.workers[w].item])
    case Fail(w) => b.(workers := b.workers[w := Failed], lost := b.lost + [b.workers[w].item])
    case Exit(w) => b.(workers := b.workers[w := Exited])
    case Lock(c) => b.(calls := b.calls[c := Locked], holder := Some(c))
    case Close(c) =>
      if b.gone then b.(calls := b.calls[c := Returning]) else b.(closed := true, calls := b.calls[c := Waiting])
    case Wait(c) => b.(gone := true, calls := b.calls[c := Returning])
    case Unlock(c) => b.(calls := b.calls[c := Returned], holder := None)
  }

  predicate Runs(b: Bus, steps: seq<Step>)
    decreases |steps|
  {
    steps != [] ==> Enabled(b, steps[0]) && Runs(Next(b, steps[0]), steps[1..])
  }

  function After(b: Bus, steps: seq<Step>): Bus
    requires Runs(b, steps)
    decreases |steps|
  {
    if steps == [] then b else After(Next(b, steps[0]), steps[1..])
  }

  // ---------------------------------------------------------------- what every step keeps

  /** In how many hands the item is. */
  function Held(workers: seq<Worker>, item: nat): nat {
    if workers == [] then 0 else (if workers[0] == Holding(item) then 1 else 0) + Held(workers[1..], item)
  }

  function HasFailed(worker: Worker): nat {
    if worker.Failed? then 1 else 0
  }

  function Failures(workers: seq<Worker>): nat {
    if workers == [] then 0 else HasFailed(workers[0]) + Failures(workers[1..])
  }

  /** The channel is first in, first out: it holds the latest items in order. */
  predicate Fifo(b: Bus) {
    |b.queue| <= b.sent && |b.queue| <= CAPACITY && b.queue == Range(b.sent - |b.queue|, b.sent)
  }

  /** In how many places the item is, outside the channel. */
  ghost function Places(b: Bus, item: nat): nat {
    multiset(b.processed)[item] + multiset(b.lost)[item] + Held(b.workers, item)
  }

  /**
   Every item taken is in exactly one place: processed, lost, or in the hands of one worker; no other
   item is anywhere.
   */
  ghost predicate Accounted(b: Bus) {
    forall item: nat :: Places(b, item) == if item < b.sent - |b.queue| then 1 else 0
  }

  predicate WorkersOk(b: Bus) {
    && |b.workers| == WORKERS
    && Failures(b.workers) == |b.lost|
    && (forall w :: 0 <= w < |b.workers| && b.workers[w].Exited? ==> b.closed && b.queue == [])
  }

  /** The mutex is held by the one call that is between Locked and Returning; the channel is closed once. */
  predicate CallsOk(b: Bus) {
    && (forall c :: c in b.calls && !b.calls[c].Returned? ==> b.holder == Some(c))
    && (b.holder.Some? ==> b.holder.value in b.calls && !b.calls[b.holder.value].Returned?)
    && (forall c :: c in b.calls ==> (b.calls[c].Returned? || b.calls[c].Returning? ==> b.gone))
    && (forall c :: c in b.calls && b.calls[c].Waiting? ==> b.closed && !b.gone)
    && (b.closed ==> b.gone || (b.holder.Some? && At(b, b.holder.value, Waiting)))
    && (b.gone ==> b.closed && AllGone(b.workers))
  }

  ghost predicate Inv(b: Bus) {
    Fifo(b) && Accounted(b) && WorkersOk(b) && CallsOk(b)
  }

  lemma {:induction false} UpdateHeld(workers: seq<Worker>, w: nat, v: Worker, item: nat)
    requires w < |workers|
    ensures Held(workers[w := v], item) + (if workers[w] == Holding(item) then 1 else 0) ==
            Held(workers, item) + (if v == Holding(item) then 1 else 0)
  {
    var updated := workers[w := v];
    if w == 0 {
      assert updated[1..] == workers[1..];
    } else {
      UpdateHeld(workers[1..], w - 1, v, item);
      assert updated[1..] == workers[1..][w - 1 := v];
    }
  }

  lemma {:induction false} UpdateFailures(workers: seq<Worker>, w: nat, v: Worker)
    requires w < |workers|
    ensures Failures(workers[w := v]) + HasFailed(workers[w]) == Failures(workers) + HasFailed(v)
  {
    var updated := workers[w := v];
    if w == 0 {
      assert updated[1..] == workers[1..];
    } else {
      UpdateFailures(workers[1..], w - 1, v);
      assert updated[1..] == workers[1..][w - 1 := v];
    }
  }

  lemma FifoKept(b: Bus, s: Step)
    requires Fifo(b) && Enabled(b, s)
    ensures Fifo(Next(b, s))
  {
  }

  /** Only taking an item off the channel puts it in a place it was not in. */
  lemma PlacesKept(b: Bus, s: Step, item: nat)
    requires Enabled(b, s)
    ensures Places(Next(b, s), item) == Places(b, item) + if s.Take? && b.queue[0] == item then 1 else 0
  {
    match s {
      case Take(w) => UpdateHeld(b.workers, w, Holding(b.queue[0]), item);
      case Process(w) => UpdateHeld(b.workers, w, Idle, item);
      case Fail(w) => UpdateHeld(b.workers, w, Failed, item);
      case Exit(w) => UpdateHeld(b.workers, w, Exited, item);
      case _ =>
    }
  }

  lemma AccountedKept(b: Bus, s: Step)
    requires Fifo(b) && Accounted(b) && Enabled(b, s)
    ensures Accounted(Next(b, s))
  {
    var n := Next(b, s);
    forall item: nat ensures Places(n, item) == if item < n.sent - |n.queue| then 1 else 0 {
      PlacesKept(b, s, item);
    }
  }

  lemma WorkersKept(b: Bus, s: Step)
    requires WorkersOk(b) && Enabled(b, s)
    ensures WorkersOk(Next(b, s))
  {
    match s {
      case Take(w) => UpdateFailures(b.workers, w, Holding(b.queue[0]));
      case Process(w) => UpdateFailures(b.workers, w, Idle);
      case Fail(w) => UpdateFailures(b.workers, w, Failed);
      case Exit(w) => UpdateFailures(b.workers, w, Exited);
      case _ =>
    }
  }

  lemma CallsKept(b: Bus, s: Step)
    requires CallsOk(b) && Enabled(b, s)
    ensures CallsOk(Next(b, s))
  {
  }

  lemma StepKeepsInvariant(b: Bus, s: Step)
    requires Inv(b) && Enabled(b, s)
    ensures Inv(Next(b, s))
  {
    FifoKept(b, s);
    AccountedKept(b, s);
    WorkersKept(b, s);
    CallsKept(b, s);
  }

  lemma {:induction false} NobodyYet(workers: seq<Worker>)
    requires forall w :: 0 <= w < |workers| ==> workers[w].Idle?
    ensures Failures(workers) == 0 && forall item: nat :: Held(workers, item) == 0
  {
    if workers != [] {
      NobodyYet(workers[1..]);
    }
  }

  lemma StartedIsFine()
    ensures Inv(STARTED)
  {
    NobodyYet(STARTED.workers);
    assert Range(0, 0) == [];
  }

  /** The invariant holds in every interleaving. */
  lemma {:induction false} RunKeepsInvariant(b: Bus, steps: seq<Step>)
    requires Inv(b) && Runs(b, steps)
    ensures Inv(After(b, steps))
    decreases |steps|
  {
    if steps != [] {
      StepKeepsInvariant(b, steps[0]);
      RunKeepsInvariant(Next(b, steps[0]), steps[1..]);
    }
  }

  lemma StartedRun(steps: seq<Step>)
    requires Runs(STARTED, steps)
    ensures Inv(After(STARTED, steps))
  {
    StartedIsFine();
    RunKeepsInvariant(STARTED, steps);
  }

  // ---------------------------------------------------------------- each item once, in order

  /** The items taken off the channel by a run, in order. */
  function Taken(b: Bus, steps: seq<Step>): seq<nat>
    requires Runs(b, steps)
    decreases |steps|
  {
    if steps == [] then []
    else (if steps[0].Take? then [b.queue[0]] else []) + Taken(Next(b, steps[0]), steps[1..])
  }

  lemma FirstTaken(b: Bus, s: Step, end: nat)
    requires Fifo(b) && Enabled(b, s)
    requires var n := Next(b, s); |n.queue| <= n.sent && n.sent - |n.queue| <= end
    ensures b.sent - |b.queue| <= end
    ensures var n := Next(b, s);
      (if s.Take? then [b.queue[0]] else []) + Range(n.sent - |n.queue|, end) == Range(b.sent - |b.queue|, end)
  {
  }

  /**
   However senders and workers interleave, the items are taken off the channel in the order in which
   they were sent, each by one worker only.
   */
  lemma {:induction false} TakenInOrder(b: Bus, steps: seq<Step>)
    requires Fifo(b) && Runs(b, steps)
    ensures var n := After(b, steps);
      Fifo(n) && b.sent - |b.queue| <= n.sent - |n.queue| &&
      Taken(b, steps) == Range(b.sent - |b.queue|, n.sent - |n.queue|)
    decreases |steps|
  {
    if steps != [] {
      var next := Next(b, steps[0]);
      FifoKept(b, steps[0]);
      TakenInOrder(next, steps[1..]);
      var n := After(next, steps[1..]);
      FirstTaken(b, steps[0], n.sent - |n.queue|);
    }
  }

  // ---------------------------------------------------------------- when Shutdown returns

  lemma {:induction false} NobodyHolds(workers: seq<Worker>, item: nat)
    requires AllGone(workers)
    ensures Held(workers, item) == 0
  {
    if workers != [] {
      NobodyHolds(workers[1..], item);
    }
  }

  lemma {:induction false} NotAllFailed(workers: seq<Worker>)
    requires AllGone(workers) && (forall w :: 0 <= w < |workers| ==> !workers[w].Exited?)
    ensures Failures(workers) == |workers|
  {
    if workers != [] {
      NotAllFailed(workers[1..]);
    }
  }

  /** When Shutdown has returned, what is left in the channel is left because all four workers failed. */
  lemma DrainedUnlessAllFailed(steps: seq<Step>, c: int)
    requires Runs(STARTED, steps) && At(After(STARTED, steps), c, Returned)
    ensures var b := After(STARTED, steps);
      |b.lost| <= WORKERS && (b.queue != [] ==> |b.lost| == WORKERS)
  {
    StartedRun(steps);
    var b := After(STARTED, steps);
    FailuresAtMost(b.workers);
    if b.queue != [] {
      NotAllFailed(b.workers);
    }
  }

  lemma {:induction false} FailuresAtMost(workers: seq<Worker>)
    ensures Failures(workers) <= |workers|
  {
    if workers != [] {
      FailuresAtMost(workers[1..]);
    }
  }

  /** The item was processed, and once only. */
  ghost predicate ProcessedOnce(b: Bus, item: nat) {
    multiset(b.processed)[item] == 1
  }

  /**
   In every interleaving: when a Shutdown has returned, every item sent was processed exactly once,
   if and only if no worker failed.
   */
  lemma ShutdownDrains(steps: seq<Step>, c: int)
    requires Runs(STARTED, steps) && At(After(STARTED, steps), c, Returned)
    ensures var b := After(STARTED, steps);
      (forall item: nat :: item < b.sent ==> ProcessedOnce(b, item)) <==> b.lost == []
  {
    StartedRun(steps);
    DrainedUnlessAllFailed(steps, c);
    var b := After(STARTED, steps);
    forall item: nat | item < b.sent && b.lost == [] ensures ProcessedOnce(b, item) {
      NobodyHolds(b.workers, item);
      assert Places(b, item) == 1;
    }
    if b.lost != [] {
      var item := b.lost[0];
      assert item in multiset(b.lost);
      assert Places(b, item) == 1;
      assert item < b.sent && !ProcessedOnce(b, item);
    }
  }

  // ---------------------------------------------------------------- a second Shutdown

  /** Where Shutdown closes the channel it is open: closing it twice would panic. */
  lemma ClosedOnce(b: Bus, c: int)
    requires Inv(b) && Enabled(b, Close(c))
    ensures !b.gone ==> !b.closed
  {
  }

  /** But for the calls of Shutdown themselves nothing has changed. */
  predicate SameButCalls(b: Bus, n: Bus) {
    n == b.(calls := n.calls, holder := n.holder)
  }

  /** After a Shutdown has returned nothing happens but calls of Shutdown, and these do nothing. */
  lemma {:induction false} SecondShutdownDoesNothing(b: Bus, steps: seq<Step>, c: int)
    requires Inv(b) && At(b, c, Returned) && Runs(b, steps)
    ensures SameButCalls(b, After(b, steps))
    decreases |steps|
  {
    if steps != [] {
      StepKeepsInvariant(b, steps[0]);
      SecondShutdownDoesNothing(Next(b, steps[0]), steps[1..], c);
    }
  }

  // ---------------------------------------------------------------- sending during Shutdown

  /**
   A send panics exactly while a Shutdown waits for the workers: from the close on until the field is
   set to nil. After that it hangs, and before the close it is as if there was no Shutdown.
   */
  lemma SendDuringShutdown(b: Bus)
    requires Inv(b)
    ensures SendOutcome(b).Panics? <==> exists c :: At(b, c, Waiting)
    ensures forall c :: At(b, c, Returning) || At(b, c, Returned) ==> SendOutcome(b).Hangs?
  {
    if b.closed && !b.gone {
      assert At(b, b.holder.value, Waiting);
    }
  }

  /** A send that hangs hangs for good. */
  lemma HangsForGood(b: Bus, steps: seq<Step>, c: int)
    requires Inv(b) && At(b, c, Returned) && Runs(b, steps)
    ensures SendOutcome(After(b, steps)).Hangs?
  {
    SecondShutdownDoesNothing(b, steps, c);
  }

  // ---------------------------------------------------------------- Shutdown does return

  function Work(workers: seq<Worker>): nat {
    if workers == [] then 0
    else Weight(workers[0]) + Work(workers[1..])
  }

  /** What the workers have still to do once no more is sent. */
  function Left(b: Bus): nat {
    3 * |b.queue| + Work(b.workers)
  }

  predicate IsWorkerStep(s: Step) {
    s.Take? || s.Process? || s.Fail? || s.Exit?
  }

  function Weight(v: Worker): nat {
    if v.Holding? then 2 else if v.Idle? then 1 else 0
  }

  lemma {:induction false} UpdateWork(workers: seq<Worker>, w: nat, v: Worker)
    requires w < |workers|
    ensures Work(workers[w := v]) + Weight(workers[w]) == Work(workers) + Weight(v)
  {
    var updated := workers[w := v];
    if w == 0 {
      assert updated[1..] == workers[1..];
    } else {
      UpdateWork(workers[1..], w - 1, v);
      assert updated[1..] == workers[1..][w - 1 := v];
    }
  }

  /** While a Shutdown waits, every step of a worker leaves less to do, and the Shutdown still waits. */
  lemma WorkerStepsDone(b: Bus, s: Step, c: int)
    requires At(b, c, Waiting) && Enabled(b, s) && IsWorkerStep(s)
    ensures Left(Next(b, s)) < Left(b) && At(Next(b, s), c, Waiting)
  {
    match s {
      case Take(w) => UpdateWork(b.workers, w, Holding(b.queue[0]));
      case Process(w) => UpdateWork(b.workers, w, Idle);
      case Fail(w) => UpdateWork(b.workers, w, Failed);
      case Exit(w) => UpdateWork(b.workers, w, Exited);
    }
  }

  /** While a Shutdown waits for a worker, that worker can move: there is no deadlock. */
  lemma WorkersCanMove(b: Bus, c: int) returns (s: Step)
    requires Inv(b) && At(b, c, Waiting) && !AllGone(b.workers)
    ensures Enabled(b, s) && IsWorkerStep(s)
  {
    var w :| 0 <= w < |b.workers| && !(b.workers[w].Exited? || b.workers[w].Failed?);
    s := if b.workers[w].Holding? then Process(w) else if b.queue != [] then Take(w) else Exit(w);
  }

  /** No worker has anything left to do. */
  ghost predicate WorkersStuck(b: Bus) {
    forall s: Step :: IsWorkerStep(s) ==> !Enabled(b, s)
  }

  /** Whatever the workers do, they stop within Left(b) steps, and then Shutdown goes on. */
  lemma {:induction false} ShutdownReturns(b: Bus, steps: seq<Step>, c: int)
    requires Inv(b) && At(b, c, Waiting) && Runs(b, steps)
    requires forall i :: 0 <= i < |steps| ==> IsWorkerStep(steps[i])
    ensures |steps| <= Left(b)
    ensures WorkersStuck(After(b, steps)) ==> Enabled(After(b, steps), Wait(c))
    decreases |steps|
  {
    if steps == [] {
      if !AllGone(b.workers) {
        var s := WorkersCanMove(b, c);
      }
    } else {
      StepKeepsInvariant(b, steps[0]);
      WorkerStepsDone(b, steps[0], c);
      ShutdownReturns(Next(b, steps[0]), steps[1..], c);
    }
  }
}
