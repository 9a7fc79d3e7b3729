/**
 What can go wrong on the webhook pool: exactly when Shutdown leaves items in the channel, and runs in
 which an item is lost, items are left, and a send panics.
 */
module BusFailures {
  import opened EventBus

  // ---------------------------------------------------------------- when items are left

  function InHand(worker: Worker): nat {
    if worker.Holding? then 1 else 0
  }

  function Hands(workers: seq<Worker>): nat {
    if workers == [] then 0 else InHand(workers[0]) + Hands(workers[1..])
  }

  /** Every item sent is processed, lost, in the hands of a worker or in the channel. */
  predicate Balanced(b: Bus) {
    |b.processed| + |b.lost| + Hands(b.workers) + |b.queue| == b.sent
  }

  lemma {:induction false} UpdateHands(workers: seq<Worker>, w: nat, v: Worker)
    requires w < |workers|
    ensures Hands(workers[w := v]) + InHand(workers[w]) == Hands(workers) + InHand(v)
  {
    var updated := workers[w := v];
    if w == 0 {
      assert updated[1..] == workers[1..];
    } else {
      UpdateHands(workers[1..], w - 1, v);
      assert updated[1..] == workers[1..][w - 1 := v];
    }
  }

  lemma BalanceKept(b: Bus, s: Step)
    requires Balanced(b) && Enabled(b, s)
    ensures Balanced(Next(b, s))
  {
    match s {
      case Take(w) => UpdateHands(b.workers, w, Holding(b.queue[0]));
      case Process(w) => UpdateHands(b.workers, w, Idle);
      case Fail(w) => UpdateHands(b.workers, w, Failed);
      case Exit(w) => UpdateHands(b.workers, w, Exited);
      case _ =>
    }
  }

  lemma {:induction false} RunKeepsBalance(b: Bus, steps: seq<Step>)
    requires Balanced(b) && Runs(b, steps)
    ensures Balanced(After(b, steps))
    decreases |steps|
  {
    if steps != [] {
      BalanceKept(b, steps[0]);
      RunKeepsBalance(Next(b, steps[0]), steps[1..]);
    }
  }

  lemma {:induction false} EmptyHands(workers: seq<Worker>)
    requires forall w :: 0 <= w < |workers| ==> !workers[w].Holding?
    ensures Hands(workers) == 0
  {
    if workers != [] {
      EmptyHands(workers[1..]);
    }
  }

  /**
   When Shutdown has returned, items are left in the channel if and only if all four workers failed
   and more was sent than was processed and failed on.
   */
  lemma LeftWhenAllFailed(steps: seq<Step>, c: int)
    requires Runs(STARTED, steps) && At(After(STARTED, steps), c, Returned)
    ensures var b := After(STARTED, steps);
      b.queue != [] <==> |b.lost| == WORKERS && |b.processed| + WORKERS < b.sent
  {
    StartedRun(steps);
    DrainedUnlessAllFailed(steps, c);
    EmptyHands(STARTED.workers);
    RunKeepsBalance(STARTED, steps);
    EmptyHands(After(STARTED, steps).workers);
  }

  // ---------------------------------------------------------------- three runs

  predicate Leads(b: Bus, steps: seq<Step>, n: Bus) {
    Runs(b, steps) && After(b, steps) == n
  }

  lemma {:induction false} Go(start: Bus, steps: seq<Step>, b: Bus, s: Step) returns (n: Bus)
    requires Leads(start, steps, b) && Enabled(b, s)
    ensures n == Next(b, s) && Leads(start, steps + [s], n)
    decreases |steps|
  {
    n := Next(b, s);
    if steps == [] {
      assert [s][1..] == [];
    } else {
      var m := Go(Next(start, steps[0]), steps[1..], b, s);
      assert (steps + [s])[1..] == steps[1..] + [s];
    }
  }

  /** Workers from the first to the one before n leave the closed and empty channel. */
  lemma Leave(steps: seq<Step>, b: Bus, w: nat, n: nat) returns (longer: seq<Step>, last: Bus)
    requires Leads(STARTED, steps, b) && w <= n == |b.workers| && b.closed && b.queue == []
    requires forall v :: w <= v < n ==> b.workers[v].Idle?
    requires forall v :: 0 <= v < w ==> b.workers[v].Exited? || b.workers[v].Failed?
    ensures Leads(STARTED, longer, last) && steps <= longer
    ensures AllGone(last.workers) && last == b.(workers := last.workers)
    decreases n - w
  {
    if w == n {
      longer, last := steps, b;
    } else {
      var b1 := Go(STARTED, steps, b, Exit(w));
      longer, last := Leave(steps + [Exit(w)], b1, w + 1, n);
    }
  }

  /** A send between the close and the end of Shutdown panics: nothing but one Shutdown is needed. */
  lemma SendPanics() returns (b: Bus)
    ensures Leads(STARTED, [Lock(1), Close(1)], b) && SendOutcome(b).Panics?
  {
    var b1 := Go(STARTED, [], STARTED, Lock(1));
    assert [] + [Lock(1)] == [Lock(1)];
    b := Go(STARTED, [Lock(1)], b1, Close(1));
    assert [Lock(1)] + [Close(1)] == [Lock(1), Close(1)];
  }

  /** A worker fails on the one item sent: Shutdown returns, and the item was not processed. */
  lemma ItemIsLost() returns (steps: seq<Step>, b: Bus)
    ensures Leads(STARTED, steps, b) && At(b, 1, Returned) && b.sent == 1 && b.processed == [] && b.lost == [0]
  {
    var b1 := Go(STARTED, [], STARTED, Send);
    var b2 := Go(STARTED, [] + [Send], b1, Take(0));
    var b3 := Go(STARTED, [] + [Send] + [Take(0)], b2, Fail(0));
    var front := [] + [Send] + [Take(0)] + [Fail(0)];
    var b4 := Go(STARTED, front, b3, Lock(1));
    var b5 := Go(STARTED, front + [Lock(1)], b4, Close(1));
    var steps6, b6 := Leave(front + [Lock(1)] + [Close(1)], b5, 1, WORKERS);
    var b7 := Go(STARTED, steps6, b6, Wait(1));
    b := Go(STARTED, steps6 + [Wait(1)], b7, Unlock(1));
    steps := steps6 + [Wait(1)] + [Unlock(1)];
  }

  /** The pool after the first w workers have each failed on an item. */
  lemma FailEach(w: nat) returns (steps: seq<Step>, b: Bus)
    requires w <= WORKERS
    ensures Leads(STARTED, steps, b) && |b.workers| == WORKERS && |b.lost| == w && b.sent == w
    ensures b.queue == [] && b.processed == [] && b.calls == map[] && b.holder.None? && !b.closed && !b.gone
    ensures forall v :: 0 <= v < w ==> b.workers[v].Failed?
    ensures forall v :: w <= v < WORKERS ==> b.workers[v].Idle?
  {
    if w == 0 {
      steps, b := [], STARTED;
    } else {
      var steps0, b0 := FailEach(w - 1);
      var b1 := Go(STARTED, steps0, b0, Send);
      var b2 := Go(STARTED, steps0 + [Send], b1, Take(w - 1));
      b := Go(STARTED, steps0 + [Send] + [Take(w - 1)], b2, Fail(w - 1));
      steps := steps0 + [Send] + [Take(w - 1)] + [Fail(w - 1)];
    }
  }

  /** All four workers have failed when a fifth item is sent: Shutdown returns with it in the channel. */
  lemma ItemIsLeft() returns (steps: seq<Step>, b: Bus)
    ensures Leads(STARTED, steps, b) && At(b, 1, Returned) && b.sent == 5 && |b.queue| == 1 && b.processed == []
  {
    var front, b0 := FailEach(WORKERS);
    var b1 := Go(STARTED, front, b0, Send);
    var b2 := Go(STARTED, front + [Send], b1, Lock(1));
    var b3 := Go(STARTED, front + [Send] + [Lock(1)], b2, Close(1));
    var b4 := Go(STARTED, front + [Send] + [Lock(1)] + [Close(1)], b3, Wait(1));
    b := Go(STARTED, front + [Send] + [Lock(1)] + [Close(1)] + [Wait(1)], b4, Unlock(1));
    steps := front + [Send] + [Lock(1)] + [Close(1)] + [Wait(1)] + [Unlock(1)];
  }

  /** The pool after n items were sent and none was taken. */
  lemma SendEach(n: nat) returns (steps: seq<Step>, b: Bus)
    requires n <= 512
    ensures Leads(STARTED, steps, b) && |b.queue| == n && b == STARTED.(queue := b.queue, sent := n)
    decreases n
  {
    if n == 0 {
      steps, b := [], STARTED;
    } else {
      var steps0, b0 := SendEach(n - 1);
      b := Go(STARTED, steps0, b0, Send);
      steps := steps0 + [Send];
    }
  }

  /** While the workers take nothing, 512 items can be sent, and the next send waits until one is taken. */
  lemma ChannelFills() returns (steps: seq<Step>, b: Bus)
    ensures Leads(STARTED, steps, b) && b.sent == 512 && SendOutcome(b).Waits?
    ensures Enabled(b, Take(0)) && SendOutcome(Next(b, Take(0))).Sends?
  {
    steps, b := SendEach(512);
  }
}
