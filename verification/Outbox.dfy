/**
 The event outbox of pkg/db/db.go: events of a transaction are held back by its handle and handed
 to the bus by Commit. Several handles may be open at once on the same bus.
 */
module Outbox {
  import opened Wrappers

  /** A handle: in a transaction or not, the transaction finished or not, the events held back. */
  datatype Handle<E> = Handle(inTx: bool, finished: bool, pending: seq<E>)

  // ---------------------------------------------------------------- one call, as a function

  /** EnqueueEvent: the handle after it, and what goes to the bus at once. */
  function Enqueued<E>(h: Handle<E>, e: E): (Handle<E>, seq<E>) {
    if h.inTx then (h.(pending := h.pending + [e]), []) else (h, [e])
  }

  /** Commit: committing a finished transaction fails, and the database may refuse as well. */
  function Committed<E>(h: Handle<E>, dbOk: bool): (Handle<E>, seq<E>, bool) {
    if h.inTx && (h.finished || !dbOk) then (h.(finished := true, pending := []), [], false)
    else (h.(finished := h.finished || h.inTx, pending := []), h.pending, true)
  }

  function RolledBack<E>(h: Handle<E>): Handle<E> {
    h.(finished := h.finished || h.inTx, pending := [])
  }

  // ---------------------------------------------------------------- one call, in place

  class Bus<E> {
    /** The events handed over so far. */
    var events: seq<E>

    constructor ()
      ensures events == []
    {
      events := [];
    }

    method Enqueue(e: E)
      modifies this
      ensures events == old(events) + [e]
    {
      events := events + [e];
    }
  }

  class Queries<E> {
    const inTx: bool
    const bus: Bus<E>
    var finished: bool
    var pendingEvents: seq<E>

    ghost function Contents(): Handle<E>
      reads this
    {
      Handle(inTx, finished, pendingEvents)
    }

    /** Begin, or a plain handle on the database. */
    constructor (inTx: bool, bus: Bus<E>)
      ensures Contents() == Handle(inTx, false, []) && this.bus == bus
    {
      this.inTx, this.bus, this.finished, this.pendingEvents := inTx, bus, false, [];
    }

    method EnqueueEvent(e: E)
      modifies this, bus
      ensures var (h, sent) := Enqueued(old(Contents()), e);
        Contents() == h && bus.events == old(bus.events) + sent
    {
      if inTx {
        pendingEvents := pendingEvents + [e];
        return;
      }
      bus.Enqueue(e);
    }

    method Commit(dbOk: bool) returns (ok: bool)
      modifies this, bus
      ensures var (h, sent, success) := Committed(old(Contents()), dbOk);
        Contents() == h && bus.events == old(bus.events) + sent && ok == success
    {
      if inTx {
        var failed := finished || !dbOk;
        finished := true;
        if failed {
          pendingEvents := [];
          return false;
        }
      }
      for i := 0 to |pendingEvents|
        invariant finished == (old(finished) || inTx) && pendingEvents == old(pendingEvents)
        invariant bus.events == old(bus.events) + old(pendingEvents)[..i]
      {
        bus.Enqueue(pendingEvents[i]);
      }
      pendingEvents := [];
      return true;
    }

    method Rollback()
      modifies this
      ensures Contents() == RolledBack(old(Contents()))
    {
      pendingEvents := [];
      finished := finished || inTx;
    }
  }

  // ---------------------------------------------------------------- any run, several handles

  /** Begin a transaction or open a plain handle; use, commit or roll back any handle. */
  datatype Op<E> = Open(h: int, inTx: bool) | Enqueue(h: int, event: E) | Commit(h: int, dbOk: bool) | Rollback(h: int)

  datatype World<E> = World(handles: map<int, Handle<E>>, sent: seq<E>)

  function Step<E>(w: World<E>, op: Op<E>): World<E>
    requires op.Open? || op.h in w.handles
  {
    match op
    case Open(h, inTx) => w.(handles := w.handles[h := Handle(inTx, false, [])])
    case Enqueue(h, e) =>
      var (h1, sent) := Enqueued(w.handles[h], e);
      World(w.handles[h := h1], w.sent + sent)
    case Commit(h, dbOk) =>
      var (h1, sent, _) := Committed(w.handles[h], dbOk);
      World(w.handles[h := h1], w.sent + sent)
    case Rollback(h) => w.(handles := w.handles[h := RolledBack(w.handles[h])])
  }

  /** h is opened by one of the calls. */
  predicate Opened<E>(ops: seq<Op<E>>, h: int) {
    ops != [] && ((Last(ops).Open? && Last(ops).h == h) || Opened(Init(ops), h))
  }

  /** h is opened as a transaction. */
  predicate IsTx<E>(ops: seq<Op<E>>, h: int) {
    ops != [] && ((Last(ops).Open? && Last(ops).inTx && Last(ops).h == h) || IsTx(Init(ops), h))
  }

  /** h is committed or rolled back by one of the calls. */
  predicate Ended<E>(ops: seq<Op<E>>, h: int) {
    ops != [] && (((Last(ops).Commit? || Last(ops).Rollback?) && Last(ops).h == h) || Ended(Init(ops), h))
  }

  /** Every handle is opened once, before it is used. */
  predicate Proper<E>(ops: seq<Op<E>>) {
    ops != [] ==> Proper(Init(ops)) && (Last(ops).Open? <==> !Opened(Init(ops), Last(ops).h))
  }

  /** The events enqueued on h, in order. */
  function EventsOf<E>(ops: seq<Op<E>>, h: int): seq<E> {
    if ops == [] then []
    else EventsOf(Init(ops), h) + if Last(ops).Enqueue? && Last(ops).h == h then [Last(ops).event] else []
  }

  /**
   What the bus is due, said without handles and buffers: at the first commit or rollback of a
   transaction, if it is a commit that the database accepts, all its events so far; and every event
   of a plain handle at once.
   */
  function Due<E>(ops: seq<Op<E>>): seq<E> {
    if ops == [] then [] else Due(Init(ops)) + DueNow(Init(ops), Last(ops))
  }

  function DueNow<E>(before: seq<Op<E>>, op: Op<E>): seq<E> {
    match op
    case Enqueue(h, e) => if IsTx(before, h) then [] else [e]
    case Commit(h, dbOk) => if IsTx(before, h) && dbOk && !Ended(before, h) then EventsOf(before, h) else []
    case _ => []
  }

  /** What a handle holds after a run. */
  ghost predicate HoldsDue<E>(ops: seq<Op<E>>, h: int, handle: Handle<E>) {
    && handle.inTx == IsTx(ops, h)
    && handle.finished == (handle.inTx && Ended(ops, h))
    && (!handle.finished ==> handle.pending == if handle.inTx then EventsOf(ops, h) else [])
  }

  ghost predicate Explained<E>(ops: seq<Op<E>>, w: World<E>) {
    w.sent == Due(ops) && forall h :: h in w.handles ==> HoldsDue(ops, h, w.handles[h])
  }

  /** The run of a proper sequence of calls, on a bus that starts empty. */
  function Run<E>(ops: seq<Op<E>>): (w: World<E>)
    requires Proper(ops)
    ensures forall h :: h in w.handles <==> Opened(ops, h)
  {
    if ops == [] then World(map[], []) else Step(Run(Init(ops)), Last(ops))
  }

  /** A handle that was never opened has no events. */
  lemma {:induction false} NotOpened<E>(ops: seq<Op<E>>, h: int)
    requires Proper(ops) && !Opened(ops, h)
    ensures EventsOf(ops, h) == [] && !IsTx(ops, h) && !Ended(ops, h)
  {
    if ops != [] {
      NotOpened(Init(ops), h);
    }
  }

  lemma StepExplained<E>(ops: seq<Op<E>>, w: World<E>, h: int)
    requires ops != [] && Proper(ops) && Explained(Init(ops), w)
    requires forall k :: k in w.handles <==> Opened(Init(ops), k)
    requires h in Step(w, Last(ops)).handles
    ensures HoldsDue(ops, h, Step(w, Last(ops)).handles[h])
  {
    if Last(ops).Open? && Last(ops).h == h {
      NotOpened(Init(ops), h);
    }
  }

  /**
   Over any run of any number of handles, the bus has been handed exactly the events that are due:
   those of the committed transactions, each once and in the order they were enqueued.
   */
  lemma {:induction false} SentIsDue<E>(ops: seq<Op<E>>)
    requires Proper(ops)
    ensures Run(ops).sent == Due(ops)
    ensures Explained(ops, Run(ops))
  {
    if ops != [] {
      SentIsDue(Init(ops));
      forall h | h in Run(ops).handles ensures HoldsDue(ops, h, Run(ops).handles[h]) {
        StepExplained(ops, Run(Init(ops)), h);
      }
    }
  }

  // ---------------------------------------------------------------- one transaction among the others

  /** Every event says which handle it was enqueued on. */
  predicate Tagged<E>(ops: seq<Op<E>>, tag: E -> int) {
    ops != [] ==> Tagged(Init(ops), tag) && (Last(ops).Enqueue? ==> tag(Last(ops).event) == Last(ops).h)
  }

  function Filter<E>(events: seq<E>, tag: E -> int, h: int): seq<E> {
    if events == [] then []
    else Filter(Init(events), tag, h) + if tag(Last(events)) == h then [Last(events)] else []
  }

  /** The events of a transaction when it ended with an accepted commit, none when it did not. */
  function CommittedEvents<E>(ops: seq<Op<E>>, h: int): seq<E> {
    if ops == [] then []
    else if Last(ops).Commit? && Last(ops).h == h && Last(ops).dbOk && !Ended(Init(ops), h)
    then EventsOf(Init(ops), h)
    else CommittedEvents(Init(ops), h)
  }

  lemma {:induction false} FilterAppend<E>(a: seq<E>, b: seq<E>, tag: E -> int, h: int)
    ensures Filter(a + b, tag, h) == Filter(a, tag, h) + Filter(b, tag, h)
  {
    if b == [] {
      assert a + b == a;
    } else {
      FilterAppend(a, Init(b), tag, h);
      assert Init(a + b) == a + Init(b);
    }
  }

  lemma {:induction false} FilterOfEvents<E>(ops: seq<Op<E>>, tag: E -> int, h: int, k: int)
    requires Tagged(ops, tag)
    ensures Filter(EventsOf(ops, k), tag, h) == if k == h then EventsOf(ops, h) else []
  {
    if ops != [] {
      FilterOfEvents(Init(ops), tag, h, k);
      if Last(ops).Enqueue? && Last(ops).h == k {
        var e := Last(ops).event;
        assert EventsOf(ops, k) == EventsOf(Init(ops), k) + [e];
        FilterOne(e, tag, h);
        FilterAppend(EventsOf(Init(ops), k), [e], tag, h);
      } else {
        assert EventsOf(ops, k) == EventsOf(Init(ops), k);
      }
    }
  }

  lemma FilterOne<E>(e: E, tag: E -> int, h: int)
    ensures Filter([e], tag, h) == if tag(e) == h then [e] else []
  {
    assert Init([e]) == [] && Last([e]) == e;
  }

  lemma {:induction false} EndedNotCommitted<E>(ops: seq<Op<E>>, h: int)
    requires !Ended(ops, h)
    ensures CommittedEvents(ops, h) == []
  {
    if ops != [] {
      EndedNotCommitted(Init(ops), h);
    }
  }

  /** What of the events on the bus is from one handle: all for a plain one, the committed ones for a transaction. */
  function Share<E>(ops: seq<Op<E>>, h: int): seq<E> {
    if IsTx(ops, h) then CommittedEvents(ops, h) else EventsOf(ops, h)
  }

  lemma ShareOfOpen<E>(ops: seq<Op<E>>, h: int)
    requires ops != [] && Proper(ops) && Last(ops).Open?
    ensures Share(ops, h) == Share(Init(ops), h)
  {
    if Last(ops).h == h {
      NotOpened(Init(ops), h);
      EndedNotCommitted(Init(ops), h);
    }
  }

  lemma ShareOfEnqueue<E>(ops: seq<Op<E>>, tag: E -> int, h: int)
    requires ops != [] && Proper(ops) && Tagged(ops, tag) && Last(ops).Enqueue?
    ensures Share(ops, h) == Share(Init(ops), h) + Filter(DueNow(Init(ops), Last(ops)), tag, h)
  {
    FilterOne(Last(ops).event, tag, h);
  }

  lemma ShareOfCommit<E>(ops: seq<Op<E>>, tag: E -> int, h: int)
    requires ops != [] && Proper(ops) && Tagged(ops, tag) && Last(ops).Commit?
    ensures Share(ops, h) == Share(Init(ops), h) + Filter(DueNow(Init(ops), Last(ops)), tag, h)
  {
    FilterOfEvents(Init(ops), tag, h, Last(ops).h);
    if !Ended(Init(ops), h) {
      EndedNotCommitted(Init(ops), h);
    }
  }

  lemma {:induction false} DuePerHandle<E>(ops: seq<Op<E>>, tag: E -> int, h: int)
    requires Proper(ops) && Tagged(ops, tag)
    ensures Filter(Due(ops), tag, h) == Share(ops, h)
  {
    if ops != [] {
      DuePerHandle(Init(ops), tag, h);
      FilterAppend(Due(Init(ops)), DueNow(Init(ops), Last(ops)), tag, h);
      match Last(ops) {
        case Open(_, _) => ShareOfOpen(ops, h);
        case Enqueue(_, _) => ShareOfEnqueue(ops, tag, h);
        case Commit(_, _) => ShareOfCommit(ops, tag, h);
        case Rollback(_) =>
      }
    }
  }

  /**
   Among what the bus has been handed, the events of one transaction are exactly the ones it had
   enqueued when it committed, each once and in order, and none if it was rolled back or its commit
   failed. The events of a plain handle are there as they came.
   */
  lemma PerTransaction<E>(ops: seq<Op<E>>, tag: E -> int, h: int)
    requires Proper(ops) && Tagged(ops, tag)
    ensures Filter(Run(ops).sent, tag, h) == if IsTx(ops, h) then CommittedEvents(ops, h) else EventsOf(ops, h)
  {
    SentIsDue(ops);
    DuePerHandle(ops, tag, h);
  }
}
