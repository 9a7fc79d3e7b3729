/**
 Who ends a transaction: the HTTP middleware of pkg/db/middleware.go around a request handler, and
 ParseMail of pkg/mail/parser.go around the handling of a mail.
 */
module Requests {
  import opened Wrappers
  import opened Outbox

  /** What a request handler does that matters here. */
  datatype Act<E> = WriteHeader(code: int) | Write | Emit(event: E) | Panic

  predicate Panics<E>(acts: seq<Act<E>>) {
    acts != [] && (acts[0].Panic? || Panics(acts[1..]))
  }

  /** The events enqueued up to a panic. */
  function Emitted<E>(acts: seq<Act<E>>): seq<E> {
    if acts == [] || acts[0].Panic? then []
    else if acts[0].Emit? then [acts[0].event] + Emitted(acts[1..])
    else Emitted(acts[1..])
  }

  /** An event enqueued after others comes behind them, and nothing comes behind a panic. */
  lemma {:induction false} EmittedInOrder<E>(acts: seq<Act<E>>, act: Act<E>)
    ensures Panics(acts + [act]) <==> Panics(acts) || act.Panic?
    ensures Emitted(acts + [act]) == Emitted(acts) + if !Panics(acts) && act.Emit? then [act.event] else []
  {
    if acts == [] {
      assert acts + [act] == [act] && [act][1..] == [];
    } else {
      EmittedInOrder(acts[1..], act);
      assert (acts + [act])[1..] == acts[1..] + [act];
    }
  }

  /** The status after one more act. */
  function NextStatus<E>(status: int, act: Act<E>): int {
    match act
    case WriteHeader(code) => code
    case Write => if status == 0 then 200 else status
    case _ => status
  }

  function Status<E>(acts: seq<Act<E>>): int {
    if acts == [] then 0 else NextStatus(Status(Init(acts)), Last(acts))
  }

  /** The status that counts is the last one written, whatever is written behind it. */
  lemma {:induction false} LastHeaderCounts<E>(acts: seq<Act<E>>, code: int, rest: seq<Act<E>>)
    requires code != 0 && (forall i :: 0 <= i < |rest| ==> !rest[i].WriteHeader?)
    ensures Status(acts + [WriteHeader(code)] + rest) == code
  {
    var all := acts + [WriteHeader(code)] + rest;
    if rest == [] {
      assert all == acts + [WriteHeader(code)];
      assert Last(all) == WriteHeader(code);
    } else {
      LastHeaderCounts(acts, code, Init(rest));
      assert Init(all) == acts + [WriteHeader(code)] + Init(rest);
      assert Last(all) == Last(rest);
    }
  }

  /** A handler that never writes a header answers with 200 if it writes a body, and with no status if not. */
  lemma {:induction false} NoHeaderIsSuccess<E>(acts: seq<Act<E>>)
    requires forall i :: 0 <= i < |acts| ==> !acts[i].WriteHeader?
    ensures Status(acts) == if exists i :: 0 <= i < |acts| && acts[i].Write? then 200 else 0
  {
    if acts != [] {
      NoHeaderIsSuccess(Init(acts));
      assert Last(acts).Write? ==> acts[|acts| - 1].Write?;
    }
  }

  class StatusWriter {
    var status: int

    constructor ()
      ensures status == 0
    {
      status := 0;
    }

    method WriteHeader(code: int)
      modifies this
      ensures status == code
    {
      status := code;
    }

    method Write()
      modifies this
      ensures status == if old(status) == 0 then 200 else old(status)
    {
      if status == 0 {
        status := 200;
      }
    }
  }

  /** Lets the handler act until it is done or panics. */
  method Serve<E>(acts: seq<Act<E>>, q: Queries<E>, rw: StatusWriter) returns (panicked: bool)
    requires q.inTx ==> !q.finished
    requires !q.inTx ==> q.pendingEvents == []
    modifies q, q.bus, rw
    ensures panicked == Panics(acts)
    ensures q.finished == old(q.finished)
    ensures q.inTx ==> q.pendingEvents == old(q.pendingEvents) + Emitted(acts) && q.bus.events == old(q.bus.events)
    ensures !q.inTx ==> q.pendingEvents == [] && q.bus.events == old(q.bus.events) + Emitted(acts)
    ensures !panicked && old(rw.status) == 0 ==> rw.status == Status(acts)
  {
    for i := 0 to |acts|
      invariant Panics(acts) == Panics(acts[i..])
      invariant q.finished == old(q.finished)
      invariant q.inTx ==> q.pendingEvents + Emitted(acts[i..]) == old(q.pendingEvents) + Emitted(acts)
      invariant q.inTx ==> q.bus.events == old(q.bus.events)
      invariant !q.inTx ==> q.pendingEvents == []
      invariant !q.inTx ==> q.bus.events + Emitted(acts[i..]) == old(q.bus.events) + Emitted(acts)
      invariant old(rw.status) == 0 ==> rw.status == Status(acts[..i])
    {
      assert acts[i..][1..] == acts[i + 1..];
      assert Init(acts[..i + 1]) == acts[..i];
      match acts[i] {
        case WriteHeader(code) => rw.WriteHeader(code);
        case Write => rw.Write();
        case Emit(e) => q.EnqueueEvent(e);
        case Panic => return true;
      }
    }
    assert acts[..|acts|] == acts;
    return false;
  }

  /**
   GET and HEAD run on a plain handle. Everything else runs in a transaction, which is rolled back
   by a panic or an error status and committed otherwise.
   */
  method Middleware<E>(isRead: bool, beginOk: bool, acts: seq<Act<E>>, commitOk: bool, bus: Bus<E>)
    returns (panicked: bool)
    modifies bus
    ensures isRead ==> bus.events == old(bus.events) + Emitted(acts) && panicked == Panics(acts)
    ensures !isRead ==>
      var kept := beginOk && !Panics(acts) && Status(acts) < 400 && commitOk;
      bus.events == old(bus.events) + (if kept then Emitted(acts) else []) && panicked == (beginOk && Panics(acts))
  {
    var rw := new StatusWriter();
    if isRead {
      var plain := new Queries(false, bus);
      panicked := Serve(acts, plain, rw);
      return;
    }
    if !beginOk {
      return false;
    }
    var q := new Queries(true, bus);
    panicked := Serve(acts, q, rw);
    if panicked {
      q.Rollback();
      return;
    }
    if rw.status >= 400 {
      q.Rollback();
      return;
    }
    var _ := q.Commit(commitOk);
  }

  // ---------------------------------------------------------------- mails

  /** How the handling of a mail ends: nothing to do, an error, or done. */
  datatype Handling = Skipped | Failed | Handled

  /** Commit at the end of a handled mail; the deferred rollback comes in any case, also behind the commit. */
  method ParseMail<E>(beginOk: bool, events: seq<E>, handling: Handling, commitOk: bool, bus: Bus<E>) returns (ok: bool)
    modifies bus
    ensures ok == (beginOk && (handling.Skipped? || (handling.Handled? && commitOk)))
    ensures bus.events == old(bus.events) + if beginOk && handling.Handled? && commitOk then events else []
  {
    if !beginOk {
      return false;
    }
    var queries := new Queries(true, bus);
    for i := 0 to |events|
      invariant bus.events == old(bus.events) && !queries.finished
      invariant queries.pendingEvents == events[..i]
    {
      queries.EnqueueEvent(events[i]);
    }
    ok := !handling.Failed?;
    if handling.Handled? {
      ok := queries.Commit(commitOk);
    }
    queries.Rollback();
  }
}
