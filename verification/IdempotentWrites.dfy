/**
 Ledger writes behind the idempotency protocol: a handler commits its transaction and then reads the result again
 before it returns, so it can throw after the money has moved.
 */
module IdempotentWrites {
  import I = Idempotency
  import L = Ledger

  /** `written` lists the calls whose transaction committed, in commit order. */
  datatype World = World(protocol: I.State, ledger: L.Table, written: seq<nat>)

  datatype Event = Protocol(event: I.Event) | Commits(call: nat, request: L.Event)

  /** The requests that are sent with a key. */
  predicate Keyed(r: L.Event) {
    r.Plans? || r.Repays? || r.PartnerDisburses? || r.PartnerRepays?
  }

  predicate CanCommit(w: World, c: nat, r: L.Event) {
    && c in w.protocol.calls && w.protocol.calls[c].stage.Running? && c !in w.written
    && Keyed(r) && L.Step(w.ledger, r).Some?
  }

  /** A handler returns only after its transaction committed; it can throw before or after. */
  function Next(w: World, e: Event): World {
    match e
    case Protocol(event) =>
      if event.HandlerReturns? && event.call !in w.written then w else w.(protocol := I.Next(w.protocol, event))
    case Commits(c, r) =>
      if CanCommit(w, c, r) then w.(ledger := L.Next(w.ledger, r), written := w.written + [c]) else w
  }

  function Replay(ledger: L.Table, events: seq<Event>): World {
    if events == [] then World(I.EMPTY, ledger, [])
    else Next(Replay(ledger, events[..|events| - 1]), events[|events| - 1])
  }

  lemma Push(ledger: L.Table, events: seq<Event>, e: Event)
    ensures Replay(ledger, events + [e]) == Next(Replay(ledger, events), e)
  {
    assert (events + [e])[..|events|] == events;
  }

  predicate WroteOn(w: World, c: nat, k: I.Key) {
    c in w.written && c in w.protocol.calls && w.protocol.calls[c].key == k
  }

  /** The call runs its handler, or its handler returned. */
  predicate HoldsOn(s: I.State, c: nat, k: I.Key) {
    I.RunsOn(s, c, k) || I.SucceededOn(s, c, k)
  }

  lemma {:induction false} ProtocolInv(ledger: L.Table, events: seq<Event>)
    ensures I.Inv(Replay(ledger, events).protocol)
  {
    if events != [] {
      var front, e := events[..|events| - 1], events[|events| - 1];
      ProtocolInv(ledger, front);
      if e.Protocol? {
        I.StepInv(Replay(ledger, front).protocol, e.event);
      }
    }
  }

  lemma StepKeepsHolder(w: World, e: Event, c: nat, k: I.Key)
    requires HoldsOn(w.protocol, c, k)
    requires e != Protocol(I.HandlerThrows(c)) && e != Protocol(I.CompletionFails(c))
    ensures HoldsOn(Next(w, e).protocol, c, k)
  {
  }

  /** While a call holds the key, no other call writes. */
  lemma StepWrites(w: World, e: Event, c: nat, c': nat, k: I.Key)
    requires I.Inv(w.protocol) && HoldsOn(w.protocol, c, k) && c in w.written
    requires c' in w.protocol.calls && w.protocol.calls[c'].key == k
    ensures c' in Next(w, e).written ==> c' in w.written
  {
    if e.Commits? && e.call == c' && CanCommit(w, c', e.request) {
      I.OneHolder(w.protocol, c, c', k);
    }
  }

  /** The handler of call `c` does not throw, and its completion does not fail. */
  predicate Settles(events: seq<Event>, c: nat) {
    Protocol(I.HandlerThrows(c)) !in events && Protocol(I.CompletionFails(c)) !in events
  }

  /** A writer is still at its handler's outcome, or has been completed, or has failed. */
  predicate WriterOk(w: World, c: nat) {
    && c in w.protocol.calls
    && var call := w.protocol.calls[c];
       I.Holds(call) || I.ReturnedOwn(call) || call.stage.Thrown?
  }

  /** Each writer wrote once, and no handler returned without having written. */
  predicate WritersOk(w: World) {
    && (forall i, j :: 0 <= i < j < |w.written| ==> w.written[i] != w.written[j])
    && (forall c :: c in w.written ==> WriterOk(w, c))
    && (forall c :: c in w.protocol.calls && I.SucceededOn(w.protocol, c, w.protocol.calls[c].key) ==> c in w.written)
  }

  lemma StepWritersOk(w: World, e: Event)
    requires WritersOk(w)
    ensures WritersOk(Next(w, e))
  {
  }

  lemma {:induction false} RunWritersOk(ledger: L.Table, events: seq<Event>)
    ensures WritersOk(Replay(ledger, events))
  {
    if events != [] {
      RunWritersOk(ledger, events[..|events| - 1]);
      StepWritersOk(Replay(ledger, events[..|events| - 1]), events[|events| - 1]);
    }
  }

  /**
   A call that receives a value owes it to a call that wrote, once, and was completed, for the same payload; any other
   call that wrote under the key failed after its commit and was answered an error.
   */
  lemma ValueMeansOneCompletedWrite(ledger: L.Table, events: seq<Event>, c: nat, k: I.Key) returns (winner: nat)
    requires c in Replay(ledger, events).protocol.calls && Replay(ledger, events).protocol.calls[c].key == k
    requires Replay(ledger, events).protocol.calls[c].stage.Returned?
    ensures var w := Replay(ledger, events);
            && WroteOn(w, winner, k)
            && w.protocol.calls[winner].payload == w.protocol.calls[c].payload
            && w.protocol.calls[winner].stage == I.Returned(w.protocol.calls[c].stage.value, true)
            && multiset(w.written)[winner] == 1
            && forall c' :: WroteOn(w, c', k) && c' != winner ==> w.protocol.calls[c'].stage.Thrown?
  {
    var w := Replay(ledger, events);
    ProtocolInv(ledger, events);
    RunWritersOk(ledger, events);
    winner := w.protocol.rows[k].id;
    assert I.CallOk(w.protocol, c) && I.RowOk(w.protocol, k);
    OnceInWritten(w.written, winner);
    forall c' | WroteOn(w, c', k) && c' != winner ensures w.protocol.calls[c'].stage.Thrown? {
      assert I.CallOk(w.protocol, c') && WriterOk(w, c');
    }
  }

  lemma {:induction false} OnceInWritten(written: seq<nat>, c: nat)
    requires forall i, j :: 0 <= i < j < |written| ==> written[i] != written[j]
    ensures multiset(written)[c] == if c in written then 1 else 0
  {
    if written != [] {
      var front := written[..|written| - 1];
      assert written == front + [written[|written| - 1]];
      OnceInWritten(front, c);
    }
  }

  /** No call on the key writes after these events that had not written before. */
  ghost predicate NoMoreWrites(ledger: L.Table, events: seq<Event>, k: I.Key) {
    forall rest: seq<Event>, c: nat ::
      WroteOn(Replay(ledger, events + rest), c, k) ==> WroteOn(Replay(ledger, events), c, k)
  }

  /**
   After a call wrote, and while its handler does not throw nor its completion fail, no other call on the key writes,
   at any later time and whatever else fails.
   */
  lemma {:induction false} OneWrite(ledger: L.Table, events: seq<Event>, rest: seq<Event>, c: nat, c': nat, k: I.Key)
    requires WroteOn(Replay(ledger, events), c, k) && HoldsOn(Replay(ledger, events).protocol, c, k) && Settles(rest, c)
    ensures HoldsOn(Replay(ledger, events + rest).protocol, c, k) && c in Replay(ledger, events + rest).written
    ensures WroteOn(Replay(ledger, events + rest), c', k) ==> WroteOn(Replay(ledger, events), c', k)
  {
    if rest == [] {
      assert events + rest == events;
    } else {
      var front, e := rest[..|rest| - 1], rest[|rest| - 1];
      assert forall x :: x in front ==> x in rest;
      assert events + rest == (events + front) + [e];
      OneWrite(ledger, events, front, c, c', k);
      Push(ledger, events + front, e);
      var w := Replay(ledger, events + front);
      ProtocolInv(ledger, events + front);
      RunWritersOk(ledger, events + front);
      assert e in rest;
      StepKeepsHolder(w, e, c, k);
      if c' in w.protocol.calls && w.protocol.calls[c'].key == k {
        StepWrites(w, e, c, c', k);
      }
    }
  }

  lemma {:induction false} CompletedForGood(
    ledger: L.Table, events: seq<Event>, rest: seq<Event>, c: nat, c': nat, k: I.Key)
    requires WroteOn(Replay(ledger, events), c, k) && I.ReturnedOwn(Replay(ledger, events).protocol.calls[c])
    ensures WroteOn(Replay(ledger, events + rest), c, k)
    ensures I.ReturnedOwn(Replay(ledger, events + rest).protocol.calls[c])
    ensures WroteOn(Replay(ledger, events + rest), c', k) ==> WroteOn(Replay(ledger, events), c', k)
  {
    if rest == [] {
      assert events + rest == events;
    } else {
      var front, e := rest[..|rest| - 1], rest[|rest| - 1];
      assert events + rest == (events + front) + [e];
      CompletedForGood(ledger, events, front, c, c', k);
      Push(ledger, events + front, e);
      var w := Replay(ledger, events + front);
      ProtocolInv(ledger, events + front);
      RunWritersOk(ledger, events + front);
      if e.Protocol? {
        I.StepKeepsReturned(w.protocol, e.event, c);
      }
      if c' in w.protocol.calls && w.protocol.calls[c'].key == k {
        StepWrites(w, e, c, c', k);
      }
    }
  }

  // ---- The retry after a failure ------------------------------------------------------------------

  /** The failed handler's claim is released: the key is free, and the ledger as it was. */
  lemma ReleaseFrees(ledger: L.Table, events: seq<Event>, c: nat, k: I.Key)
    requires c in Replay(ledger, events).protocol.calls && Replay(ledger, events).protocol.calls[c].key == k
    requires Replay(ledger, events).protocol.calls[c].stage.Failed?
    ensures var (w, w') := (Replay(ledger, events), Replay(ledger, events + [Protocol(I.Release(c))]));
            && k !in w'.protocol.rows && w'.protocol.calls.Keys == w.protocol.calls.Keys
            && w'.ledger == w.ledger && w'.written == w.written
  {
    ProtocolInv(ledger, events);
    assert I.CallOk(Replay(ledger, events).protocol, c);
    Push(ledger, events, Protocol(I.Release(c)));
  }

  lemma Arrives(ledger: L.Table, events: seq<Event>, c: nat, k: I.Key, payload: string)
    requires c !in Replay(ledger, events).protocol.calls
    ensures var (w, w') := (Replay(ledger, events), Replay(ledger, events + [Protocol(I.Arrive(c, k, payload))]));
            && c in w'.protocol.calls && w'.protocol.calls[c] == I.Call(k, payload, I.Starting)
            && w'.protocol.rows == w.protocol.rows && w'.ledger == w.ledger && w'.written == w.written
  {
    Push(ledger, events, Protocol(I.Arrive(c, k, payload)));
  }

  lemma ClaimsFreeKey(ledger: L.Table, events: seq<Event>, c: nat, k: I.Key)
    requires c in Replay(ledger, events).protocol.calls && Replay(ledger, events).protocol.calls[c].key == k
    requires Replay(ledger, events).protocol.calls[c].stage.Starting? && k !in Replay(ledger, events).protocol.rows
    ensures var (w, w') := (Replay(ledger, events), Replay(ledger, events + [Protocol(I.Claim(c))]));
            I.RunsOn(w'.protocol, c, k) && w'.ledger == w.ledger && w'.written == w.written
  {
    Push(ledger, events, Protocol(I.Claim(c)));
  }

  lemma CommitsRequest(ledger: L.Table, events: seq<Event>, c: nat, k: I.Key, request: L.Event)
    requires I.RunsOn(Replay(ledger, events).protocol, c, k) && c !in Replay(ledger, events).written
    requires Keyed(request) && L.Step(Replay(ledger, events).ledger, request).Some?
    ensures WroteOn(Replay(ledger, events + [Commits(c, request)]), c, k)
    ensures Replay(ledger, events + [Commits(c, request)]).ledger == L.Next(Replay(ledger, events).ledger, request)
  {
    Push(ledger, events, Commits(c, request));
  }

  /** A new call that finds its key free commits a request that the ledger accepts. */
  lemma RetryCommits(ledger: L.Table, events: seq<Event>, c: nat, k: I.Key, payload: string, request: L.Event)
    returns (rest: seq<Event>)
    requires c !in Replay(ledger, events).protocol.calls && c !in Replay(ledger, events).written
    requires k !in Replay(ledger, events).protocol.rows
    requires Keyed(request) && L.Step(Replay(ledger, events).ledger, request).Some?
    ensures WroteOn(Replay(ledger, events + rest), c, k)
    ensures Replay(ledger, events + rest).ledger == L.Next(Replay(ledger, events).ledger, request)
  {
    var arrived := events + [Protocol(I.Arrive(c, k, payload))];
    var claimed := arrived + [Protocol(I.Claim(c))];
    Arrives(ledger, events, c, k, payload);
    ClaimsFreeKey(ledger, arrived, c, k);
    CommitsRequest(ledger, claimed, c, k, request);
    rest := [Protocol(I.Arrive(c, k, payload)), Protocol(I.Claim(c)), Commits(c, request)];
    assert events + rest == claimed + [Commits(c, request)];
  }

  /** A call that has not arrived yet. */
  lemma FreshCall(ledger: L.Table, events: seq<Event>) returns (c: nat)
    ensures c !in Replay(ledger, events).protocol.calls && c !in Replay(ledger, events).written
  {
    c := I.Bound(Replay(ledger, events).protocol.calls.Keys);
    RunWritersOk(ledger, events);
    assert c in Replay(ledger, events).written ==> WriterOk(Replay(ledger, events), c);
  }

  /** When a handler has failed after its commit, its claim can be released and the retry writes a second time. */
  lemma FailureAfterCommitWritesTwice(ledger: L.Table, events: seq<Event>, c: nat, k: I.Key, request: L.Event)
    returns (rest: seq<Event>, c': nat)
    requires WroteOn(Replay(ledger, events), c, k) && Replay(ledger, events).protocol.calls[c].stage.Failed?
    requires Keyed(request) && L.Step(Replay(ledger, events).ledger, request).Some?
    ensures WroteOn(Replay(ledger, events + rest), c', k) && !WroteOn(Replay(ledger, events), c', k)
    ensures Replay(ledger, events + rest).ledger == L.Next(Replay(ledger, events).ledger, request)
  {
    var released := events + [Protocol(I.Release(c))];
    c' := FreshCall(ledger, events);
    ReleaseFrees(ledger, events, c, k);
    var payload := Replay(ledger, events).protocol.calls[c].payload;
    var retry := RetryCommits(ledger, released, c', k, payload, request);
    rest := [Protocol(I.Release(c))] + retry;
    assert events + rest == released + retry;
  }

  /** How a handler whose transaction committed can end: the read after the commit may throw, or the completion fail. */
  datatype Ending = Completed(result: string) | CompletionFailed(result: string) | ThrewAfterCommit

  function EndingEvents(c: nat, ending: Ending): seq<Event> {
    match ending
    case Completed(result) => [Protocol(I.HandlerReturns(c, result)), Protocol(I.Complete(c))]
    case CompletionFailed(result) => [Protocol(I.HandlerReturns(c, result)), Protocol(I.CompletionFails(c))]
    case ThrewAfterCommit => [Protocol(I.HandlerThrows(c))]
  }

  /** A handler that has committed goes through its ending: the ledger stays, and the call is completed or failed. */
  lemma Ends(ledger: L.Table, events: seq<Event>, c: nat, k: I.Key, ending: Ending)
    requires WroteOn(Replay(ledger, events), c, k) && I.RunsOn(Replay(ledger, events).protocol, c, k)
    ensures var (w, w') := (Replay(ledger, events), Replay(ledger, events + EndingEvents(c, ending)));
            && WroteOn(w', c, k) && w'.ledger == w.ledger && w'.written == w.written
            && if ending.Completed? then I.ReturnedOwn(w'.protocol.calls[c]) else w'.protocol.calls[c].stage.Failed?
  {
    if ending.ThrewAfterCommit? {
      Push(ledger, events, Protocol(I.HandlerThrows(c)));
    } else {
      var returned := Protocol(I.HandlerReturns(c, ending.result));
      var last := if ending.Completed? then Protocol(I.Complete(c)) else Protocol(I.CompletionFails(c));
      Push(ledger, events, returned);
      Push(ledger, events + [returned], last);
      assert events + EndingEvents(c, ending) == events + [returned] + [last];
    }
  }

  /**
   From every reachable state in which a handler has committed its write, and the ledger would accept the same request
   again: no further write happens under the key, in any continuation, if and only if the call is completed, that is if
   the handler does not throw after its commit and its completion does not fail.
   */
  lemma OneWriteIffCompleted(
    ledger: L.Table, events: seq<Event>, c: nat, k: I.Key, request: L.Event, ending: Ending)
    requires WroteOn(Replay(ledger, events), c, k) && I.RunsOn(Replay(ledger, events).protocol, c, k)
    requires Keyed(request) && L.Step(Replay(ledger, events).ledger, request).Some?
    ensures NoMoreWrites(ledger, events + EndingEvents(c, ending), k) <==> ending.Completed?
  {
    var after := events + EndingEvents(c, ending);
    Ends(ledger, events, c, k, ending);
    if ending.Completed? {
      forall rest: seq<Event>, c': nat | WroteOn(Replay(ledger, after + rest), c', k)
        ensures WroteOn(Replay(ledger, after), c', k)
      {
        CompletedForGood(ledger, after, rest, c, c', k);
      }
    } else {
      var rest, c' := FailureAfterCommitWritesTwice(ledger, after, c, k, request);
      assert WroteOn(Replay(ledger, after + rest), c', k) && !WroteOn(Replay(ledger, after), c', k);
    }
  }
}
