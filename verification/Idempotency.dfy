/**
 The idempotency protocol: any number of `run` calls, on any keys, interleaved statement by statement.
 Each call claims its key by an insert that the unique constraint decides, runs the handler, then
 completes or releases its own row; the calls that lose the claim look the outcome up.
 */
module Idempotency {
  import opened Common

  datatype Key = Key(scope: string, cle: string)

  /** `id` is the claim that inserted the row; SHA-256 is taken as injective, so a digest is its payload. */
  datatype Row = Row(id: nat, payload: string, response: Option<string>)

  type Rows = map<Key, Row>

  /** Where one `run` call stands. A call that dies simply stays where it is. */
  datatype Stage =
    | Starting
    | Running
    | Succeeded(result: string)
    | Failed
    | LookingUp
    | Returned(value: string, ownHandler: bool)
    | Thrown

  datatype Call = Call(key: Key, payload: string, stage: Stage)

  /** Calls are numbered; a call claims at most once, so its number serves as the identifier of its claim. */
  datatype State = State(rows: Rows, calls: map<nat, Call>)

  datatype Event =
    | Arrive(call: nat, key: Key, payload: string)
    | Claim(call: nat)
    | HandlerReturns(call: nat, result: string)
    | HandlerThrows(call: nat)
    | Complete(call: nat)
    | CompletionFails(call: nat)
    | Release(call: nat)
    | ReleaseFails(call: nat)
    | Lookup(call: nat)

  // ---- The four statements --------------------------------------------------------------------

  /** `INSERT ... ON CONFLICT DO NOTHING`. */
  function Inserted(rows: Rows, key: Key, id: nat, payload: string): Rows {
    if key in rows then rows else rows[key := Row(id, payload, None)]
  }

  /** `UPDATE ... SET corps_reponse ... WHERE id`. */
  function Stored(rows: Rows, id: nat, result: string): Rows {
    map k | k in rows :: if rows[k].id == id then rows[k].(response := Some(result)) else rows[k]
  }

  /** `DELETE ... WHERE id`. */
  function Deleted(rows: Rows, id: nat): Rows {
    map k | k in rows && rows[k].id != id :: rows[k]
  }

  /** What a call that lost the claim answers. */
  function Answer(rows: Rows, key: Key, payload: string): Stage {
    if key !in rows || rows[key].response.None? then Thrown
    else if rows[key].payload != payload then Thrown
    else Returned(rows[key].response.value, false)
  }

  /** Claims have identifiers of their own. */
  ghost predicate DistinctClaims(rows: Rows) {
    forall k, k' :: k in rows && k' in rows && rows[k].id == rows[k'].id ==> k == k'
  }

  ghost predicate FreshClaim(rows: Rows, id: nat) {
    forall k :: k in rows ==> rows[k].id != id
  }

  /** Every other row is as it was. */
  ghost predicate OthersKept(before: Rows, after: Rows, key: Key) {
    forall k :: k != key ==> (k in after <==> k in before) && (k in before ==> after[k] == before[k])
  }

  /** The table, one method per statement of `run`. */
  class IdempotencyKeys {
    var rows: Rows

    ghost predicate Valid()
      reads this
    {
      DistinctClaims(rows)
    }

    constructor ()
      ensures Valid() && rows == map[]
    {
      rows := map[];
    }

    /** One of the calls with a key wins, and what it sent is what later calls are compared with. */
    method ClaimKey(key: Key, id: nat, payload: string) returns (won: bool)
      requires Valid() && FreshClaim(rows, id)
      modifies this
      ensures Valid() && rows == Inserted(old(rows), key, id, payload)
      ensures won <==> key !in old(rows)
      ensures OthersKept(old(rows), rows, key)
      ensures won ==> forall sent :: Answer(rows, key, sent) == Thrown
      ensures !won ==> rows == old(rows)
    {
      won := key !in rows;
      if won {
        rows := rows[key := Row(id, payload, None)];
      }
    }

    /** From now on a call with this key gets the result if it sent the claim's payload, and is refused if not. */
    method CompleteClaim(ghost key: Key, id: nat, result: string)
      requires Valid() && key in rows && rows[key].id == id
      modifies this
      ensures Valid() && rows == Stored(old(rows), id, result)
      ensures OthersKept(old(rows), rows, key)
      ensures forall sent ::
                Answer(rows, key, sent) == if sent == old(rows)[key].payload then Returned(result, false) else Thrown
    {
      rows := map k | k in rows :: if rows[k].id == id then Row(id, rows[k].payload, Some(result)) else rows[k];
    }

    /** The key is free again, for any payload. */
    method ReleaseClaim(ghost key: Key, id: nat)
      requires Valid() && key in rows && rows[key].id == id
      modifies this
      ensures Valid() && rows == Deleted(old(rows), id)
      ensures OthersKept(old(rows), rows, key)
      ensures key !in rows && FreshClaim(rows, id)
    {
      rows := map k | k in rows && rows[k].id != id :: rows[k];
    }

    method LookUp(key: Key, payload: string) returns (answer: Stage)
      ensures answer == Answer(rows, key, payload)
    {
      if key !in rows || rows[key].response.None? {
        return Thrown;
      }
      var row := rows[key];
      if row.payload != payload {
        return Thrown;
      }
      return Returned(row.response.value, false);
    }

    /** One whole call nobody interferes with; `outcome` is what its handler does when it runs, None for a throw. */
    method Run(key: Option<Key>, id: nat, payload: string, outcome: Option<string>) returns (answer: Stage)
      requires Valid() && FreshClaim(rows, id)
      modifies this
      ensures Valid()
      ensures key.None? || (key.value !in old(rows)) ==>
                answer == if outcome.Some? then Returned(outcome.value, true) else Thrown
      ensures key.Some? && key.value in old(rows) ==> answer == Answer(old(rows), key.value, payload)
      ensures rows == if key.Some? && key.value !in old(rows) && outcome.Some?
                      then old(rows)[key.value := Row(id, payload, outcome)] else old(rows)
    {
      if key.None? {
        return if outcome.Some? then Returned(outcome.value, true) else Thrown;
      }
      var won := ClaimKey(key.value, id, payload);
      if won {
        if outcome.Some? {
          CompleteClaim(key.value, id, outcome.value);
          return Returned(outcome.value, true);
        }
        ReleaseClaim(key.value, id);
        return Thrown;
      }
      answer := LookUp(key.value, payload);
    }
  }

  // ---- Runs -----------------------------------------------------------------------------------

  function Enabled(s: State, e: Event): bool {
    if e.Arrive? then e.call !in s.calls
    else
      && e.call in s.calls
      && match e
         case Claim(c) => s.calls[c].stage.Starting?
         case HandlerReturns(c, _) => s.calls[c].stage.Running?
         case HandlerThrows(c) => s.calls[c].stage.Running?
         case Complete(c) => s.calls[c].stage.Succeeded?
         case CompletionFails(c) => s.calls[c].stage.Succeeded?
         case Release(c) => s.calls[c].stage.Failed?
         case ReleaseFails(c) => s.calls[c].stage.Failed?
         case Lookup(c) => s.calls[c].stage.LookingUp?
         case Arrive(_, _, _) => true
  }

  function NextStage(s: State, e: Event): Stage
    requires Enabled(s, e)
  {
    match e
    case Arrive(_, _, _) => Starting
    case Claim(c) => if s.calls[c].key in s.rows then LookingUp else Running
    case HandlerReturns(_, result) => Succeeded(result)
    case HandlerThrows(_) => Failed
    case Complete(c) => Returned(s.calls[c].stage.result, true)
    case CompletionFails(_) => Failed
    case Release(_) => Thrown
    case ReleaseFails(_) => Thrown
    case Lookup(c) => Answer(s.rows, s.calls[c].key, s.calls[c].payload)
  }

  function NextRows(s: State, e: Event): Rows
    requires Enabled(s, e)
  {
    match e
    case Claim(c) => Inserted(s.rows, s.calls[c].key, c, s.calls[c].payload)
    case Complete(c) => Stored(s.rows, c, s.calls[c].stage.result)
    case Release(c) => Deleted(s.rows, c)
    case _ => s.rows
  }

  function Next(s: State, e: Event): State {
    if !Enabled(s, e) then s
    else
      var call := if e.Arrive? then Call(e.key, e.payload, Starting) else s.calls[e.call].(stage := NextStage(s, e));
      State(NextRows(s, e), s.calls[e.call := call])
  }

  const EMPTY := State(map[], map[])

  function Replay(events: seq<Event>): State {
    if events == [] then EMPTY else Next(Replay(events[..|events| - 1]), events[|events| - 1])
  }

  // ---- What every run keeps -------------------------------------------------------------------

  /** The handler of this call is running, or its outcome is not yet settled. */
  predicate Holds(c: Call) {
    c.stage.Running? || c.stage.Succeeded? || c.stage.Failed?
  }

  predicate ReturnedOwn(c: Call) {
    c.stage.Returned? && c.stage.ownHandler
  }

  predicate RowOk(s: State, k: Key)
    requires k in s.rows
  {
    var row := s.rows[k];
    && row.id in s.calls
    && s.calls[row.id].key == k && s.calls[row.id].payload == row.payload
    && (row.response.Some? ==> s.calls[row.id].stage == Returned(row.response.value, true))
  }

  predicate CallOk(s: State, c: nat)
    requires c in s.calls
  {
    var call := s.calls[c];
    && (Holds(call) || ReturnedOwn(call) ==> call.key in s.rows && s.rows[call.key].id == c)
    && (Holds(call) ==> s.rows[call.key].response == None)
    && (call.stage.Returned? ==>
          && call.key in s.rows
          && s.rows[call.key].payload == call.payload
          && s.rows[call.key].response == Some(call.stage.value))
  }

  ghost predicate Inv(s: State) {
    && (forall k :: k in s.rows ==> RowOk(s, k))
    && (forall c :: c in s.calls ==> CallOk(s, c))
  }

  lemma StepKeepsRows(s: State, e: Event, k: Key)
    requires Inv(s) && k in Next(s, e).rows
    ensures RowOk(Next(s, e), k)
  {
    assert k in s.rows ==> RowOk(s, k);
    assert e.call in s.calls ==> CallOk(s, e.call);
  }

  lemma StepKeepsCalls(s: State, e: Event, c: nat)
    requires Inv(s) && c in Next(s, e).calls
    ensures CallOk(Next(s, e), c)
  {
    assert c in s.calls ==> CallOk(s, c);
    assert e.call in s.calls ==> CallOk(s, e.call);
  }

  lemma StepInv(s: State, e: Event)
    requires Inv(s)
    ensures Inv(Next(s, e))
  {
    forall k | k in Next(s, e).rows
      ensures RowOk(Next(s, e), k)
    {
      StepKeepsRows(s, e, k);
    }
    forall c | c in Next(s, e).calls
      ensures CallOk(Next(s, e), c)
    {
      StepKeepsCalls(s, e, c);
    }
  }

  lemma {:induction false} RunInv(events: seq<Event>)
    ensures Inv(Replay(events))
  {
    if events != [] {
      RunInv(events[..|events| - 1]);
      StepInv(Replay(events[..|events| - 1]), events[|events| - 1]);
    }
  }

  /** Every call that gets a value gets the one handler's result, for the payload it sent itself. */
  lemma EveryValueIsTheHandlersResult(events: seq<Event>, c: nat) returns (winner: nat)
    requires c in Replay(events).calls && Replay(events).calls[c].stage.Returned?
    ensures var calls := Replay(events).calls;
            && winner in calls && calls[winner].key == calls[c].key && calls[winner].payload == calls[c].payload
            && calls[winner].stage == Returned(calls[c].stage.value, true)
  {
    RunInv(events);
    var s := Replay(events);
    winner := s.rows[s.calls[c].key].id;
    assert CallOk(s, c) && RowOk(s, s.calls[c].key);
  }

  // ---- One handler ------------------------------------------------------------------------------

  /** The handler of call `c`, on key `k`, has returned: its row is completed or still to be completed. */
  predicate SucceededOn(s: State, c: nat, k: Key) {
    c in s.calls && s.calls[c].key == k && (s.calls[c].stage.Succeeded? || ReturnedOwn(s.calls[c]))
  }

  predicate RunsOn(s: State, c: nat, k: Key) {
    c in s.calls && s.calls[c].key == k && s.calls[c].stage.Running?
  }

  /** The completion of call `c` does not fail. */
  predicate Completes(events: seq<Event>, c: nat) {
    CompletionFails(c) !in events
  }

  lemma StepKeepsSuccess(s: State, e: Event, c: nat, k: Key)
    requires SucceededOn(s, c, k) && e != CompletionFails(c)
    ensures SucceededOn(Next(s, e), c, k)
  {
  }

  lemma {:induction false} SuccessStays(events: seq<Event>, rest: seq<Event>, c: nat, k: Key)
    requires SucceededOn(Replay(events), c, k) && Completes(rest, c)
    ensures SucceededOn(Replay(events + rest), c, k)
  {
    if rest == [] {
      assert events + rest == events;
    } else {
      var front, e := rest[..|rest| - 1], rest[|rest| - 1];
      assert e in rest && forall x :: x in front ==> x in rest;
      SuccessStays(events, front, c, k);
      StepKeepsSuccess(Replay(events + front), e, c, k);
      assert events + rest == (events + front) + [e];
      Push(events + front, e);
    }
  }

  /** In one state, at most one call on a key runs its handler or has a handler that returned. */
  lemma OneHolder(s: State, c: nat, c': nat, k: Key)
    requires Inv(s)
    requires SucceededOn(s, c, k) || RunsOn(s, c, k)
    requires SucceededOn(s, c', k) || RunsOn(s, c', k)
    ensures c == c'
  {
    assert CallOk(s, c) && CallOk(s, c');
  }

  lemma OneHandlerAtATime(events: seq<Event>, c: nat, c': nat, k: Key)
    requires RunsOn(Replay(events), c, k) && RunsOn(Replay(events), c', k)
    ensures c == c'
  {
    RunInv(events);
    OneHolder(Replay(events), c, c', k);
  }

  /**
   Once a handler returned on a key, and unless its own completion fails, no other handler ever runs on that key again,
   and so none ever returns, at any later time and whatever else fails.
   */
  lemma AtMostOneSuccess(events: seq<Event>, rest: seq<Event>, c: nat, c': nat, k: Key)
    requires SucceededOn(Replay(events), c, k) && Completes(rest, c)
    requires SucceededOn(Replay(events + rest), c', k) || RunsOn(Replay(events + rest), c', k)
    ensures c == c'
  {
    SuccessStays(events, rest, c, k);
    RunInv(events + rest);
    OneHolder(Replay(events + rest), c, c', k);
  }

  lemma Push(events: seq<Event>, e: Event)
    ensures Replay(events + [e]) == Next(Replay(events), e)
  {
    assert (events + [e])[..|events|] == events;
  }

  /** No other handler on the key ever returns after these events. */
  ghost predicate LastSuccess(events: seq<Event>, c: nat, k: Key) {
    forall rest: seq<Event>, c': nat :: SucceededOn(Replay(events + rest), c', k) ==> c' == c
  }

  lemma StepKeepsReturned(s: State, e: Event, c: nat)
    requires c in s.calls && ReturnedOwn(s.calls[c])
    ensures c in Next(s, e).calls && Next(s, e).calls[c] == s.calls[c]
  {
  }

  /** A completed call stays completed, whatever happens. */
  lemma {:induction false} ReturnedStays(events: seq<Event>, rest: seq<Event>, c: nat)
    requires c in Replay(events).calls && ReturnedOwn(Replay(events).calls[c])
    ensures c in Replay(events + rest).calls && Replay(events + rest).calls[c] == Replay(events).calls[c]
  {
    if rest == [] {
      assert events + rest == events;
    } else {
      var front, e := rest[..|rest| - 1], rest[|rest| - 1];
      ReturnedStays(events, front, c);
      StepKeepsReturned(Replay(events + front), e, c);
      assert events + rest == (events + front) + [e];
      Push(events + front, e);
    }
  }

  ghost function Bound(ids: set<nat>): (b: nat)
    ensures forall i :: i in ids ==> i < b
  {
    if ids == {} then 0
    else
      var i :| i in ids;
      var rest := Bound(ids - {i});
      assert forall j :: j in ids ==> j == i || j in ids - {i};
      if i < rest then rest else i + 1
  }

  /** A call that finds its key free runs its handler. */
  lemma RetryRuns(events: seq<Event>, c: nat, k: Key, payload: string) returns (rest: seq<Event>)
    requires c !in Replay(events).calls && k !in Replay(events).rows
    ensures rest == [Arrive(c, k, payload), Claim(c)] && RunsOn(Replay(events + rest), c, k)
  {
    var arrived := events + [Arrive(c, k, payload)];
    Push(events, Arrive(c, k, payload));
    Push(arrived, Claim(c));
    rest := [Arrive(c, k, payload), Claim(c)];
    assert events + rest == arrived + [Claim(c)];
  }

  /** Whatever made a handler fail, once its claim is released the key is free. */
  lemma ReleaseFrees(events: seq<Event>, c: nat, k: Key)
    requires c in Replay(events).calls && Replay(events).calls[c].key == k && Replay(events).calls[c].stage.Failed?
    ensures k !in Replay(events + [Release(c)]).rows
  {
    RunInv(events);
    assert CallOk(Replay(events), c);
    Push(events, Release(c));
  }

  /** When the completion fails, the claim is released and the key is free: a retry runs a second handler to success. */
  lemma FailedCompletionRunsTwice(events: seq<Event>, c: nat, k: Key) returns (rest: seq<Event>, c': nat)
    requires SucceededOn(Replay(events), c, k) && Replay(events).calls[c].stage.Succeeded?
    ensures c' != c && SucceededOn(Replay(events + [CompletionFails(c)] + rest), c', k)
  {
    var failed := events + [CompletionFails(c)];
    var released := failed + [Release(c)];
    Push(events, CompletionFails(c));
    Push(failed, Release(c));
    ReleaseFrees(failed, c, k);
    c' := Bound(Replay(released).calls.Keys);
    var retry := RetryRuns(released, c', k, Replay(events).calls[c].payload);
    Push(released + retry, HandlerReturns(c', ""));
    rest := [Release(c)] + retry + [HandlerReturns(c', "")];
    assert failed + rest == released + retry + [HandlerReturns(c', "")];
  }

  /**
   From every reachable state in which a handler has returned and its row is to be completed: no other handler on the
   key ever returns, in any continuation, if and only if the completion succeeds.
   */
  lemma LastSuccessIffCompleted(events: seq<Event>, c: nat, k: Key, completed: bool)
    requires SucceededOn(Replay(events), c, k) && Replay(events).calls[c].stage.Succeeded?
    ensures LastSuccess(events + [if completed then Complete(c) else CompletionFails(c)], c, k) <==> completed
  {
    if completed {
      var after := events + [Complete(c)];
      Push(events, Complete(c));
      forall rest: seq<Event>, c': nat | SucceededOn(Replay(after + rest), c', k) ensures c' == c {
        ReturnedStays(after, rest, c);
        RunInv(after + rest);
        OneHolder(Replay(after + rest), c, c', k);
      }
    } else {
      var rest, c' := FailedCompletionRunsTwice(events, c, k);
      assert c' != c && SucceededOn(Replay(events + [CompletionFails(c)] + rest), c', k);
    }
  }

  // ---- Keys that stay refused -------------------------------------------------------------------

  /** A pending row stays, and so does its claim, unless the claim's own call completes or releases it. */
  lemma StepKeepsPending(s: State, e: Event, k: Key)
    requires Inv(s) && k in s.rows && s.rows[k].response.None?
    requires s.rows[k].id in s.calls && (s.calls[s.rows[k].id].stage.Thrown? || e.call != s.rows[k].id)
    ensures k in Next(s, e).rows && Next(s, e).rows[k] == s.rows[k]
    ensures s.rows[k].id in Next(s, e).calls && Next(s, e).calls[s.rows[k].id] == s.calls[s.rows[k].id]
  {
    assert e.call in s.calls ==> CallOk(s, e.call);
  }

  /** The claim's call takes no further step. */
  predicate Silent(events: seq<Event>, c: nat) {
    forall e :: e in events ==> e.call != c
  }

  lemma {:induction false} PendingStays(events: seq<Event>, rest: seq<Event>, c: nat, k: Key)
    requires k in Replay(events).rows && Replay(events).rows[k].response.None? && Replay(events).rows[k].id == c
    requires c in Replay(events).calls && (Replay(events).calls[c].stage.Thrown? || Silent(rest, c))
    ensures k in Replay(events + rest).rows && Replay(events + rest).rows[k] == Replay(events).rows[k]
    ensures c in Replay(events + rest).calls && Replay(events + rest).calls[c] == Replay(events).calls[c]
  {
    if rest == [] {
      assert events + rest == events;
    } else {
      var front, e := rest[..|rest| - 1], rest[|rest| - 1];
      assert e in rest && forall x :: x in front ==> x in rest;
      PendingStays(events, front, c, k);
      RunInv(events + front);
      StepKeepsPending(Replay(events + front), e, k);
      assert events + rest == (events + front) + [e];
      Push(events + front, e);
    }
  }

  /** The call runs its handler on the key, or has received a value from it. */
  predicate GetsThrough(s: State, c: nat, k: Key) {
    c in s.calls && s.calls[c].key == k && (s.calls[c].stage.Running? || s.calls[c].stage.Returned?)
  }

  /** After a call died between its claim and its completion or release, nobody else ever gets through on its key. */
  lemma DeadCallBlocksKey(events: seq<Event>, rest: seq<Event>, c: nat, c': nat, k: Key)
    requires c in Replay(events).calls && Replay(events).calls[c].key == k && Holds(Replay(events).calls[c])
    requires Silent(rest, c) && c' != c
    ensures !GetsThrough(Replay(events + rest), c', k)
  {
    RunInv(events);
    assert CallOk(Replay(events), c);
    PendingStays(events, rest, c, k);
    PendingRefuses(events + rest, c, c', k);
  }

  lemma PendingRefuses(events: seq<Event>, c: nat, c': nat, k: Key)
    requires k in Replay(events).rows && Replay(events).rows[k].response.None? && Replay(events).rows[k].id == c != c'
    ensures !GetsThrough(Replay(events), c', k)
  {
    RunInv(events);
    assert c' in Replay(events).calls ==> CallOk(Replay(events), c');
  }

  /** Nobody ever gets through on the key again. */
  ghost predicate RefusedForever(events: seq<Event>, k: Key) {
    forall rest: seq<Event>, c: nat :: !GetsThrough(Replay(events + rest), c, k)
  }

  /**
   From every reachable state in which a handler or its completion has failed: the key is refused to every call, in
   every continuation, if and only if the release fails.
   */
  lemma RefusedForeverIffNotReleased(events: seq<Event>, c: nat, k: Key, released: bool)
    requires c in Replay(events).calls && Replay(events).calls[c].key == k && Replay(events).calls[c].stage.Failed?
    ensures RefusedForever(events + [if released then Release(c) else ReleaseFails(c)], k) <==> !released
  {
    if released {
      var after := events + [Release(c)];
      ReleaseFrees(events, c, k);
      var c' := Bound(Replay(after).calls.Keys);
      var rest := RetryRuns(after, c', k, "");
      assert GetsThrough(Replay(after + rest), c', k);
    } else {
      var after := events + [ReleaseFails(c)];
      RunInv(events);
      assert CallOk(Replay(events), c);
      Push(events, ReleaseFails(c));
      forall rest: seq<Event>, c': nat ensures !GetsThrough(Replay(after + rest), c', k) {
        PendingStays(after, rest, c, k);
        if c' != c {
          PendingRefuses(after + rest, c, c', k);
        }
      }
    }
  }
}
