/** The dispatch table's repository and the loop of a reminder run over it, with other workers in between. */
module ReminderDispatch {
  import opened Common
  import opened Reminders

  /** The row that the upsert leaves, if its conflict clause matches. */
  method ClaimRow(rows: map<Occurrence, Row>, o: Occurrence, now: nat) returns (row: Option<Row>)
    ensures row == if Claimable(rows, o, now) then Some(ClaimedRow(rows, o, now)) else None
  {
    if o !in rows {
      return Some(Row(Claimed, 1, now));
    }
    var current := rows[o];
    if current.status != Failed || now < current.lastAttempt + RETRY_AFTER {
      return None;
    }
    return Some(Row(Claimed, current.attemptCount + 1, now));
  }

  /** Beside the rows, the attempts made by all workers are kept. */
  class ReminderRepository {
    var rows: map<Occurrence, Row>
    var attempts: seq<Attempt>
    var latest: map<Occurrence, nat>

    function Now(): State
      reads this
    {
      State(rows, attempts, latest)
    }

    /** What every run keeps: all attempts on an occurrence but the latest have failed. */
    ghost predicate Valid()
      reads this
    {
      Inv(Now())
    }

    constructor ()
      ensures Valid() && Now() == EMPTY
    {
      rows, attempts, latest := map[], [], map[];
    }

    method QuarantineStaleClaims(now: nat) returns (count: nat)
      requires Valid()
      modifies this
      ensures Valid() && Now() == Next(old(Now()), Quarantines(now))
      ensures count == |StaleClaims(old(rows), now)| && rows.Keys == old(rows).Keys
      ensures forall o :: o in rows ==>
                rows[o] == if o in StaleClaims(old(rows), now)
                           then Row(ReviewRequired, old(rows)[o].attemptCount, old(rows)[o].lastAttempt)
                           else old(rows)[o]
    {
      ghost var after := Next(Now(), Quarantines(now));
      StepInv(Now(), Quarantines(now));
      QuarantineMeans(Now(), now);
      var stale := StaleClaims(rows, now);
      rows := map o | o in rows :: if o in stale then rows[o].(status := ReviewRequired) else rows[o];
      assert rows == after.rows;
      return |stale|;
    }

    /** The row's identifier when the caller holds the claim. */
    method Claim(candidate: Occurrence, now: nat) returns (dispatch: Option<Occurrence>)
      requires Valid()
      modifies this
      ensures Valid() && Now() == Next(old(Now()), Claims(candidate, now))
      ensures dispatch == if Free(old(rows), candidate, now) then Some(candidate) else None
    {
      StepInv(Now(), Claims(candidate, now));
      var row := ClaimRow(rows, candidate, now);
      if row.None? {
        return None;
      }
      rows := rows[candidate := row.value];
      latest := latest[candidate := |attempts|];
      attempts := attempts + [Attempt(candidate, now, InFlight)];
      return Some(candidate);
    }

    /** The outside world: the provider answers, other workers claim, mark and quarantine. */
    method Elsewhere(events: seq<Event>)
      requires Valid()
      modifies this
      ensures Valid() && Now() == Replay(old(Now()), events)
    {
      RunInv(Now(), events);
      var s := Replay(Now(), events);
      rows, attempts, latest := s.rows, s.attempts, s.latest;
    }

    predicate Holds(dispatch: Occurrence, attempt: nat, phase: Phase)
      reads this
    {
      attempt < |attempts| && attempts[attempt].occurrence == dispatch && attempts[attempt].phase == phase
    }

    method MarkSent(dispatch: Occurrence, attempt: nat)
      requires Valid() && dispatch in rows && Holds(dispatch, attempt, Answered(true))
      modifies this
      ensures Valid() && Now() == Next(old(Now()), Marks(attempt))
      ensures rows == old(rows)[dispatch := old(rows)[dispatch].(status := Sent)]
    {
      StepInv(Now(), Marks(attempt));
      rows := rows[dispatch := rows[dispatch].(status := Sent)];
      attempts := attempts[attempt := attempts[attempt].(phase := Marked(true))];
    }

    method MarkFailed(dispatch: Occurrence, attempt: nat)
      requires Valid() && dispatch in rows && Holds(dispatch, attempt, Answered(false))
      modifies this
      ensures Valid() && Now() == Next(old(Now()), Marks(attempt))
      ensures rows == old(rows)[dispatch := old(rows)[dispatch].(status := Failed)]
    {
      StepInv(Now(), Marks(attempt));
      rows := rows[dispatch := rows[dispatch].(status := Failed)];
      attempts := attempts[attempt := attempts[attempt].(phase := Marked(false))];
    }
  }

  datatype Summary = Summary(
    discovered: nat, claimed: nat, sent: nat, failed: nat, deduplicated: nat, reviewRequired: nat)

  /**
   A candidate, when its claim is made, and what the provider answers (None if the send never returns); and what others
   do before the claim, during the send, and between the answer and the mark.
   */
  datatype Turn = Turn(
    candidate: Occurrence, at: nat, answer: Option<bool>, before: seq<Event>, during: seq<Event>, after: seq<Event>)

  /** Those of the run's own attempts that are marked. */
  function CountMarked(attempts: seq<Attempt>, own: seq<nat>, sent: bool): nat
    requires forall k :: 0 <= k < |own| ==> own[k] < |attempts|
  {
    if own == [] then 0
    else
      CountMarked(attempts, own[..|own| - 1], sent) + if attempts[own[|own| - 1]].phase == Marked(sent) then 1 else 0
  }

  predicate AllMarked(attempts: seq<Attempt>, own: seq<nat>) {
    forall k :: 0 <= k < |own| ==> own[k] < |attempts| && attempts[own[k]].phase.Marked?
  }

  predicate Increasing(own: seq<nat>) {
    forall j, k :: 0 <= j < k < |own| ==> own[j] < own[k]
  }

  lemma {:induction false} CountStays(before: State, after: State, own: seq<nat>, sent: bool)
    requires Grows(before, after) && AllMarked(before.attempts, own)
    ensures AllMarked(after.attempts, own)
    ensures CountMarked(after.attempts, own, sent) == CountMarked(before.attempts, own, sent)
  {
    if own != [] {
      CountStays(before, after, own[..|own| - 1], sent);
    }
  }

  lemma OneEvent(s: State, e: Event)
    ensures Replay(s, [e]) == Next(s, e)
  {
    assert [e][..0] == [];
  }

  lemma EventGrows(s: State, e: Event)
    ensures Grows(s, Next(s, e))
  {
    OneEvent(s, e);
    RunGrows(s, [e]);
  }

  lemma GrowsTransitive(a: State, b: State, c: State)
    requires Grows(a, b) && Grows(b, c)
    ensures Grows(a, c)
  {
  }

  class ReminderService {
    const reminders: ReminderRepository

    constructor (reminders: ReminderRepository)
      ensures this.reminders == reminders
    {
      this.reminders := reminders;
    }

    /** Others go on while the attempt is ours. */
    method Meanwhile(events: seq<Event>, attempt: nat)
      requires reminders.Valid() && attempt < |reminders.attempts|
      modifies reminders
      ensures reminders.Valid() && Grows(old(reminders.Now()), reminders.Now())
      ensures attempt < |reminders.attempts| && reminders.attempts[attempt] == old(reminders.attempts[attempt])
    {
      var others := OfOthers(events, attempt);
      OthersLeaveAlone(reminders.Now(), others, attempt);
      RunGrows(reminders.Now(), others);
      reminders.Elsewhere(others);
    }

    /** The send returns. */
    method Receive(attempt: nat, sent: bool)
      requires reminders.Valid()
      requires attempt < |reminders.attempts| && reminders.attempts[attempt].phase == InFlight
      modifies reminders
      ensures reminders.Valid() && Grows(old(reminders.Now()), reminders.Now())
      ensures attempt < |reminders.attempts|
      ensures reminders.attempts[attempt] == old(reminders.attempts[attempt]).(phase := Answered(sent))
    {
      OneEvent(reminders.Now(), Answers(attempt, sent));
      RunGrows(reminders.Now(), [Answers(attempt, sent)]);
      reminders.Elsewhere([Answers(attempt, sent)]);
    }

    method Mark(dispatch: Occurrence, attempt: nat, sent: bool)
      requires reminders.Valid() && dispatch in reminders.rows && reminders.Holds(dispatch, attempt, Answered(sent))
      modifies reminders
      ensures reminders.Valid() && Grows(old(reminders.Now()), reminders.Now())
      ensures reminders.Holds(dispatch, attempt, Marked(sent))
    {
      EventGrows(reminders.Now(), Marks(attempt));
      if sent {
        reminders.MarkSent(dispatch, attempt);
      } else {
        reminders.MarkFailed(dispatch, attempt);
      }
    }

    /** The send and the mark of a claimed attempt, while others go on. */
    method Deliver(turn: Turn, attempt: nat)
      requires reminders.Valid() && turn.answer.Some? && turn.candidate in reminders.rows
      requires reminders.Holds(turn.candidate, attempt, InFlight)
      modifies reminders
      ensures reminders.Valid() && Grows(old(reminders.Now()), reminders.Now())
      ensures reminders.Holds(turn.candidate, attempt, Marked(turn.answer.value))
    {
      Meanwhile(turn.during, attempt);
      ghost var sending := reminders.Now();
      Receive(attempt, turn.answer.value);
      GrowsTransitive(old(reminders.Now()), sending, reminders.Now());
      ghost var received := reminders.Now();
      Meanwhile(turn.after, attempt);
      GrowsTransitive(old(reminders.Now()), received, reminders.Now());
      ghost var later := reminders.Now();
      Mark(turn.candidate, attempt, turn.answer.value);
      GrowsTransitive(old(reminders.Now()), later, reminders.Now());
    }

    /** One turn: the counters it adds to and its own attempt; no counters when the send never returns. */
    method Dispatch(turn: Turn, summary: Summary) returns (next: Option<Summary>, own: Option<nat>)
      requires reminders.Valid()
      modifies reminders
      ensures reminders.Valid() && Grows(old(reminders.Now()), reminders.Now())
      ensures own.Some? <==> Free(Replay(old(reminders.Now()), turn.before).rows, turn.candidate, turn.at)
      ensures next.None? <==> own.Some? && turn.answer.None?
      ensures next.Some? && own.None? ==> next.value == summary.(deduplicated := summary.deduplicated + 1)
      ensures own.Some? && next.Some? ==>
                && own.value >= |old(reminders.attempts)|
                && reminders.Holds(turn.candidate, own.value, Marked(turn.answer.value))
                && next.value == (if turn.answer.value
                                  then summary.(claimed := summary.claimed + 1, sent := summary.sent + 1)
                                  else summary.(claimed := summary.claimed + 1, failed := summary.failed + 1))
    {
      RunGrows(reminders.Now(), turn.before);
      reminders.Elsewhere(turn.before);
      EventGrows(reminders.Now(), Claims(turn.candidate, turn.at));
      var attempt := |reminders.attempts|;
      var dispatch := reminders.Claim(turn.candidate, turn.at);
      if dispatch.None? {
        return Some(summary.(deduplicated := summary.deduplicated + 1)), None;
      }
      if turn.answer.None? {
        return None, Some(attempt);
      }
      Deliver(turn, attempt);
      if turn.answer.value {
        next := Some(summary.(claimed := summary.claimed + 1, sent := summary.sent + 1));
      } else {
        next := Some(summary.(claimed := summary.claimed + 1, failed := summary.failed + 1));
      }
      own := Some(attempt);
    }

    /**
     Whatever other workers do in between, a run that completes has sent, failed or deduplicated every candidate it
     discovered, and its counters are those of the attempts it made itself.
     */
    method RunForDate(now: nat, turns: seq<Turn>) returns (summary: Option<Summary>, own: seq<nat>)
      requires reminders.Valid()
      modifies reminders
      ensures reminders.Valid() && Grows(old(reminders.Now()), reminders.Now())
      ensures summary.Some? ==>
                var s := summary.value;
                && s.discovered == |turns| == s.sent + s.failed + s.deduplicated
                && AllMarked(reminders.attempts, own) && Increasing(own)
                && s.claimed == s.sent + s.failed == |own|
                && s.sent == CountMarked(reminders.attempts, own, true)
                && s.failed == CountMarked(reminders.attempts, own, false)
                && s.reviewRequired == |StaleClaims(old(reminders.rows), now)|
    {
      ghost var start := reminders.Now();
      EventGrows(start, Quarantines(now));
      var reviewRequired := reminders.QuarantineStaleClaims(now);
      var s := Summary(|turns|, 0, 0, 0, 0, reviewRequired);
      own := [];
      for i := 0 to |turns|
        invariant reminders.Valid() && Grows(start, reminders.Now())
        invariant s.discovered == |turns| && s.reviewRequired == reviewRequired
        invariant s.sent + s.failed + s.deduplicated == i
        invariant AllMarked(reminders.attempts, own) && Increasing(own)
        invariant s.claimed == s.sent + s.failed == |own|
        invariant s.sent == CountMarked(reminders.attempts, own, true)
        invariant s.failed == CountMarked(reminders.attempts, own, false)
      {
        ghost var before := reminders.Now();
        var next, attempt := Dispatch(turns[i], s);
        CountStays(before, reminders.Now(), own, true);
        CountStays(before, reminders.Now(), own, false);
        if next.None? {
          return None, own;
        }
        s := next.value;
        if attempt.Some? {
          var more := own + [attempt.value];
          assert more[..|own|] == own;
          own := more;
        }
      }
      summary := Some(s);
    }
  }
}
