/**
 Dispatch of reminders over an external channel that may never answer: claims, crashes, quarantine, late marks
 and retries of one occurrence, that is, one (rule, user, context, date).
 */
module Reminders {
  type Occurrence = nat

  datatype Status = Claimed | Sent | Failed | ReviewRequired

  datatype Row = Row(status: Status, attemptCount: nat, lastAttempt: nat)

  /** A worker that dies leaves its attempt as it is. */
  datatype Phase = InFlight | Answered(sent: bool) | Marked(sent: bool)

  datatype Attempt = Attempt(occurrence: Occurrence, at: nat, phase: Phase)

  /** The rows, and beside them every attempt ever claimed and the latest one of each occurrence. */
  datatype State = State(rows: map<Occurrence, Row>, attempts: seq<Attempt>, latest: map<Occurrence, nat>)

  const EMPTY := State(map[], [], map[])

  /** Seconds. */
  const RETRY_AFTER := 3600
  const STALE_AFTER := 900

  predicate Claimable(rows: map<Occurrence, Row>, o: Occurrence, now: nat) {
    o !in rows || (rows[o].status == Failed && rows[o].lastAttempt + RETRY_AFTER <= now)
  }

  predicate Stale(row: Row, now: nat) {
    row.status == Claimed && row.lastAttempt + STALE_AFTER <= now
  }

  function ClaimedRow(rows: map<Occurrence, Row>, o: Occurrence, now: nat): Row {
    Row(Claimed, 1 + if o in rows then rows[o].attemptCount else 0, now)
  }

  function Quarantined(row: Row, now: nat): Row {
    if Stale(row, now) then row.(status := ReviewRequired) else row
  }

  datatype Event =
    | Quarantines(now: nat)
    | Claims(occurrence: Occurrence, now: nat)
    | Answers(attempt: nat, sent: bool)
    | Marks(attempt: nat)

  function Next(s: State, e: Event): State {
    match e
    case Quarantines(now) => s.(rows := map o | o in s.rows :: Quarantined(s.rows[o], now))
    case Claims(o, now) =>
      if !Claimable(s.rows, o, now) then s
      else
        State(
          s.rows[o := ClaimedRow(s.rows, o, now)],
          s.attempts + [Attempt(o, now, InFlight)],
          s.latest[o := |s.attempts|])
    case Answers(i, sent) =>
      if i < |s.attempts| && s.attempts[i].phase == InFlight
      then s.(attempts := s.attempts[i := s.attempts[i].(phase := Answered(sent))])
      else s
    case Marks(i) =>
      if i < |s.attempts| && s.attempts[i].phase.Answered? && s.attempts[i].occurrence in s.rows then
        var a := s.attempts[i];
        var row := s.rows[a.occurrence].(status := if a.phase.sent then Sent else Failed);
        s.(rows := s.rows[a.occurrence := row], attempts := s.attempts[i := a.(phase := Marked(a.phase.sent))])
      else s
  }

  function Replay(s: State, events: seq<Event>): State {
    if events == [] then s else Next(Replay(s, events[..|events| - 1]), events[|events| - 1])
  }

  // ---- What every run keeps ---------------------------------------------------------------------

  predicate Fits(status: Status, phase: Phase) {
    match phase
    case Marked(sent) => status == if sent then Sent else Failed
    case _ => status in {Claimed, ReviewRequired}
  }

  function CountOf(attempts: seq<Attempt>, o: Occurrence): nat {
    if attempts == [] then 0
    else CountOf(attempts[..|attempts| - 1], o) + if attempts[|attempts| - 1].occurrence == o then 1 else 0
  }

  /** The row tells the phase of the latest attempt. */
  predicate RowAgrees(s: State, o: Occurrence)
    requires o in s.rows
  {
    && o in s.latest && s.latest[o] < |s.attempts|
    && var a := s.attempts[s.latest[o]];
       a.occurrence == o && s.rows[o].lastAttempt == a.at && Fits(s.rows[o].status, a.phase)
  }

  /** Every attempt but the latest was marked failed, at least an hour before the next. */
  predicate EarlierFailed(s: State, i: nat)
    requires i < |s.attempts|
  {
    var a := s.attempts[i];
    && a.occurrence in s.rows && a.occurrence in s.latest && i <= s.latest[a.occurrence]
    && (i != s.latest[a.occurrence] ==> a.phase == Marked(false))
  }

  predicate Spaced(attempts: seq<Attempt>) {
    forall i, j :: 0 <= i < j < |attempts| && attempts[i].occurrence == attempts[j].occurrence ==>
      attempts[i].at + RETRY_AFTER <= attempts[j].at
  }

  predicate Inv(s: State) {
    && (forall o :: o in s.rows ==> RowAgrees(s, o) && s.rows[o].attemptCount == CountOf(s.attempts, o))
    && (forall i :: 0 <= i < |s.attempts| ==> EarlierFailed(s, i))
    && Spaced(s.attempts)
  }

  lemma {:induction false} CountOfUpdate(attempts: seq<Attempt>, i: nat, phase: Phase, o: Occurrence)
    requires i < |attempts|
    ensures CountOf(attempts[i := attempts[i].(phase := phase)], o) == CountOf(attempts, o)
  {
    var n := |attempts| - 1;
    var updated := attempts[i := attempts[i].(phase := phase)];
    if i < n {
      CountOfUpdate(attempts[..n], i, phase, o);
      assert updated[..n] == attempts[..n][i := attempts[i].(phase := phase)];
    } else {
      assert updated[..n] == attempts[..n];
    }
  }

  lemma {:induction false} CountOfNone(attempts: seq<Attempt>, o: Occurrence)
    requires forall i :: 0 <= i < |attempts| ==> attempts[i].occurrence != o
    ensures CountOf(attempts, o) == 0
  {
    if attempts != [] {
      CountOfNone(attempts[..|attempts| - 1], o);
    }
  }

  lemma ClaimInv(s: State, o: Occurrence, now: nat)
    requires Inv(s) && Claimable(s.rows, o, now)
    ensures Inv(Next(s, Claims(o, now)))
  {
    var after := Next(s, Claims(o, now));
    assert after.attempts[..|s.attempts|] == s.attempts;
    forall k | k in after.rows ensures RowAgrees(after, k) && after.rows[k].attemptCount == CountOf(after.attempts, k) {
      if k == o && o !in s.rows {
        forall i | 0 <= i < |s.attempts| ensures s.attempts[i].occurrence != o {
          assert EarlierFailed(s, i);
        }
        CountOfNone(s.attempts, o);
      } else {
        assert RowAgrees(s, k);
      }
    }
    forall i | 0 <= i < |after.attempts| ensures EarlierFailed(after, i) {
      if i < |s.attempts| {
        assert EarlierFailed(s, i);
      }
    }
    forall i | 0 <= i < |s.attempts| && s.attempts[i].occurrence == o ensures s.attempts[i].at + RETRY_AFTER <= now {
      assert EarlierFailed(s, i) && RowAgrees(s, o);
    }
  }

  /** Attempt `i` in a new phase, and its row in a new status. */
  function Moved(s: State, i: nat, phase: Phase, status: Status): State
    requires i < |s.attempts| && s.attempts[i].occurrence in s.rows
  {
    var o := s.attempts[i].occurrence;
    s.(rows := s.rows[o := s.rows[o].(status := status)],
       attempts := s.attempts[i := s.attempts[i].(phase := phase)])
  }

  /** An answer or a mark concerns the latest attempt of its occurrence: all others are marked already. */
  lemma PhaseInv(s: State, i: nat, phase: Phase, status: Status)
    requires Inv(s) && i < |s.attempts| && !s.attempts[i].phase.Marked? && Fits(status, phase)
    ensures var o := s.attempts[i].occurrence;
            o in s.rows
            && Inv(Moved(s, i, phase, status))
  {
    var o := s.attempts[i].occurrence;
    assert EarlierFailed(s, i);
    var after := Moved(s, i, phase, status);
    forall k | k in after.rows ensures RowAgrees(after, k) && after.rows[k].attemptCount == CountOf(after.attempts, k) {
      assert RowAgrees(s, k);
      CountOfUpdate(s.attempts, i, phase, k);
    }
    forall j | 0 <= j < |after.attempts| ensures EarlierFailed(after, j) {
      assert EarlierFailed(s, j);
    }
  }

  lemma QuarantineInv(s: State, now: nat)
    requires Inv(s)
    ensures Inv(Next(s, Quarantines(now)))
  {
    var after := Next(s, Quarantines(now));
    forall k | k in after.rows ensures RowAgrees(after, k) {
      assert RowAgrees(s, k);
    }
    forall j | 0 <= j < |after.attempts| ensures EarlierFailed(after, j) {
      assert EarlierFailed(s, j);
    }
  }

  lemma StepInv(s: State, e: Event)
    requires Inv(s)
    ensures Inv(Next(s, e))
  {
    match e
    case Quarantines(now) => QuarantineInv(s, now);
    case Claims(o, now) =>
      if Claimable(s.rows, o, now) {
        ClaimInv(s, o, now);
      }
    case Answers(i, sent) =>
      if i < |s.attempts| && s.attempts[i].phase == InFlight {
        var o := s.attempts[i].occurrence;
        assert EarlierFailed(s, i) && RowAgrees(s, o);
        PhaseInv(s, i, Answered(sent), s.rows[o].status);
        assert s.rows[o := s.rows[o]] == s.rows;
      }
    case Marks(i) =>
      if i < |s.attempts| && s.attempts[i].phase.Answered? {
        PhaseInv(s, i, Marked(s.attempts[i].phase.sent), if s.attempts[i].phase.sent then Sent else Failed);
      }
  }

  lemma {:induction false} RunInv(s: State, events: seq<Event>)
    requires Inv(s)
    ensures Inv(Replay(s, events))
  {
    if events != [] {
      RunInv(s, events[..|events| - 1]);
      StepInv(Replay(s, events[..|events| - 1]), events[|events| - 1]);
    }
  }

  /** The provider said it was sent, or nobody knows and nobody will retry it. */
  predicate MayHaveBeenSent(a: Attempt) {
    a.phase != Marked(false)
  }

  /**
   Whatever the overlapping runs, crashes and late marks, an occurrence has at most one attempt that is in flight,
   abandoned or reported sent; attempts on it are at least an hour apart and the row counts them.
   */
  lemma AtMostOnce(events: seq<Event>, i: nat, j: nat)
    requires i < j < |Replay(EMPTY, events).attempts|
    requires Replay(EMPTY, events).attempts[i].occurrence == Replay(EMPTY, events).attempts[j].occurrence
    ensures var attempts := Replay(EMPTY, events).attempts;
            && !MayHaveBeenSent(attempts[i])
            && attempts[i].at + 60 * 60 <= attempts[j].at
  {
    RunInv(EMPTY, events);
    var s := Replay(EMPTY, events);
    assert EarlierFailed(s, i) && EarlierFailed(s, j);
  }

  /** A row says SENT only when an attempt on it was reported sent, and the count of attempts is right. */
  lemma RowsTellTheTruth(events: seq<Event>, o: Occurrence)
    requires o in Replay(EMPTY, events).rows
    ensures var s := Replay(EMPTY, events);
            && s.rows[o].attemptCount == CountOf(s.attempts, o)
            && (s.rows[o].status == Sent <==>
                  exists i ::
                    0 <= i < |s.attempts| && s.attempts[i].occurrence == o && s.attempts[i].phase == Marked(true))
  {
    RunInv(EMPTY, events);
    var s := Replay(EMPTY, events);
    assert RowAgrees(s, o);
    forall i | 0 <= i < |s.attempts| && s.attempts[i].occurrence == o && s.attempts[i].phase == Marked(true)
      ensures s.rows[o].status == Sent
    {
      assert EarlierFailed(s, i);
    }
  }

  // ---- What each statement does, in seconds -------------------------------------------------------

  /** The claims older than a quarter of an hour. */
  function StaleClaims(rows: map<Occurrence, Row>, now: nat): set<Occurrence> {
    set o | o in rows && rows[o].status == Claimed && rows[o].lastAttempt + 15 * 60 <= now
  }

  /** A claim older than a quarter of an hour goes to review; every other row, and every attempt, is as it was. */
  lemma QuarantineMeans(s: State, now: nat)
    ensures var after := Next(s, Quarantines(now));
            && after.rows.Keys == s.rows.Keys && after.attempts == s.attempts && after.latest == s.latest
            && forall o :: o in s.rows ==>
                 after.rows[o] == if o in StaleClaims(s.rows, now)
                                  then Row(ReviewRequired, s.rows[o].attemptCount, s.rows[o].lastAttempt)
                                  else s.rows[o]
  {
  }

  /** Nobody has claimed it, or its last attempt failed an hour ago or more. */
  predicate Free(rows: map<Occurrence, Row>, o: Occurrence, now: nat) {
    o !in rows || (rows[o].status == Failed && rows[o].lastAttempt + 60 * 60 <= now)
  }

  /** A claim on a free occurrence makes one more attempt, in flight from now on; any other changes nothing. */
  lemma ClaimMeans(s: State, o: Occurrence, now: nat)
    ensures var after := Next(s, Claims(o, now));
            if Free(s.rows, o, now) then
              && o in after.rows && after.rows == s.rows[o := after.rows[o]]
              && after.rows[o].status == Claimed && after.rows[o].lastAttempt == now
              && after.rows[o].attemptCount == (if o in s.rows then s.rows[o].attemptCount else 0) + 1
              && after.attempts == s.attempts + [Attempt(o, now, InFlight)]
              && after.latest == s.latest[o := |s.attempts|]
            else after == s
  {
  }

  /** A claimed row that nobody marks is never claimed again: it waits for review, whatever time passes. */
  lemma UnmarkedIsNeverRetried(s: State, o: Occurrence, now: nat)
    requires o in s.rows && s.rows[o].status in {Claimed, ReviewRequired, Sent}
    ensures Next(s, Claims(o, now)) == s
  {
  }

  // ---- What other workers leave alone -----------------------------------------------------------

  /** Rows stay, attempts are only added, and a marked attempt never changes. */
  predicate Grows(before: State, after: State) {
    && before.rows.Keys <= after.rows.Keys
    && |before.attempts| <= |after.attempts|
    && forall i :: 0 <= i < |before.attempts| && before.attempts[i].phase.Marked? ==>
         after.attempts[i] == before.attempts[i]
  }

  lemma {:induction false} RunGrows(s: State, events: seq<Event>)
    ensures Grows(s, Replay(s, events))
  {
    if events != [] {
      RunGrows(s, events[..|events| - 1]);
    }
  }

  /** The event is not an answer to attempt `i`, nor its mark. */
  predicate Avoids(e: Event, i: nat) {
    e.Answers? || e.Marks? ==> e.attempt != i
  }

  /** What the other workers do, when attempt `i` is ours. */
  function OfOthers(events: seq<Event>, i: nat): (r: seq<Event>)
    ensures forall k :: 0 <= k < |r| ==> Avoids(r[k], i)
  {
    if events == [] then []
    else
      OfOthers(events[..|events| - 1], i) + if Avoids(events[|events| - 1], i) then [events[|events| - 1]] else []
  }

  lemma {:induction false} OthersLeaveAlone(s: State, events: seq<Event>, i: nat)
    requires i < |s.attempts| && forall k :: 0 <= k < |events| ==> Avoids(events[k], i)
    ensures i < |Replay(s, events).attempts| && Replay(s, events).attempts[i] == s.attempts[i]
  {
    if events != [] {
      OthersLeaveAlone(s, events[..|events| - 1], i);
    }
  }
}
