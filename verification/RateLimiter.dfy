/**
 The sliding-window rate limiter kept in two PostgreSQL tables, `rate_limit_hits` and
 `rate_limit_blocks`. One call of `increment` is one transaction under the advisory lock of its
 (key, throttler) pair. Times are milliseconds on one clock that never runs backwards.
 */
module RateLimiter {
  datatype Limits = Limits(ttl: nat, limit: nat, blockDuration: nat)

  datatype Answer = Answer(totalHits: nat, timeToExpire: nat, isBlocked: bool, timeToBlockExpire: nat)

  datatype Key = Key(key: string, throttlerName: string)

  /** Whole seconds, rounded up, never negative. */
  function CeilSeconds(ms: int): nat {
    if ms <= 0 then 0 else (ms + 999) / 1000
  }

  /** The rows `WHERE expires_at > now`. */
  function Alive(rows: seq<nat>, now: nat): seq<nat> {
    if rows == [] then []
    else (if rows[0] > now then [rows[0]] else []) + Alive(rows[1..], now)
  }

  /** `MIN(expires_at)`, or `default` when there is no row. */
  function Earliest(rows: seq<nat>, default: nat): nat {
    if rows == [] then default
    else
      var rest := Earliest(rows[1..], rows[0]);
      if rows[0] < rest then rows[0] else rest
  }

  // ---------------------------------------------------------------------------------------------
  // The reference: an unbounded log of the recorded calls, emptied only when a block has lapsed.
  // ---------------------------------------------------------------------------------------------

  datatype Call = Call(at: nat, expires: nat)

  /** `blockedUntil` is 0 when the pair was never blocked or its block was cleared. */
  datatype Log = Log(calls: seq<Call>, blockedUntil: nat)

  const EMPTY_LOG := Log([], 0)

  /** The recorded calls that are younger than their time to live. */
  function Live(calls: seq<Call>, now: nat): seq<Call> {
    if calls == [] then []
    else (if calls[0].expires > now then [calls[0]] else []) + Live(calls[1..], now)
  }

  function Expiries(calls: seq<Call>): (e: seq<nat>)
    ensures |e| == |calls|
  {
    seq(|calls|, i requires 0 <= i < |calls| => calls[i].expires)
  }

  /** The calls that still matter once a lapsed block has wiped the slate clean. */
  function Epoch(log: Log): seq<Call> {
    if log.blockedUntil > 0 then [] else log.calls
  }

  /** What the caller is told about the counted rows and a block of `blockMs` milliseconds. */
  function Reply(rows: seq<nat>, now: nat, isBlocked: bool, blockMs: int): Answer {
    Answer(|rows|, CeilSeconds(Earliest(rows, now) - now), isBlocked, if isBlocked then CeilSeconds(blockMs) else 0)
  }

  predicate OverLimit(log: Log, c: Limits, now: nat) {
    |Live(Epoch(log), now)| + 1 > c.limit
  }

  /** A call is refused while a block lasts, or when it is the one that starts a block. */
  predicate Refused(log: Log, c: Limits, now: nat) {
    log.blockedUntil > now || OverLimit(log, c, now)
  }

  function NextLog(log: Log, c: Limits, now: nat): Log {
    if log.blockedUntil > now then log
    else Log(Epoch(log) + [Call(now, now + c.ttl)], if OverLimit(log, c, now) then now + c.blockDuration else 0)
  }

  function AnswerTo(log: Log, c: Limits, now: nat): (r: Answer)
    ensures r.isBlocked <==> Refused(log, c, now)
  {
    if log.blockedUntil > now then Reply(Expiries(Live(log.calls, now)), now, true, log.blockedUntil - now)
    else Reply(Expiries(Live(Epoch(log), now)) + [now + c.ttl], now, OverLimit(log, c, now), c.blockDuration)
  }

  // ---------------------------------------------------------------------------------------------
  // What an answer says
  // ---------------------------------------------------------------------------------------------

  /** `t` whole seconds are the least that cover `ms` milliseconds. */
  predicate Covers(ms: int, t: nat) {
    if ms <= 0 then t == 0 else 1000 * (t - 1) < ms <= 1000 * t
  }

  lemma CeilSecondsCovers(ms: int)
    ensures Covers(ms, CeilSeconds(ms))
  {
  }

  lemma {:induction false} EarliestIsLeast(rows: seq<nat>, default: nat)
    requires rows != []
    ensures Earliest(rows, default) in rows && forall i :: 0 <= i < |rows| ==> Earliest(rows, default) <= rows[i]
  {
    if |rows| > 1 {
      EarliestIsLeast(rows[1..], rows[0]);
    }
  }

  /** `t` seconds cover the time until the first of these calls expires; without a call there is nothing to wait for. */
  ghost predicate UntilFirstExpires(calls: seq<Call>, now: nat, t: nat) {
    if calls == [] then t == 0
    else
      exists i :: 0 <= i < |calls| && Covers(calls[i].expires - now, t)
                  && forall j :: 0 <= j < |calls| ==> calls[i].expires <= calls[j].expires
  }

  /** The calls that are counted: the live ones, and this one unless a block lasts. */
  function Counted(log: Log, c: Limits, now: nat): seq<Call> {
    if log.blockedUntil > now then Live(log.calls, now) else Live(Epoch(log), now) + [Call(now, now + c.ttl)]
  }

  /** The count, whether it blocks, and the seconds until the first counted call expires and the block ends. */
  ghost predicate TellsTheLog(log: Log, c: Limits, now: nat, r: Answer) {
    && r.totalHits == (if log.blockedUntil > now then |Live(log.calls, now)| else |Live(Epoch(log), now)| + 1)
    && UntilFirstExpires(Counted(log, c, now), now, r.timeToExpire)
    && (r.isBlocked <==> log.blockedUntil > now || r.totalHits > c.limit)
    && (if log.blockedUntil > now then Covers(log.blockedUntil - now, r.timeToBlockExpire)
        else if r.isBlocked then Covers(c.blockDuration, r.timeToBlockExpire)
        else r.timeToBlockExpire == 0)
  }

  lemma FirstOfExpiries(calls: seq<Call>, now: nat)
    ensures UntilFirstExpires(calls, now, CeilSeconds(Earliest(Expiries(calls), now) - now))
  {
    if calls != [] {
      EarliestIsLeast(Expiries(calls), now);
      var i :| 0 <= i < |calls| && Expiries(calls)[i] == Earliest(Expiries(calls), now);
      forall j | 0 <= j < |calls| ensures calls[i].expires <= calls[j].expires {
        assert Expiries(calls)[j] == calls[j].expires;
      }
      CeilSecondsCovers(calls[i].expires - now);
    }
  }

  /** Every answer tells what the log has: count, time to expire, block and time to its end. */
  lemma AnswerTellsTheLog(log: Log, c: Limits, now: nat)
    ensures TellsTheLog(log, c, now, AnswerTo(log, c, now))
  {
    FirstOfExpiries(Counted(log, c, now), now);
    CeilSecondsCovers(log.blockedUntil - now);
    CeilSecondsCovers(c.blockDuration);
    if log.blockedUntil <= now {
      assert Expiries(Counted(log, c, now)) == Expiries(Live(Epoch(log), now)) + [now + c.ttl];
    }
  }

  // ---------------------------------------------------------------------------------------------
  // The two tables.
  // ---------------------------------------------------------------------------------------------

  lemma {:induction false} AliveConcat(a: seq<nat>, b: seq<nat>, now: nat)
    ensures Alive(a + b, now) == Alive(a, now) + Alive(b, now)
  {
    if a == [] {
      assert a + b == b;
    } else {
      assert (a + b)[1..] == a[1..] + b;
      AliveConcat(a[1..], b, now);
    }
  }

  lemma {:induction false} LiveConcat(a: seq<Call>, b: seq<Call>, now: nat)
    ensures Live(a + b, now) == Live(a, now) + Live(b, now)
  {
    if a == [] {
      assert a + b == b;
    } else {
      assert (a + b)[1..] == a[1..] + b;
      LiveConcat(a[1..], b, now);
    }
  }

  lemma ExpiriesConcat(a: seq<Call>, b: seq<Call>)
    ensures Expiries(a + b) == Expiries(a) + Expiries(b)
  {
  }

  lemma AliveOne(call: Call, before: nat, now: nat)
    requires before <= now
    ensures Alive(Expiries(Live([call], before)), now) == Expiries(Live([call], now)) == Alive([call.expires], now)
  {
    assert Expiries([call]) == [call.expires];
  }

  /** Sweeping at an earlier time loses nothing. */
  lemma {:induction false} AliveRows(calls: seq<Call>, before: nat, now: nat)
    requires before <= now
    ensures Alive(Expiries(Live(calls, before)), now) == Expiries(Live(calls, now))
  {
    if calls != [] {
      var first, rest := [calls[0]], calls[1..];
      assert calls == first + rest;
      LiveConcat(first, rest, before);
      LiveConcat(first, rest, now);
      ExpiriesConcat(Live(first, before), Live(rest, before));
      ExpiriesConcat(Live(first, now), Live(rest, now));
      AliveConcat(Expiries(Live(first, before)), Expiries(Live(rest, before)), now);
      AliveOne(calls[0], before, now);
      AliveRows(rest, before, now);
    }
  }

  /** The hit table holds the newest recorded call and the ones that were live when it was made. */
  ghost predicate Tied(rows: seq<nat>, calls: seq<Call>) {
    if calls == [] then rows == []
    else
      var last := calls[|calls| - 1];
      rows == Expiries(Live(calls[..|calls| - 1], last.at)) + [last.expires]
  }

  lemma TiedAlive(rows: seq<nat>, calls: seq<Call>, now: nat)
    requires Tied(rows, calls)
    requires calls != [] ==> calls[|calls| - 1].at <= now
    ensures Alive(rows, now) == Expiries(Live(calls, now))
  {
    if calls != [] {
      var front, last := calls[..|calls| - 1], calls[|calls| - 1];
      assert calls == front + [last];
      LiveConcat(front, [last], now);
      AliveConcat(Expiries(Live(front, last.at)), [last.expires], now);
      AliveRows(front, last.at, now);
      AliveOne(last, last.at, now);
      ExpiriesConcat(Live(front, now), Live([last], now));
    }
  }

  /** Rows and block of one pair agree with its log at time `clock`. */
  ghost predicate Agree(rows: seq<nat>, block: nat, log: Log, clock: nat) {
    && Tied(rows, log.calls)
    && block == log.blockedUntil
    && (log.calls != [] ==> log.calls[|log.calls| - 1].at <= clock)
  }

  /** Reading the rows of a blocked pair answers as the log does. */
  lemma BlockedAgrees(rows: seq<nat>, log: Log, clock: nat, c: Limits, now: nat)
    requires Agree(rows, log.blockedUntil, log, clock) && clock <= now < log.blockedUntil
    ensures Agree(rows, log.blockedUntil, log, now)
    ensures NextLog(log, c, now) == log
    ensures AnswerTo(log, c, now) == Reply(Alive(rows, now), now, true, log.blockedUntil - now)
    ensures AnswerTo(log, c, now).totalHits == |Alive(rows, now)| == |Live(log.calls, now)|
  {
    TiedAlive(rows, log.calls, now);
  }

  /** Sweeping (or wiping) and inserting one row keeps the agreement and answers as the log does. */
  lemma RecordedAgrees(rows: seq<nat>, log: Log, clock: nat, c: Limits, now: nat)
    requires Agree(rows, log.blockedUntil, log, clock) && clock <= now && log.blockedUntil <= now
    ensures var rows' := (if log.blockedUntil > 0 then [] else Alive(rows, now)) + [now + c.ttl];
            && Agree(rows', if |rows'| > c.limit then now + c.blockDuration else 0, NextLog(log, c, now), now)
            && AnswerTo(log, c, now) == Reply(rows', now, |rows'| > c.limit, c.blockDuration)
            && AnswerTo(log, c, now).totalHits == |rows'| == |Live(Epoch(log), now)| + 1
  {
    TiedAlive(rows, log.calls, now);
    var calls := NextLog(log, c, now).calls;
    assert calls[..|calls| - 1] == Epoch(log);
  }

  class PostgresThrottlerStorage {
    var hits: map<Key, seq<nat>>
    var blocks: map<Key, nat>
    ghost var logs: map<Key, Log>
    ghost var clock: nat

    function Hits(k: Key): seq<nat>
      reads this
    {
      if k in hits then hits[k] else []
    }

    function BlockExpiresAt(k: Key): nat
      reads this
    {
      if k in blocks then blocks[k] else 0
    }

    ghost function LogOf(k: Key): Log
      reads this
    {
      if k in logs then logs[k] else EMPTY_LOG
    }

    ghost predicate Valid()
      reads this
    {
      forall k :: Agrees(k)
    }

    /** The tables agree with the log of the pair. */
    ghost predicate Agrees(k: Key)
      reads this
    {
      Agree(Hits(k), BlockExpiresAt(k), LogOf(k), clock)
    }

    constructor ()
      ensures Valid() && clock == 0
      ensures forall k :: LogOf(k) == EMPTY_LOG
    {
      hits, blocks, logs, clock := map[], map[], map[], 0;
    }

    twostate predicate Untouched(k: Key)
      reads this
    {
      LogOf(k) == old(LogOf(k)) && Hits(k) == old(Hits(k)) && BlockExpiresAt(k) == old(BlockExpiresAt(k))
    }

    /** A pair that nothing touched still agrees at a later time. */
    twostate lemma StillAgrees(k: Key)
      requires old(Agrees(k)) && old(clock) <= clock && Untouched(k)
      ensures Agrees(k)
    {
    }

    /**
     The branch of a pair that is not blocked: delete what no longer counts (everything after a
     lapsed block, expired rows otherwise), record the call, count, and block when over the limit.
     */
    method Count(key: Key, c: Limits, now: nat, blockExpiresAt: nat) returns (r: Answer)
      requires blockExpiresAt == BlockExpiresAt(key) <= now
      modifies this`hits, this`blocks
      ensures Hits(key) == (if blockExpiresAt > 0 then [] else Alive(old(Hits(key)), now)) + [now + c.ttl]
      ensures BlockExpiresAt(key) == if |Hits(key)| > c.limit then now + c.blockDuration else 0
      ensures r == Reply(Hits(key), now, |Hits(key)| > c.limit, c.blockDuration)
      ensures forall k | k != key :: Hits(k) == old(Hits(k)) && BlockExpiresAt(k) == old(BlockExpiresAt(k))
    {
      if blockExpiresAt > 0 {
        blocks := blocks - {key};
        hits := hits - {key};
      } else {
        hits := hits[key := Alive(Hits(key), now)];
      }
      hits := hits[key := Hits(key) + [now + c.ttl]];
      var active := Hits(key);
      var isBlocked := |active| > c.limit;
      if isBlocked {
        blocks := blocks[key := now + c.blockDuration];
      }
      r := Reply(active, now, isBlocked, c.blockDuration);
    }

    /** Both branches: the rows and the block of the pair, and the answer, are those of its log after the call. */
    method Decide(key: Key, c: Limits, now: nat) returns (r: Answer)
      requires Agrees(key) && clock <= now
      modifies this`hits, this`blocks
      ensures Agree(Hits(key), BlockExpiresAt(key), NextLog(LogOf(key), c, now), now)
      ensures r == AnswerTo(LogOf(key), c, now)
      ensures forall k | k != key :: Hits(k) == old(Hits(k)) && BlockExpiresAt(k) == old(BlockExpiresAt(k))
    {
      var blockExpiresAt := BlockExpiresAt(key);
      if blockExpiresAt > now {
        BlockedAgrees(Hits(key), LogOf(key), clock, c, now);
        r := Reply(Alive(Hits(key), now), now, true, blockExpiresAt - now);
      } else {
        RecordedAgrees(Hits(key), LogOf(key), clock, c, now);
        r := Count(key, c, now, blockExpiresAt);
      }
    }

    ghost method Record(key: Key, log: Log, now: nat)
      modifies this`logs, this`clock
      ensures LogOf(key) == log && clock == now
      ensures forall k | k != key :: LogOf(k) == old(LogOf(k))
    {
      logs := logs[key := log];
      clock := now;
    }

    /** The tables, which forget expired rows, answer exactly as the log that forgets nothing. */
    method PerformIncrement(key: Key, c: Limits, now: nat) returns (r: Answer)
      requires Valid() && clock <= now
      modifies this
      ensures Valid() && clock == now
      ensures LogOf(key) == NextLog(old(LogOf(key)), c, now) && r == AnswerTo(old(LogOf(key)), c, now)
      ensures TellsTheLog(old(LogOf(key)), c, now, r)
      ensures forall k | k != key :: Untouched(k)
    {
      assert Agrees(key);
      AnswerTellsTheLog(LogOf(key), c, now);
      r := Decide(key, c, now);
      Record(key, NextLog(LogOf(key), c, now), now);
      forall k ensures Agrees(k) && (k != key ==> Untouched(k)) {
        if k != key {
          assert old(Agrees(k));
          StillAgrees(k);
        }
      }
    }
  }

  // ---------------------------------------------------------------------------------------------
  // Whole runs of one (key, throttler) pair with a fixed configuration.
  // ---------------------------------------------------------------------------------------------

  ghost predicate Monotone(nows: seq<nat>) {
    forall i, j :: 0 <= i < j < |nows| ==> nows[i] <= nows[j]
  }

  function After(c: Limits, nows: seq<nat>): Log {
    if nows == [] then EMPTY_LOG
    else NextLog(After(c, nows[..|nows| - 1]), c, nows[|nows| - 1])
  }

  /** The last call of the run is answered `isBlocked`. */
  predicate LastRefused(c: Limits, nows: seq<nat>)
    requires nows != []
  {
    Refused(After(c, nows[..|nows| - 1]), c, nows[|nows| - 1])
  }

  /** How many calls made in [from, to) were let through. */
  function Admitted(c: Limits, nows: seq<nat>, from: int, to: int): nat {
    if nows == [] then 0
    else
      var last := nows[|nows| - 1];
      Admitted(c, nows[..|nows| - 1], from, to)
      + if from <= last < to && !LastRefused(c, nows) then 1 else 0
  }

  /** How many calls were made in [from, to). */
  function Calls(nows: seq<nat>, from: int, to: int): nat {
    if nows == [] then 0
    else
      var last := nows[|nows| - 1];
      Calls(nows[..|nows| - 1], from, to) + if from <= last < to then 1 else 0
  }

  ghost predicate AtMostLimitPerWindow(c: Limits) {
    forall nows: seq<nat>, from: int, to: int ::
      Monotone(nows) && to == from + c.ttl ==> Admitted(c, nows, from, to) <= c.limit
  }

  /** Logged calls made at or after `from`. */
  function Since(calls: seq<Call>, from: int): nat {
    if calls == [] then 0
    else Since(calls[..|calls| - 1], from) + if calls[|calls| - 1].at >= from then 1 else 0
  }

  ghost predicate Timed(c: Limits, calls: seq<Call>) {
    forall i :: 0 <= i < |calls| ==> calls[i].expires == calls[i].at + c.ttl
  }

  lemma {:induction false} SinceAtMostLive(c: Limits, calls: seq<Call>, from: int, now: nat)
    requires Timed(c, calls)
    requires from + c.ttl > now
    ensures Since(calls, from) <= |Live(calls, now)|
  {
    if calls != [] {
      var front, last := calls[..|calls| - 1], calls[|calls| - 1];
      assert calls == front + [last];
      LiveConcat(front, [last], now);
      SinceAtMostLive(c, front, from, now);
    }
  }

  lemma {:induction false} NoneAfterEnd(c: Limits, nows: seq<nat>, from: int, to: int)
    requires forall i :: 0 <= i < |nows| ==> nows[i] < from
    ensures Admitted(c, nows, from, to) == 0
  {
    if nows != [] {
      NoneAfterEnd(c, nows[..|nows| - 1], from, to);
    }
  }

  /** Nothing is admitted after the call that started the current block. */
  lemma {:induction false} QuietWhileBlocked(c: Limits, nows: seq<nat>, from: int, to: int)
    requires Monotone(nows)
    requires After(c, nows).blockedUntil > 0 && from > After(c, nows).blockedUntil - c.blockDuration
    ensures Admitted(c, nows, from, to) == 0
  {
    if nows != [] {
      var front, now := nows[..|nows| - 1], nows[|nows| - 1];
      if After(c, front).blockedUntil > now {
        QuietWhileBlocked(c, front, from, to);
      } else {
        NoneAfterEnd(c, nows, from, to);
      }
    }
  }

  /** Where the last wipe cut off the older calls. */
  function Fence(c: Limits, nows: seq<nat>): int {
    if nows == [] then -(c.ttl as int)
    else
      var front, now := nows[..|nows| - 1], nows[|nows| - 1];
      if 0 < After(c, front).blockedUntil <= now then now - c.ttl else Fence(c, front)
  }

  lemma {:induction false} FenceIsPast(c: Limits, nows: seq<nat>, now: nat)
    requires Monotone(nows) && (nows != [] ==> nows[|nows| - 1] <= now)
    ensures Fence(c, nows) + c.ttl <= now
  {
    if nows != [] {
      FenceIsPast(c, nows[..|nows| - 1], now);
    }
  }

  lemma {:induction false} RunTimed(c: Limits, nows: seq<nat>)
    ensures Timed(c, After(c, nows).calls)
  {
    if nows != [] {
      RunTimed(c, nows[..|nows| - 1]);
    }
  }

  lemma SinceOneMore(calls: seq<Call>, call: Call, from: int)
    ensures Since(calls + [call], from) == Since(calls, from) + if call.at >= from then 1 else 0
  {
    assert (calls + [call])[..|calls|] == calls;
  }

  /** What every run keeps: the admitted calls that can still share a window with a future call are all in the log. */
  lemma {:induction false} RunFenced(c: Limits, nows: seq<nat>, from: int, to: int)
    requires Monotone(nows) && c.blockDuration >= c.ttl && from > Fence(c, nows)
    ensures Admitted(c, nows, from, to) <= Since(After(c, nows).calls, from)
  {
    if nows != [] {
      var front, now := nows[..|nows| - 1], nows[|nows| - 1];
      var log, call := After(c, front), Call(now, now + c.ttl);
      if 0 < log.blockedUntil <= now {
        QuietWhileBlocked(c, front, from, to);
        SinceOneMore([], call, from);
      } else {
        RunFenced(c, front, from, to);
        SinceOneMore(log.calls, call, from);
      }
    }
  }

  /** Every window of length ttl lets through at most `limit` calls, wipes included. */
  lemma {:induction false} WindowBound(c: Limits, nows: seq<nat>, from: int, to: int)
    requires Monotone(nows) && to == from + c.ttl
    requires c.limit == 0 || c.blockDuration >= c.ttl
    ensures Admitted(c, nows, from, to) <= c.limit
  {
    if nows != [] {
      var front, now := nows[..|nows| - 1], nows[|nows| - 1];
      WindowBound(c, front, from, to);
      if c.limit > 0 && from <= now < to && !LastRefused(c, nows) {
        var log := After(c, front);
        if log.blockedUntil > 0 {
          QuietWhileBlocked(c, front, from, to);
        } else {
          FenceIsPast(c, front, now);
          RunFenced(c, front, from, to);
          RunTimed(c, front);
          SinceAtMostLive(c, log.calls, from, now);
        }
      }
    }
  }

  /** Below the limit one more call passes, and is live. */
  lemma OneMorePasses(c: Limits, nows: seq<nat>, at: nat, to: int)
    requires at < to && 0 < c.ttl
    requires After(c, nows).blockedUntil == 0 && |Live(After(c, nows).calls, at)| < c.limit
    ensures After(c, nows + [at]).blockedUntil == 0
    ensures |Live(After(c, nows + [at]).calls, at)| == |Live(After(c, nows).calls, at)| + 1
    ensures Admitted(c, nows + [at], at, to) == Admitted(c, nows, at, to) + 1
  {
    LiveConcat(After(c, nows).calls, [Call(at, at + c.ttl)], at);
    assert (nows + [at])[..|nows|] == nows;
  }

  predicate AllAt(nows: seq<nat>, at: nat) {
    forall i :: 0 <= i < |nows| ==> nows[i] == at
  }

  /** The first `limit` calls in a row pass. */
  lemma {:induction false} Burst(c: Limits, at: nat, n: nat) returns (nows: seq<nat>)
    requires n <= c.limit && 0 < c.ttl
    ensures AllAt(nows, at)
    ensures After(c, nows).blockedUntil == 0 && |Live(After(c, nows).calls, at)| == n
    ensures Admitted(c, nows, at, at + c.ttl) == n
  {
    if n == 0 {
      nows := [];
    } else {
      var front := Burst(c, at, n - 1);
      OneMorePasses(c, front, at, at + c.ttl);
      nows := front + [at];
    }
  }

  /** The call after a full burst is refused and starts a block. */
  lemma BurstThenBlock(c: Limits, at: nat) returns (nows: seq<nat>)
    requires 0 < c.ttl
    ensures nows != [] && AllAt(nows, at)
    ensures LastRefused(c, nows) && After(c, nows).blockedUntil == at + c.blockDuration
    ensures Admitted(c, nows, at, at + c.ttl) == c.limit
  {
    var passing := Burst(c, at, c.limit);
    nows := passing + [at];
    assert nows[..|passing|] == passing;
  }

  /** A block shorter than the window lets a caller through again inside the same window. */
  lemma ShortBlockBreaksTheBound(c: Limits)
    requires 0 < c.limit && c.blockDuration < c.ttl
    ensures !AtMostLimitPerWindow(c)
  {
    var blocked := BurstThenBlock(c, 1);
    var nows := blocked + [1 + c.blockDuration];
    assert nows[..|blocked|] == blocked;
    assert !LastRefused(c, nows);
    assert Monotone(nows);
    assert Admitted(c, nows, 1, 1 + c.ttl) == c.limit + 1;
  }

  /** The bound holds over all runs exactly when blocks last at least as long as the window. */
  lemma WindowBoundIff(c: Limits)
    ensures AtMostLimitPerWindow(c) <==> c.limit == 0 || c.blockDuration >= c.ttl
  {
    if c.limit == 0 || c.blockDuration >= c.ttl {
      forall nows: seq<nat>, from: int, to: int | Monotone(nows) && to == from + c.ttl
        ensures Admitted(c, nows, from, to) <= c.limit
      {
        WindowBound(c, nows, from, to);
      }
    } else {
      ShortBlockBreaksTheBound(c);
    }
  }

  /** No call of the run is answered `isBlocked`. */
  predicate NeverRefused(c: Limits, nows: seq<nat>) {
    nows != [] ==> !LastRefused(c, nows) && NeverRefused(c, nows[..|nows| - 1])
  }

  /** While nothing was blocked the log holds every call, so its live part is the last window. */
  lemma {:induction false} UnblockedLog(c: Limits, nows: seq<nat>, now: nat)
    requires Monotone(nows) && (nows != [] ==> nows[|nows| - 1] <= now) && NeverRefused(c, nows)
    ensures After(c, nows).blockedUntil == 0
    ensures |Live(After(c, nows).calls, now)| == Calls(nows, now - c.ttl + 1, now + 1)
  {
    if nows != [] {
      var front, last := nows[..|nows| - 1], nows[|nows| - 1];
      UnblockedLog(c, front, now);
      LiveConcat(After(c, front).calls, [Call(last, last + c.ttl)], now);
    }
  }

  /** A caller that never makes more than `limit` calls in a window is never blocked. */
  lemma {:induction false} PatientCallerNeverBlocked(c: Limits, nows: seq<nat>)
    requires Monotone(nows) && 0 < c.ttl
    requires forall from: int, to: int :: to == from + c.ttl ==> Calls(nows, from, to) <= c.limit
    ensures NeverRefused(c, nows)
  {
    if nows != [] {
      var front, now := nows[..|nows| - 1], nows[|nows| - 1];
      assert forall from: int, to: int :: Calls(front, from, to) <= Calls(nows, from, to);
      PatientCallerNeverBlocked(c, front);
      UnblockedLog(c, front, now);
      assert Calls(nows, now - c.ttl + 1, now + 1) == Calls(front, now - c.ttl + 1, now + 1) + 1;
    }
  }

  /** To a caller that was never refused, the count is the number of its own calls in the window that ends now. */
  lemma CountIsTheWindow(c: Limits, nows: seq<nat>, now: nat)
    requires Monotone(nows) && (nows != [] ==> nows[|nows| - 1] <= now) && NeverRefused(c, nows)
    ensures AnswerTo(After(c, nows), c, now).totalHits == Calls(nows, now - c.ttl + 1, now + 1) + 1
  {
    UnblockedLog(c, nows, now);
    AnswerTellsTheLog(After(c, nows), c, now);
  }
}
