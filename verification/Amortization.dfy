/**
 The amortization schedule: equal capital parts rounded to the cent, a capped last part, and interest on
 the capital still outstanding. Amounts are cents, rates ten-thousandths of a percent per year.
 */
module Amortization {
  import opened Calendar
  import opened Common
  import opened Rounding

  datatype Installment = Installment(number: nat, dueDate: string, capitalDue: int, interestDue: int, totalDue: int)

  datatype Refusal = InvalidDate | AmountNotPositive | RateOutOfRange | DurationOutOfRange

  const MAX_RATE := 100_0000

  /** Twelve months of a rate of 100 %. */
  const RATE_UNITS := 12 * MAX_RATE

  function Regular(principal: int, duration: int): int
    requires duration > 0
  {
    RoundHalfUp(principal, duration)
  }

  /** The capital outstanding before instalment `k`, counted from 0. */
  function Balance(principal: int, duration: int, k: int): (b: int)
    requires duration > 0
    ensures b >= 0
  {
    var b := principal - k * Regular(principal, duration);
    if b >= 0 then b else 0
  }

  function CapitalDue(principal: int, duration: int, k: int): int
    requires duration > 0
  {
    var balance := Balance(principal, duration, k);
    if k == duration - 1 then balance else Min(Regular(principal, duration), balance)
  }

  function InterestDue(balance: int, rate: int): int {
    RoundHalfUp(balance * rate, RATE_UNITS)
  }

  /** Line `k`, counted from 0, for these two parts. */
  function Line(dueDate: string, k: nat, capitalDue: int, interestDue: int): Installment {
    Installment(k + 1, dueDate, capitalDue, interestDue, RoundHalfUp(capitalDue + interestDue, 1))
  }

  function Row(principal: int, rate: int, duration: int, dates: seq<string>, k: nat): Installment
    requires k < duration == |dates|
  {
    Line(dates[k], k, CapitalDue(principal, duration, k), InterestDue(Balance(principal, duration, k), rate))
  }

  /** The first `count` lines. */
  function Rows(principal: int, rate: int, duration: int, dates: seq<string>, count: nat): (rows: seq<Installment>)
    requires 0 < duration == |dates| && count <= duration
    ensures |rows| == count
  {
    if count == 0 then []
    else Rows(principal, rate, duration, dates, count - 1) + [Row(principal, rate, duration, dates, count - 1)]
  }

  /** The date of line `k`, and its text. */
  function Due(start: Date, k: int): (d: Date)
    ensures ValidDate(d)
  {
    AddMonths(start, k + 1)
  }

  function DueDate(start: Date, k: int): string {
    IsoDay(Due(start, k))
  }

  function DueDates(start: Date, duration: nat): (dates: seq<string>)
    ensures |dates| == duration
  {
    seq(duration, k => DueDate(start, k))
  }

  function Schedule(principal: int, rate: int, duration: int, startDate: string): Result<seq<Installment>, Refusal> {
    var start := ParseIsoDate(startDate);
    if start.None? then Err(InvalidDate)
    else if principal <= 0 then Err(AmountNotPositive)
    else if rate < 0 || rate > MAX_RATE then Err(RateOutOfRange)
    else if duration < 1 || duration > 120 then Err(DurationOutOfRange)
    else Ok(Rows(principal, rate, duration, DueDates(start.value, duration), duration))
  }

  lemma WholeCents(amount: int)
    ensures RoundHalfUp(amount, 1) == amount
  {
    RoundUnique(amount, 1, amount);
  }

  lemma RegularNotNegative(principal: int, duration: int)
    requires principal >= 0 && duration > 0
    ensures Regular(principal, duration) >= 0
  {
    RoundUnique(0, duration, 0);
    RoundMonotone(0, principal, duration);
  }

  /** An instalment takes its capital off the balance; the last one leaves nothing. */
  lemma BalanceAfter(principal: int, duration: int, k: nat, next: nat)
    requires principal >= 0 && k < duration && next == k + 1
    ensures 0 <= CapitalDue(principal, duration, k) <= Balance(principal, duration, k)
    ensures Balance(principal, duration, k) - CapitalDue(principal, duration, k)
            == if next == duration then 0 else Balance(principal, duration, next)
  {
    var r := Regular(principal, duration);
    RegularNotNegative(principal, duration);
    assert next * r == k * r + r;
  }

  lemma {:induction false} RowAt(principal: int, rate: int, duration: int, dates: seq<string>, count: nat, k: nat)
    requires k < count <= duration == |dates|
    ensures Rows(principal, rate, duration, dates, count)[k] == Row(principal, rate, duration, dates, k)
  {
    if k < count - 1 {
      RowAt(principal, rate, duration, dates, count - 1, k);
    }
  }

  /** The money of one turn of the loop that reassigns `outstanding`. */
  method NextInstallment(principal: int, rate: int, duration: int, index: nat, outstanding: int)
    returns (capitalDue: int, interestDue: int, remaining: int)
    requires principal > 0 && index < duration && outstanding == Balance(principal, duration, index)
    ensures capitalDue == CapitalDue(principal, duration, index)
    ensures interestDue == InterestDue(Balance(principal, duration, index), rate)
    ensures remaining == if index + 1 == duration then 0 else Balance(principal, duration, index + 1)
  {
    BalanceAfter(principal, duration, index, index + 1);
    WholeCents(outstanding);
    var regularCapital := RoundHalfUp(principal, duration);
    var rounded := RoundHalfUp(outstanding, 1);
    capitalDue := if index == duration - 1 then rounded else Min(regularCapital, rounded);
    interestDue := RoundHalfUp(outstanding * rate, RATE_UNITS);
    remaining := outstanding - capitalDue;
    WholeCents(remaining);
    remaining := RoundHalfUp(remaining, 1);
  }

  // ---- What a schedule adds up to ---------------------------------------------------------------

  function TotalCapital(rows: seq<Installment>): int {
    if rows == [] then 0 else TotalCapital(rows[..|rows| - 1]) + rows[|rows| - 1].capitalDue
  }

  function TotalInterest(rows: seq<Installment>): int {
    if rows == [] then 0 else TotalInterest(rows[..|rows| - 1]) + rows[|rows| - 1].interestDue
  }

  function TotalDue(rows: seq<Installment>): int {
    if rows == [] then 0 else TotalDue(rows[..|rows| - 1]) + rows[|rows| - 1].totalDue
  }

  function TotalBalance(principal: int, duration: int, n: nat): int
    requires duration > 0
  {
    if n == 0 then 0 else TotalBalance(principal, duration, n - 1) + Balance(principal, duration, n - 1)
  }

  lemma CapitalOneMore(principal: int, rate: int, duration: int, dates: seq<string>, n: nat)
    requires 0 < n <= duration == |dates|
    ensures TotalCapital(Rows(principal, rate, duration, dates, n))
            == TotalCapital(Rows(principal, rate, duration, dates, n - 1)) + CapitalDue(principal, duration, n - 1)
  {
    assert Rows(principal, rate, duration, dates, n)[..n - 1] == Rows(principal, rate, duration, dates, n - 1);
  }

  lemma {:induction false} CapitalPaidSoFar(principal: int, rate: int, duration: int, dates: seq<string>, n: nat)
    requires principal >= 0 && n <= duration == |dates| && duration > 0
    ensures TotalCapital(Rows(principal, rate, duration, dates, n))
            == principal - if n == duration then 0 else Balance(principal, duration, n)
  {
    if n > 0 {
      CapitalPaidSoFar(principal, rate, duration, dates, n - 1);
      BalanceAfter(principal, duration, n - 1, n);
      CapitalOneMore(principal, rate, duration, dates, n);
    }
  }

  lemma InterestInOrder(low: int, high: int, rate: int)
    requires low <= high && rate >= 0
    ensures InterestDue(low, rate) <= InterestDue(high, rate)
  {
    ProductsInOrder(low, high, rate);
    RoundMonotone(low * rate, high * rate, RATE_UNITS);
  }

  lemma ProductsInOrder(low: int, high: int, rate: int)
    requires low <= high && rate >= 0
    ensures low * rate <= high * rate
  {
    assert high * rate - low * rate == (high - low) * rate;
  }

  /** Capital parts are never negative and add up to the principal to the cent. */
  lemma CapitalSumsToPrincipal(principal: int, rate: int, duration: int, dates: seq<string>)
    requires principal >= 0 && rate >= 0 && duration == |dates| && duration > 0
    ensures var rows := Rows(principal, rate, duration, dates, duration);
            && TotalCapital(rows) == principal
            && forall k :: 0 <= k < duration ==> rows[k].capitalDue >= 0 && rows[k].interestDue >= 0
  {
    var rows := Rows(principal, rate, duration, dates, duration);
    CapitalPaidSoFar(principal, rate, duration, dates, duration);
    forall k | 0 <= k < duration ensures rows[k].capitalDue >= 0 && rows[k].interestDue >= 0 {
      RowAt(principal, rate, duration, dates, duration, k);
      BalanceAfter(principal, duration, k, k + 1);
      InterestInOrder(0, Balance(principal, duration, k), rate);
      RoundUnique(0, RATE_UNITS, 0);
    }
  }

  /** The last capital part makes up for the rounding of all others, at most half a cent each. */
  lemma LastCloseToRegular(principal: int, duration: int)
    requires principal >= 0 && duration > 0
    ensures -duration <= 2 * (CapitalDue(principal, duration, duration - 1) - Regular(principal, duration)) <= duration
  {
    var r := Regular(principal, duration);
    RegularNotNegative(principal, duration);
    assert duration * r == (duration - 1) * r + r;
    assert -duration <= 2 * principal - 2 * duration * r < duration;
    assert 2 * duration * r == 2 * (duration * r);
  }

  lemma InterestNonIncreasing(principal: int, rate: int, duration: int, dates: seq<string>, j: nat, k: nat)
    requires principal >= 0 && rate >= 0 && j < k < duration == |dates|
    ensures var rows := Rows(principal, rate, duration, dates, duration); rows[k].interestDue <= rows[j].interestDue
  {
    RegularNotNegative(principal, duration);
    ProductsInOrder(j, k, Regular(principal, duration));
    InterestInOrder(Balance(principal, duration, k), Balance(principal, duration, j), rate);
    RowAt(principal, rate, duration, dates, duration, j);
    RowAt(principal, rate, duration, dates, duration, k);
  }

  /** `yearly`, in ten-thousandths of a percent of a cent, makes `rounded` a month, up to `n` half cents. */
  predicate WithinHalfCents(n: int, yearly: int, rounded: int) {
    -n * (12 * 100 * 10_000) <= 2 * (yearly - 12 * 100 * 10_000 * rounded) <= n * (12 * 100 * 10_000)
  }

  lemma OneMoreHalfCent(n: int, next: int, rate: int, before: int, balance: int, rounded: int)
    requires next == n + 1 && WithinHalfCents(n, rate * before, rounded)
    ensures WithinHalfCents(next, rate * (before + balance), rounded + InterestDue(balance, rate))
  {
    assert rate * (before + balance) == rate * before + balance * rate;
  }

  lemma TotalsOneMore(principal: int, rate: int, duration: int, dates: seq<string>, n: nat)
    requires 0 < n <= duration == |dates|
    ensures TotalBalance(principal, duration, n)
            == TotalBalance(principal, duration, n - 1) + Balance(principal, duration, n - 1)
    ensures TotalInterest(Rows(principal, rate, duration, dates, n))
            == TotalInterest(Rows(principal, rate, duration, dates, n - 1))
               + InterestDue(Balance(principal, duration, n - 1), rate)
  {
    assert Rows(principal, rate, duration, dates, n)[..n - 1] == Rows(principal, rate, duration, dates, n - 1);
  }

  /** Half a cent per instalment bounds the distance to the unrounded interest on the balances. */
  lemma {:induction false} InterestError(principal: int, rate: int, duration: int, dates: seq<string>, n: nat)
    requires n <= duration == |dates| && duration > 0
    ensures WithinHalfCents(
      n, rate * TotalBalance(principal, duration, n), TotalInterest(Rows(principal, rate, duration, dates, n)))
  {
    if n > 0 {
      InterestError(principal, rate, duration, dates, n - 1);
      TotalsOneMore(principal, rate, duration, dates, n);
      OneMoreHalfCent(n - 1, n, rate, TotalBalance(principal, duration, n - 1), Balance(principal, duration, n - 1),
                      TotalInterest(Rows(principal, rate, duration, dates, n - 1)));
    }
  }

  /** What is still outstanding when line `k` falls due, as the lines before it say. */
  function OutstandingBefore(principal: int, rows: seq<Installment>, k: nat): int
    requires k <= |rows|
  {
    principal - TotalCapital(rows[..k])
  }

  lemma {:induction false} RowsPrefix(principal: int, rate: int, duration: int, dates: seq<string>, n: nat, k: nat)
    requires k <= n <= duration == |dates| && duration > 0
    ensures Rows(principal, rate, duration, dates, n)[..k] == Rows(principal, rate, duration, dates, k)
  {
    if k < n {
      RowsPrefix(principal, rate, duration, dates, n - 1, k);
    }
  }

  lemma RowOnOutstanding(principal: int, rate: int, duration: int, dates: seq<string>, k: nat)
    requires principal > 0 && k < duration == |dates|
    ensures var rows := Rows(principal, rate, duration, dates, duration);
            && OutstandingBefore(principal, rows, k) == Balance(principal, duration, k)
            && rows[k] == Row(principal, rate, duration, dates, k)
  {
    RowsPrefix(principal, rate, duration, dates, duration, k);
    CapitalPaidSoFar(principal, rate, duration, dates, k);
    RowAt(principal, rate, duration, dates, duration, k);
  }

  /** The equal part: an `n`-th of the principal to the nearest cent. */
  predicate NearestPart(principal: int, n: int, part: int) {
    -n <= 2 * principal - 2 * n * part < n
  }

  /** A month's interest to the nearest cent, at `rate` ten-thousandths of a percent a year. */
  predicate MonthOfInterest(outstanding: int, rate: int, interest: int) {
    -(12 * 100 * 10_000) <= 2 * (outstanding * rate - 12 * 100 * 10_000 * interest) < 12 * 100 * 10_000
  }

  lemma InterestIsMonthly(outstanding: int, rate: int)
    ensures MonthOfInterest(outstanding, rate, InterestDue(outstanding, rate))
  {
  }

  /** The equal part, or all that is outstanding: in the last line, or when that is less. */
  ghost predicate EqualPartOrRest(principal: int, n: int, last: bool, outstanding: int, part: int) {
    exists equal ::
      NearestPart(principal, n, equal) && part == if last || outstanding < equal then outstanding else equal
  }

  lemma CapitalIsEqualPart(principal: int, duration: int, k: nat)
    requires principal > 0 && k < duration
    ensures EqualPartOrRest(principal, duration, k == duration - 1, Balance(principal, duration, k),
                            CapitalDue(principal, duration, k))
  {
    assert NearestPart(principal, duration, Regular(principal, duration));
  }

  /**
   Line `k`, from the lines before it: a month's interest on what is outstanding, and the equal part of the capital, or
   what is left of it.
   */
  ghost predicate LineOnOutstanding(principal: int, rate: int, rows: seq<Installment>, k: nat)
    requires k < |rows|
  {
    var outstanding := OutstandingBefore(principal, rows, k);
    && MonthOfInterest(outstanding, rate, rows[k].interestDue)
    && EqualPartOrRest(principal, |rows|, k == |rows| - 1, outstanding, rows[k].capitalDue)
  }

  lemma RowIsOnOutstanding(principal: int, rate: int, duration: int, dates: seq<string>, k: nat)
    requires principal > 0 && k < duration == |dates|
    ensures LineOnOutstanding(principal, rate, Rows(principal, rate, duration, dates, duration), k)
  {
    var rows := Rows(principal, rate, duration, dates, duration);
    var balance := Balance(principal, duration, k);
    RowOnOutstanding(principal, rate, duration, dates, k);
    InterestIsMonthly(balance, rate);
    CapitalIsEqualPart(principal, duration, k);
    assert rows[k].interestDue == InterestDue(balance, rate);
    assert rows[k].capitalDue == CapitalDue(principal, duration, k);
  }

  ghost predicate EachOnOutstanding(principal: int, rate: int, rows: seq<Installment>) {
    forall k :: 0 <= k < |rows| ==> LineOnOutstanding(principal, rate, rows, k)
  }

  lemma RowsAreOnOutstanding(principal: int, rate: int, duration: int, dates: seq<string>)
    requires principal > 0 && 0 < duration == |dates|
    ensures EachOnOutstanding(principal, rate, Rows(principal, rate, duration, dates, duration))
  {
    forall k | 0 <= k < duration
      ensures LineOnOutstanding(principal, rate, Rows(principal, rate, duration, dates, duration), k)
    {
      RowIsOnOutstanding(principal, rate, duration, dates, k);
    }
  }

  /** Each line of a schedule is the month's interest and the equal part, from the lines before it. */
  lemma EachLineOnOutstanding(principal: int, rate: int, duration: int, startDate: string)
    requires Schedule(principal, rate, duration, startDate).Ok?
    ensures var rows := Schedule(principal, rate, duration, startDate).value;
            |rows| == duration && EachOnOutstanding(principal, rate, rows)
  {
    RowsAreOnOutstanding(principal, rate, duration, DueDates(ParseIsoDate(startDate).value, duration));
  }

  /** At a hundred percent a year, a month's interest is the twelfth part. */
  lemma TwelfthOfTheYear(x: int)
    ensures InterestDue(12 * x, 100 * 10_000) == x
  {
    RoundUnique(12 * x * (100 * 10_000), RATE_UNITS, x);
  }

  /** The loop computes the closed form. */
  method BuildLines(principal: int, rate: int, duration: int, start: Date) returns (rows: seq<Installment>)
    requires principal > 0 && duration > 0
    ensures rows == Rows(principal, rate, duration, DueDates(start, duration), duration)
  {
    var outstanding := principal;
    rows := [];
    for index := 0 to duration
      invariant rows == Rows(principal, rate, duration, DueDates(start, duration), index)
      invariant index < duration ==> outstanding == Balance(principal, duration, index)
    {
      var capitalDue, interestDue;
      capitalDue, interestDue, outstanding := NextInstallment(principal, rate, duration, index, outstanding);
      rows := rows + [Line(DueDate(start, index), index, capitalDue, interestDue)];
    }
  }

  /** The errors in order, and else one line a month, each from what the lines before it leave outstanding. */
  method BuildAmortizationSchedule(principal: int, rate: int, duration: int, startDate: string)
    returns (r: Result<seq<Installment>, Refusal>)
    ensures r == Schedule(principal, rate, duration, startDate)
    ensures r.Ok? ==> |r.value| == duration && EachOnOutstanding(principal, rate, r.value)
  {
    var start := ParseIsoDate(startDate);
    if start.None? { return Err(InvalidDate); }
    if principal <= 0 { return Err(AmountNotPositive); }
    if rate < 0 || rate > MAX_RATE { return Err(RateOutOfRange); }
    if duration < 1 || duration > 120 { return Err(DurationOutOfRange); }
    var rows := BuildLines(principal, rate, duration, start.value);
    RowsAreOnOutstanding(principal, rate, duration, DueDates(start.value, duration));
    r := Ok(rows);
  }

  lemma {:induction false} DueSoFar(principal: int, rate: int, duration: int, dates: seq<string>, n: nat)
    requires n <= duration == |dates| && duration > 0
    ensures var rows := Rows(principal, rate, duration, dates, n);
            TotalDue(rows) == TotalCapital(rows) + TotalInterest(rows)
  {
    if n > 0 {
      DueSoFar(principal, rate, duration, dates, n - 1);
      var rows := Rows(principal, rate, duration, dates, n);
      assert rows[..n - 1] == Rows(principal, rate, duration, dates, n - 1);
      WholeCents(rows[n - 1].capitalDue + rows[n - 1].interestDue);
    }
  }

  /** What is due in all is the principal and the interest, and nothing else. */
  lemma DueIsPrincipalAndInterest(principal: int, rate: int, duration: int, dates: seq<string>)
    requires principal >= 0 && rate >= 0 && duration == |dates| && duration > 0
    ensures var rows := Rows(principal, rate, duration, dates, duration);
            TotalDue(rows) == principal + TotalInterest(rows)
  {
    DueSoFar(principal, rate, duration, dates, duration);
    CapitalSumsToPrincipal(principal, rate, duration, dates);
  }

  /** A schedule's lines are numbered from 1, none is negative, and each total is its capital and its interest. */
  lemma ScheduleAddsUp(principal: int, rate: int, duration: int, startDate: string)
    ensures match Schedule(principal, rate, duration, startDate)
            case Ok(rows) =>
              && |rows| == duration
              && TotalCapital(rows) == principal
              && forall k :: 0 <= k < duration ==>
                   && rows[k].number == k + 1 && rows[k].capitalDue >= 0 && rows[k].interestDue >= 0
                   && rows[k].totalDue == rows[k].capitalDue + rows[k].interestDue
                   && rows[k].dueDate == DueDate(ParseIsoDate(startDate).value, k)
            case Err(_) => true
  {
    if Schedule(principal, rate, duration, startDate).Ok? {
      var dates := DueDates(ParseIsoDate(startDate).value, duration);
      CapitalSumsToPrincipal(principal, rate, duration, dates);
      forall k | 0 <= k < duration
        ensures var row := Rows(principal, rate, duration, dates, duration)[k];
                row.number == k + 1 && row.totalDue == row.capitalDue + row.interestDue && row.dueDate == dates[k]
      {
        RowAt(principal, rate, duration, dates, duration, k);
        var row := Row(principal, rate, duration, dates, k);
        WholeCents(row.capitalDue + row.interestDue);
      }
    }
  }

  /** A schedule is built exactly from a real date's text, a positive amount, and a rate and duration in range. */
  lemma ScheduleExistsIff(principal: int, rate: int, duration: int, startDate: string, start: Date)
    ensures Schedule(principal, rate, duration, startDate).Ok? && ParseIsoDate(startDate) == Some(start) <==>
            && ValidDate(start) && 100 <= start.year <= 9999 && startDate == IsoText(start)
            && principal > 0 && 0 <= rate <= 100 * 10_000 && 1 <= duration <= 120
  {
    ParseAcceptsRealDates(startDate, start);
  }

  /** A refusal names the first thing wrong: date, amount, rate, duration. */
  lemma RefusalsTell(principal: int, rate: int, duration: int, startDate: string)
    ensures match Schedule(principal, rate, duration, startDate)
            case Ok(_) => true
            case Err(InvalidDate) => ParseIsoDate(startDate).None?
            case Err(AmountNotPositive) => ParseIsoDate(startDate).Some? && principal <= 0
            case Err(RateOutOfRange) =>
              ParseIsoDate(startDate).Some? && principal > 0 && !(0 <= rate <= 100 * 10_000)
            case Err(DurationOutOfRange) =>
              && ParseIsoDate(startDate).Some? && principal > 0 && 0 <= rate <= 100 * 10_000
              && !(1 <= duration <= 120)
  {
  }

  // ---- Due dates --------------------------------------------------------------------------------

  lemma DueLies(start: Date, k: nat)
    requires start.year >= 100 && start.month >= 1 && start.day >= 1
    ensures OnDayOrMonthEnd(Due(start, k), MonthIndex(start) + k + 1, start.day)
  {
    var months := k + 1;
    AddMonthsClamps(start, months);
    assert Due(start, k) == AddMonths(start, months);
  }

  lemma DueText(start: Date, k: nat)
    requires 100 <= Due(start, k).year
    ensures ParseIsoDate(DueDate(start, k)) == if Due(start, k).year <= 9999 then Some(Due(start, k)) else None
  {
    var due := Due(start, k);
    if due.year <= 9999 {
      ParseAcceptsRealDates(IsoDay(due), due);
    } else {
      assert IsoDay(due)[..4][0] == '+';
    }
  }

  /**
   The date of line `k` lies in the (k+1)-th month after the start, on the start day clamped to that month's length;
   up to the year 9999 its text parses back to it, and after that it is no date.
   */
  lemma DueDateClamps(start: Date, k: nat)
    requires ValidDate(start) && start.year >= 100
    ensures OnDayOrMonthEnd(Due(start, k), MonthIndex(start) + k + 1, start.day) && Due(start, k).year >= 100
    ensures ParseIsoDate(DueDate(start, k)) == if Due(start, k).year <= 9999 then Some(Due(start, k)) else None
  {
    DueLies(start, k);
    DueText(start, k);
  }

  lemma DueIncreases(start: Date, j: nat, k: nat)
    requires ValidDate(start) && start.year >= 100 && j < k
    ensures 100 <= Due(start, j).year <= Due(start, k).year && DayOf(Due(start, j)) < DayOf(Due(start, k))
  {
    DueDateClamps(start, j);
    DueDateClamps(start, k);
    LaterMonthLaterDay(Due(start, j), Due(start, k));
  }

  /** The texts of the due dates, while they have four-digit years, are those of strictly increasing days. */
  lemma DueDatesIncrease(start: Date, j: nat, k: nat)
    requires ValidDate(start) && start.year >= 100 && j < k
    ensures Due(start, k).year <= 9999 ==>
              var first, second := ParseIsoDate(DueDate(start, j)), ParseIsoDate(DueDate(start, k));
              first.Some? && second.Some? && DayOf(first.value) < DayOf(second.value)
  {
    DueIncreases(start, j, k);
    DueDateClamps(start, j);
    DueDateClamps(start, k);
  }

  /** Every line falls on a date: what the column for it demands of the text. */
  predicate Dated(rows: seq<Installment>) {
    forall k :: 0 <= k < |rows| ==> ParseIsoDate(rows[k].dueDate).Some?
  }

  /** A schedule can be stored exactly when its last line falls no later than the year 9999. */
  lemma DatedIff(principal: int, rate: int, duration: int, startDate: string)
    requires Schedule(principal, rate, duration, startDate).Ok?
    ensures var (rows, start) := (Schedule(principal, rate, duration, startDate).value, ParseIsoDate(startDate).value);
            Dated(rows) <==> Due(start, duration - 1).year <= 9999
  {
    var rows, start := Schedule(principal, rate, duration, startDate).value, ParseIsoDate(startDate).value;
    ScheduleAddsUp(principal, rate, duration, startDate);
    ParseAcceptsRealDates(startDate, start);
    DueDateClamps(start, duration - 1);
    forall k | 0 <= k < |rows| ensures Due(start, duration - 1).year <= 9999 ==> ParseIsoDate(rows[k].dueDate).Some? {
      DueDateClamps(start, k);
      if k < duration - 1 {
        DueIncreases(start, k, duration - 1);
      }
    }
    assert rows[duration - 1].dueDate == DueDate(start, duration - 1);
  }
}
