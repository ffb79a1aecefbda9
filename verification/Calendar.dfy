/**
 The dates of the amortization schedule: the day arithmetic that ECMAScript defines for `Date.UTC` and the
 getters, and the parsing and month addition written on top of it.
 */
module Calendar {
  import opened Common

  datatype Date = Date(year: int, month: int, day: int)

  predicate IsLeap(y: int) {
    y % 4 == 0 && (y % 100 != 0 || y % 400 == 0)
  }

  function DaysInMonth(y: int, m: int): (d: int)
    ensures 28 <= d <= 31
  {
    if m == 2 then (if IsLeap(y) then 29 else 28)
    else if m in {4, 6, 9, 11} then 30 else 31
  }

  predicate ValidDate(d: Date) {
    1 <= d.month <= 12 && 1 <= d.day <= DaysInMonth(d.year, d.month)
  }

  /** Months counted through the years. */
  function MonthIndex(d: Date): int {
    12 * d.year + d.month
  }

  // ---- Day numbers (day 0 is 1970-01-01) --------------------------------------------------------

  function DaysInYear(y: int): int {
    if IsLeap(y) then 366 else 365
  }

  /** The day number of 1 January of year `y`. */
  function DayFromYear(y: int): int
    decreases if y >= 1970 then y - 1970 else 1970 - y
  {
    if y == 1970 then 0
    else if y > 1970 then DayFromYear(y - 1) + DaysInYear(y - 1)
    else DayFromYear(y + 1) - DaysInYear(y)
  }

  /** Days of year `y` before month `m`; month 13 stands for the whole year. */
  function DaysBefore(y: int, m: int): int
    decreases m
  {
    if m <= 1 then 0 else DaysBefore(y, m - 1) + DaysInMonth(y, m - 1)
  }

  lemma YearLength(y: int)
    ensures DayFromYear(y + 1) - DayFromYear(y) == DaysBefore(y, 13) == DaysInYear(y)
  {
    assert DaysBefore(y, 3) == DaysInYear(y) - 306;
    assert DaysBefore(y, 5) == DaysInYear(y) - 245;
    assert DaysBefore(y, 7) == DaysInYear(y) - 184;
    assert DaysBefore(y, 9) == DaysInYear(y) - 122;
    assert DaysBefore(y, 11) == DaysInYear(y) - 61;
  }

  lemma {:induction false} YearsInOrder(a: int, b: int)
    requires a <= b
    ensures DayFromYear(a) + 365 * (b - a) <= DayFromYear(b)
    decreases b - a
  {
    if a < b {
      YearLength(a);
      YearsInOrder(a + 1, b);
    }
  }

  /** `month` counts from 0; months outside the year are carried into the years around it. */
  function MakeDay(year: int, month: int, day: int): int
    decreases if month >= 0 then month else 12 - month
  {
    if month < 0 then MakeDay(year - 1, month + 12, day)
    else if month >= 12 then MakeDay(year + 1, month - 12, day)
    else DayFromYear(year) + DaysBefore(year, month + 1) + day - 1
  }

  /** `Date.UTC`: two-digit years are taken in the 1900s. */
  function Utc(year: int, month: int, day: int): int {
    MakeDay(if 0 <= year <= 99 then 1900 + year else year, month, day)
  }

  /** The day number of a date whose month is in range. */
  function DayOf(d: Date): int {
    DayFromYear(d.year) + DaysBefore(d.year, d.month) + d.day - 1
  }

  lemma MakeDayInYear(y: int, m: int, day: int)
    requires 1 <= m <= 12
    ensures MakeDay(y, m - 1, day) == DayOf(Date(y, m, day))
  {
  }

  function YearAtLeast(n: int, y: int): (r: int)
    requires DayFromYear(y) <= n
    ensures DayFromYear(r) <= n < DayFromYear(r + 1)
    decreases n - DayFromYear(y)
  {
    YearLength(y);
    if DayFromYear(y + 1) <= n then YearAtLeast(n, y + 1) else y
  }

  /** The year that contains day `n`. */
  function YearOf(n: int): (r: int)
    ensures DayFromYear(r) <= n < DayFromYear(r + 1)
  {
    var before := if n >= 0 then 1970 else 1970 + n / 365 - 1;
    YearsInOrder(before, 1970);
    YearAtLeast(n, before)
  }

  function MonthAtLeast(y: int, dayInYear: int, m: int): (r: int)
    requires 1 <= m <= 12 && DaysBefore(y, m) <= dayInYear < DaysBefore(y, 13)
    ensures 1 <= r <= 12 && DaysBefore(y, r) <= dayInYear < DaysBefore(y, r + 1)
    decreases 12 - m
  {
    if m < 12 && DaysBefore(y, m + 1) <= dayInYear then MonthAtLeast(y, dayInYear, m + 1) else m
  }

  function DateInYear(y: int, dayInYear: int): (d: Date)
    requires 0 <= dayInYear < DaysBefore(y, 13)
    ensures ValidDate(d) && d.year == y && DaysBefore(y, d.month) + d.day - 1 == dayInYear
  {
    var m := MonthAtLeast(y, dayInYear, 1);
    Date(y, m, dayInYear - DaysBefore(y, m) + 1)
  }

  /** What the UTC getters say of day `n`. */
  function DateOf(n: int): (d: Date)
    ensures ValidDate(d) && DayOf(d) == n
  {
    var y := YearOf(n);
    YearLength(y);
    DateInYear(y, n - DayFromYear(y))
  }

  lemma {:induction false} MonthsInOrder(y: int, a: int, b: int)
    requires 1 <= a <= b <= 13
    ensures DaysBefore(y, a) <= DaysBefore(y, b)
    ensures a < b ==> DaysBefore(y, a) + DaysInMonth(y, a) <= DaysBefore(y, b)
    decreases b - a
  {
    if a < b {
      MonthsInOrder(y, a, b - 1);
    }
  }

  lemma DayWithinYear(d: Date)
    requires ValidDate(d)
    ensures DayFromYear(d.year) <= DayOf(d) < DayFromYear(d.year + 1)
  {
    YearLength(d.year);
    MonthsInOrder(d.year, 1, d.month);
    MonthsInOrder(d.year, d.month, 13);
  }

  /** A date in a later month has a greater day number. */
  lemma LaterMonthLaterDay(a: Date, b: Date)
    requires ValidDate(a) && ValidDate(b)
    requires MonthIndex(a) < MonthIndex(b)
    ensures DayOf(a) < DayOf(b)
  {
    if a.year < b.year {
      DayWithinYear(a);
      DayWithinYear(b);
      YearsInOrder(a.year + 1, b.year);
    } else {
      MonthsInOrder(a.year, a.month, b.month);
    }
  }

  /** Real dates are told apart by their day numbers. */
  lemma SameDaySameDate(a: Date, b: Date)
    requires ValidDate(a) && ValidDate(b) && DayOf(a) == DayOf(b)
    ensures a == b
  {
    if MonthIndex(a) < MonthIndex(b) {
      LaterMonthLaterDay(a, b);
    } else if MonthIndex(b) < MonthIndex(a) {
      LaterMonthLaterDay(b, a);
    } else {
      assert a.year == b.year;
    }
  }

  /** Reading back the day number of a real date gives that date. */
  lemma DateOfDay(d: Date)
    requires ValidDate(d)
    ensures DateOf(DayOf(d)) == d
  {
    SameDaySameDate(DateOf(DayOf(d)), d);
  }

  // ---- Month addition ---------------------------------------------------------------------------

  function Min(a: int, b: int): int {
    if a < b then a else b
  }

  function FirstOf(year: int, month: int): Date {
    DateOf(Utc(year, month, 1))
  }

  function LastDayOf(year: int, month: int): int {
    DateOf(Utc(year, month + 1, 0)).day
  }

  /** `setUTCDate`. */
  function OnDay(d: Date, day: int): (r: Date)
    ensures ValidDate(r)
  {
    DateOf(MakeDay(d.year, d.month - 1, day))
  }

  function ClampedTo(target: Date, day: int): (r: Date)
    ensures ValidDate(r)
  {
    OnDay(target, Min(day, LastDayOf(target.year, target.month - 1)))
  }

  /** `getUTCMonth() + months`, counted from January of the date's year. */
  function MonthAfter(date: Date, months: int): int {
    date.month - 1 + months
  }

  function AddMonths(date: Date, months: int): (r: Date)
    ensures ValidDate(r)
  {
    ClampedTo(FirstOf(date.year, MonthAfter(date, months)), date.day)
  }

  /** Day 0 of the month after `m` is the last day of `m`, also in December. */
  lemma DayZeroOfNextMonth(y: int, m: int)
    requires 1 <= m <= 12
    ensures MakeDay(y, m, 0) == DayOf(Date(y, m, DaysInMonth(y, m)))
  {
    if m == 12 {
      YearLength(y);
    } else {
      MakeDayInYear(y, m + 1, 0);
    }
  }

  /** The months carried over into years. */
  lemma {:induction false} FirstOfMonth(y: int, month: nat) returns (first: Date)
    ensures ValidDate(first) && first.day == 1 && first.year >= y && MonthIndex(first) == 12 * y + month + 1
    ensures MakeDay(y, month, 1) == DayOf(first)
    decreases month
  {
    if month >= 12 {
      first := FirstOfMonth(y + 1, month - 12);
    } else {
      first := Date(y, month + 1, 1);
    }
  }

  lemma TargetMonth(y: int, month: nat)
    requires y >= 100
    ensures var first := FirstOf(y, month);
            ValidDate(first) && first.year >= y && MonthIndex(first) == 12 * y + month + 1
  {
    var first := FirstOfMonth(y, month);
    DateOfDay(first);
  }

  lemma LastDay(y: int, m: int)
    requires y >= 100 && 1 <= m <= 12
    ensures LastDayOf(y, m - 1) == DaysInMonth(y, m)
  {
    DayZeroOfNextMonth(y, m);
    DateOfDay(Date(y, m, DaysInMonth(y, m)));
  }

  lemma DateOfMakeDay(d: Date)
    requires ValidDate(d)
    ensures DateOf(MakeDay(d.year, d.month - 1, d.day)) == d
  {
    MakeDayInYear(d.year, d.month, d.day);
    DateOfDay(d);
  }

  /** In a month the getters can return, a day that the month has is the day that is set. */
  lemma OnDayOfMonth(d: Date, day: int)
    requires 1 <= d.month <= 12 && 1 <= day <= DaysInMonth(d.year, d.month)
    ensures OnDay(d, day) == Date(d.year, d.month, day)
  {
    DateOfMakeDay(Date(d.year, d.month, day));
  }

  lemma ClampedToMonth(target: Date, day: int)
    requires ValidDate(target) && target.year >= 100 && 1 <= day
    ensures ClampedTo(target, day) == Date(target.year, target.month, Min(day, DaysInMonth(target.year, target.month)))
  {
    LastDay(target.year, target.month);
    OnDayOfMonth(target, Min(day, DaysInMonth(target.year, target.month)));
  }

  /** `r` lies in month `index`, on day `day` or on the last day of a month that is too short for it. */
  predicate OnDayOrMonthEnd(r: Date, index: int, day: int) {
    1 <= r.month <= 12 && MonthIndex(r) == index && r.day == Min(day, DaysInMonth(r.year, r.month))
  }

  lemma TargetClamped(y: int, month: int, day: int)
    requires y >= 100 && month >= 0 && day >= 1
    ensures OnDayOrMonthEnd(ClampedTo(FirstOf(y, month), day), 12 * y + month + 1, day)
  {
    TargetMonth(y, month);
    ClampedToMonth(FirstOf(y, month), day);
  }

  /** The result lies in the `months`-th month after the start's: a short month in between has no influence. */
  lemma AddMonthsClamps(date: Date, months: nat)
    requires date.year >= 100 && date.month >= 1 && date.day >= 1
    ensures OnDayOrMonthEnd(AddMonths(date, months), MonthIndex(date) + months, date.day)
  {
    TargetClamped(date.year, MonthAfter(date, months), date.day);
  }

  /** Later due dates are strictly later. */
  lemma AddMonthsIncreases(date: Date, j: nat, k: nat)
    requires date.year >= 100 && date.month >= 1 && date.day >= 1 && j < k
    ensures DayOf(AddMonths(date, j)) < DayOf(AddMonths(date, k))
  {
    AddMonthsClamps(date, j);
    AddMonthsClamps(date, k);
    LaterMonthLaterDay(AddMonths(date, j), AddMonths(date, k));
  }

  // ---- ISO text ---------------------------------------------------------------------------------

  predicate IsDigit(c: char) {
    '0' <= c <= '9'
  }

  predicate AllDigits(s: string) {
    forall i :: 0 <= i < |s| ==> IsDigit(s[i])
  }

  /** `Number` of a string of decimal digits. */
  function Number(s: string): nat
    requires AllDigits(s)
  {
    if s == [] then 0 else 10 * Number(s[..|s| - 1]) + (s[|s| - 1] - '0') as int
  }

  /** `n` in decimal, padded with zeros to `width` digits; higher digits are dropped. */
  function Digits(n: nat, width: nat): (s: string)
    ensures |s| == width && AllDigits(s)
    decreases width
  {
    if width == 0 then [] else Digits(n / 10, width - 1) + ['0' + (n % 10) as char]
  }

  function Power10(k: nat): nat {
    if k == 0 then 1 else 10 * Power10(k - 1)
  }

  lemma {:induction false} NumberOfDigits(n: nat, width: nat)
    requires n < Power10(width)
    ensures Number(Digits(n, width)) == n
    decreases width
  {
    if width > 0 {
      NumberOfDigits(n / 10, width - 1);
      var s := Digits(n, width);
      assert s[..|s| - 1] == Digits(n / 10, width - 1);
    }
  }

  lemma {:induction false} DigitsOfNumber(s: string)
    requires AllDigits(s)
    ensures Number(s) < Power10(|s|) && Digits(Number(s), |s|) == s
  {
    if s != [] {
      var front := s[..|s| - 1];
      DigitsOfNumber(front);
      assert s == front + [s[|s| - 1]];
    }
  }

  /** The text `YYYY-MM-DD`. */
  function IsoText(d: Date): (s: string)
    requires 0 <= d.year && 0 <= d.month && 0 <= d.day
    ensures |s| == 10 && DateShaped(s)
    ensures s[..4] == Digits(d.year, 4) && s[5..7] == Digits(d.month, 2) && s[8..] == Digits(d.day, 2)
  {
    Digits(d.year, 4) + "-" + Digits(d.month, 2) + "-" + Digits(d.day, 2)
  }

  /** The first ten characters of `toISOString`: years outside 0 to 9999 are written with a sign and six digits. */
  function IsoDay(d: Date): (s: string)
    requires ValidDate(d)
    ensures |s| == 10
  {
    if 0 <= d.year <= 9999 then IsoText(d)
    else if d.year > 9999 then "+" + Digits(d.year, 6) + "-" + Digits(d.month, 2)
    else "-" + Digits(-d.year, 6) + "-" + Digits(d.month, 2)
  }

  predicate DateShaped(s: string) {
    |s| == 10 && s[4] == '-' && s[7] == '-' && AllDigits(s[..4]) && AllDigits(s[5..7]) && AllDigits(s[8..])
  }

  function ReadBack(asked: Date): Date {
    DateOf(Utc(asked.year, asked.month - 1, asked.day))
  }

  function ParseIsoDate(s: string): (r: Option<Date>)
    ensures r.Some? ==> ValidDate(r.value)
  {
    if !DateShaped(s) then None else
    var asked := Date(Number(s[..4]), Number(s[5..7]), Number(s[8..]));
    if ReadBack(asked) == asked then Some(ReadBack(asked)) else None
  }

  lemma TextOfParts(s: string)
    requires DateShaped(s)
    ensures var d := Date(Number(s[..4]), Number(s[5..7]), Number(s[8..]));
            IsoText(d) == s && d.year <= 9999
  {
    DigitsOfNumber(s[..4]);
    DigitsOfNumber(s[5..7]);
    DigitsOfNumber(s[8..]);
    assert Power10(4) == 10 * (10 * Power10(2));
    assert s == s[..4] + "-" + s[5..7] + "-" + s[8..];
  }

  lemma PartsOfText(d: Date)
    requires 0 <= d.year <= 9999 && 0 <= d.month <= 99 && 0 <= d.day <= 99
    ensures var s := IsoText(d); d == Date(Number(s[..4]), Number(s[5..7]), Number(s[8..]))
  {
    assert Power10(4) == 10 * (10 * Power10(2)) == 10000;
    NumberOfDigits(d.year, 4);
    NumberOfDigits(d.month, 2);
    NumberOfDigits(d.day, 2);
  }

  /** A two-digit year is moved to the 1900s and then never reads back as itself. */
  lemma TwoDigitYear(asked: Date)
    requires 0 <= asked.year <= 99
    ensures ReadBack(asked) != asked
  {
    if ValidDate(asked) {
      var y := 1900 + asked.year;
      MakeDayInYear(y, asked.month, asked.day);
      LaterMonthLaterDay(asked, Date(y, asked.month, 1));
    }
  }

  lemma ReadBackIsReal(asked: Date)
    requires asked.year >= 0
    ensures ReadBack(asked) == asked <==> ValidDate(asked) && asked.year >= 100
  {
    if asked.year < 100 {
      TwoDigitYear(asked);
    } else if ValidDate(asked) {
      DateOfMakeDay(asked);
    }
  }

  /** The parser accepts exactly the texts of the real Gregorian dates of the years 100 to 9999. */
  lemma ParseAcceptsRealDates(s: string, d: Date)
    ensures ParseIsoDate(s) == Some(d) <==> ValidDate(d) && 100 <= d.year <= 9999 && s == IsoText(d)
  {
    if DateShaped(s) {
      TextOfParts(s);
      ReadBackIsReal(Date(Number(s[..4]), Number(s[5..7]), Number(s[8..])));
    }
    if ValidDate(d) && 100 <= d.year <= 9999 && s == IsoText(d) {
      PartsOfText(d);
    }
  }
}
