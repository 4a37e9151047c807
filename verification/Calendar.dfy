/**
 The proleptic Gregorian calendar: month lengths, day numbers, order, and shifting by days
 and by months. Dates of the representable range stand for chrono's NaiveDate.
 */
module Calendar {
  import opened Numbers
  import opened Wrappers

  datatype Date = Date(year: int, month: int, day: int)

  /** The years chrono 0.4 can represent. */
  const MIN_YEAR := -262143
  const MAX_YEAR := 262142

  const I64_MAX := 0x7FFF_FFFF_FFFF_FFFF
  const I32_MAX := 0x7FFF_FFFF

  predicate IsLeapYear(year: int) {
    (year % 4 == 0 && year % 100 != 0) || year % 400 == 0
  }

  function DaysInMonth(year: int, month: int): int
    requires 1 <= month <= 12
  {
    if month in {1, 3, 5, 7, 8, 10, 12} then 31
    else if month in {4, 6, 9, 11} then 30
    else if IsLeapYear(year) then 29 else 28
  }

  predicate Valid(d: Date) {
    1 <= d.month <= 12 && 1 <= d.day <= DaysInMonth(d.year, d.month)
  }

  predicate Representable(d: Date) {
    Valid(d) && MIN_YEAR <= d.year <= MAX_YEAR
  }

  // ----- Day numbers -----

  function DaysBeforeYear(year: int): int {
    var y := year - 1;
    365 * y + y / 4 - y / 100 + y / 400
  }

  /** The days of the year before a month: evenly spaced months, then the shortfall of the year's February. */
  function DaysBeforeMonth(year: int, month: int): int {
    (367 * month - 362) / 12
    + if month <= 2 then 0 else DaysBeforeYear(year + 1) - DaysBeforeYear(year) - 367
  }

  /** The month-length table agrees with the day numbers, in every year. */
  lemma TableAgrees(year: int, month: int)
    requires 1 <= month <= 12
    ensures DaysBeforeMonth(year, month + 1) - DaysBeforeMonth(year, month) == DaysInMonth(year, month)
    ensures month == 1 ==> DaysBeforeMonth(year, month) == 0
  {
    hide DaysBeforeYear;
    LeapStep(year);
  }

  /** The number of the day, day 1 being 1 January of year 1. */
  function DayNumber(d: Date): int
    requires 1 <= d.month <= 12
  {
    DaysBeforeYear(d.year) + DaysBeforeMonth(d.year, d.month) + d.day
  }

  lemma YearLength(year: int)
    ensures DaysBeforeYear(year + 1) == DaysBeforeYear(year) + DaysBeforeMonth(year, 13)
    ensures DaysBeforeMonth(year, 1) == 0
  {
    hide DaysBeforeYear;
  }

  /** The century rule, as a difference of the four quotients. */
  lemma LeapStep(year: int)
    ensures DaysBeforeYear(year + 1) - DaysBeforeYear(year) == if IsLeapYear(year) then 366 else 365
  {
    var q4, q100, q400 := year / 4 - (year - 1) / 4, year / 100 - (year - 1) / 100, year / 400 - (year - 1) / 400;
    QuotientStep(year, 4);
    QuotientStep(year, 100);
    QuotientStep(year, 400);
    Divisors(year);
    assert DaysBeforeYear(year + 1) - DaysBeforeYear(year) == 365 + q4 - q100 + q400;
  }

  lemma Divisors(year: int)
    ensures year % 100 == 0 ==> year % 4 == 0
    ensures year % 400 == 0 ==> year % 100 == 0
  {
  }

  lemma QuotientStep(n: int, k: int)
    requires k == 4 || k == 100 || k == 400
    ensures n / k - (n - 1) / k == if n % k == 0 then 1 else 0
  {
  }

  lemma {:induction false} MonthsAscend(year: int, a: int, b: int)
    requires 1 <= a <= b <= 13
    ensures DaysBeforeMonth(year, a) + 28 * (b - a) <= DaysBeforeMonth(year, b)
    decreases b - a
  {
    hide DaysBeforeMonth;
    if a < b {
      MonthsAscend(year, a, b - 1);
      TableAgrees(year, b - 1);
    }
  }

  lemma {:induction false} YearsAscend(a: int, b: int)
    requires a <= b
    ensures DaysBeforeYear(a) + 365 * (b - a) <= DaysBeforeYear(b)
    decreases b - a
  {
    if a < b {
      YearsAscend(a, b - 1);
      LeapStep(b - 1);
    }
  }

  /** A day lies within its month, and its month within its year. */
  lemma DayNumberBounds(d: Date)
    requires Valid(d)
    ensures DaysBeforeYear(d.year) < DayNumber(d) <= DaysBeforeYear(d.year + 1)
  {
    hide DaysBeforeYear, DaysBeforeMonth;
    TableAgrees(d.year, d.month);
    MonthsAscend(d.year, 1, d.month);
    MonthsAscend(d.year, d.month + 1, 13);
    YearLength(d.year);
  }

  predicate Earlier(a: Date, b: Date) {
    a.year < b.year || (a.year == b.year && (a.month < b.month || (a.month == b.month && a.day < b.day)))
  }

  /** Comparing dates field by field is comparing their day numbers. */
  lemma OrderIsDayOrder(a: Date, b: Date)
    requires Valid(a) && Valid(b)
    ensures Earlier(a, b) <==> DayNumber(a) < DayNumber(b)
    ensures a == b <==> DayNumber(a) == DayNumber(b)
  {
    hide DayNumber, DaysInMonth;
    if Earlier(a, b) {
      EarlierHasSmallerNumber(a, b);
    } else if Earlier(b, a) {
      EarlierHasSmallerNumber(b, a);
    }
  }

  lemma EarlierHasSmallerNumber(a: Date, b: Date)
    requires Valid(a) && Valid(b) && Earlier(a, b)
    ensures DayNumber(a) < DayNumber(b)
  {
    hide DaysBeforeYear, DaysBeforeMonth;
    TableAgrees(a.year, a.month);
    if a.year < b.year {
      DayNumberBounds(a);
      DayNumberBounds(b);
      YearsAscend(a.year + 1, b.year);
    } else if a.month < b.month {
      MonthsAscend(a.year, a.month + 1, b.month);
    }
  }

  // ----- Days -----

  function NextDay(d: Date): (r: Date)
    requires Valid(d)
    ensures Valid(r)
  {
    if d.day < DaysInMonth(d.year, d.month) then d.(day := d.day + 1)
    else if d.month < 12 then Date(d.year, d.month + 1, 1)
    else Date(d.year + 1, 1, 1)
  }

  function PreviousDay(d: Date): (r: Date)
    requires Valid(d)
    ensures Valid(r)
  {
    if d.day > 1 then d.(day := d.day - 1)
    else if d.month > 1 then Date(d.year, d.month - 1, DaysInMonth(d.year, d.month - 1))
    else Date(d.year - 1, 12, 31)
  }

  lemma NextDayNumber(d: Date)
    requires Valid(d)
    ensures DayNumber(NextDay(d)) == DayNumber(d) + 1
  {
    hide DaysBeforeYear, DaysBeforeMonth;
    TableAgrees(d.year, d.month);
    YearLength(d.year);
    YearLength(d.year + 1);
  }

  lemma PreviousDayNumber(d: Date)
    requires Valid(d)
    ensures NextDay(PreviousDay(d)) == d && DayNumber(PreviousDay(d)) == DayNumber(d) - 1
  {
    hide DaysBeforeYear, DaysBeforeMonth;
    NextDayNumber(PreviousDay(d));
  }

  /** The date `n` days later. */
  function Advance(d: Date, n: nat): (r: Date)
    requires Valid(d)
    ensures Valid(r)
    decreases n
  {
    if n == 0 then d else Advance(NextDay(d), n - 1)
  }

  lemma {:induction false} AdvanceNumber(d: Date, n: nat)
    requires Valid(d)
    ensures DayNumber(Advance(d, n)) == DayNumber(d) + n
    decreases n
  {
    hide DayNumber;
    if n > 0 {
      NextDayNumber(d);
      AdvanceNumber(NextDay(d), n - 1);
    }
  }

  /** Adding days, when the result is still representable. */
  function AddDays(d: Date, n: nat): Option<Date>
    requires Representable(d)
  {
    var r := Advance(d, n);
    if r.year <= MAX_YEAR then Some(r) else None
  }

  const LAST_DAY := Date(MAX_YEAR, 12, 31)

  /** A later date is representable exactly when its number does not pass the last day's. */
  lemma AddDaysMeaning(d: Date, n: nat)
    requires Representable(d)
    ensures AddDays(d, n).Some? <==> DayNumber(d) + n <= DayNumber(LAST_DAY)
    ensures AddDays(d, n).Some? ==> Representable(AddDays(d, n).value) && DayNumber(AddDays(d, n).value) == DayNumber(d) + n
  {
    hide DayNumber, Advance;
    var r := Advance(d, n);
    AdvanceNumber(d, n);
    OrderIsDayOrder(LAST_DAY, r);
    OrderIsDayOrder(r, d);
  }

  // ----- Months -----

  /** Months since the start of year 0. */
  function MonthIndex(d: Date): int {
    d.year * 12 + (d.month - 1)
  }

  /** The month with index `index`, the day cut to its length. */
  function ClampedDate(index: int, day: int): Date {
    Date(index / 12, index % 12 + 1, Min(day, DaysInMonth(index / 12, index % 12 + 1)))
  }

  /** Adding months with checked arithmetic; the day falls back to the end of a shorter month. */
  function AddMonthsClamped(d: Date, months: int): Option<Date>
    requires Representable(d)
  {
    var index := MonthIndex(d) + months;
    if !(-I64_MAX - 1 <= index <= I64_MAX) then None
    else if !(-I32_MAX - 1 <= index / 12 <= I32_MAX) then None
    else
      var r := ClampedDate(index, d.day);
      if Representable(r) then Some(r) else None
  }

  lemma IndexOfClamped(index: int, day: int)
    requires day >= 1
    ensures Valid(ClampedDate(index, day)) && MonthIndex(ClampedDate(index, day)) == index
  {
  }

  /** Shifting moves the month index by exactly `months`, and only leaving the range fails. */
  lemma AddMonthsMeaning(d: Date, months: int)
    requires Representable(d)
    ensures AddMonthsClamped(d, months).Some? <==> 12 * MIN_YEAR <= MonthIndex(d) + months < 12 * (MAX_YEAR + 1)
    ensures AddMonthsClamped(d, months).Some? ==>
              var r := AddMonthsClamped(d, months).value;
              && Representable(r) && MonthIndex(r) == MonthIndex(d) + months
              && r.day == Min(d.day, DaysInMonth(r.year, r.month))
  {
    hide DaysInMonth;
    IndexOfClamped(MonthIndex(d) + months, d.day);
  }

  lemma IndexOrder(a: Date, b: Date)
    requires Valid(a) && Valid(b)
    ensures Earlier(a, b) <==> MonthIndex(a) < MonthIndex(b) || (MonthIndex(a) == MonthIndex(b) && a.day < b.day)
    ensures MonthIndex(a) == MonthIndex(b) <==> a.year == b.year && a.month == b.month
  {
  }

  /** Shifting two dates by the same number of months keeps their order. */
  lemma AddMonthsKeepsOrder(a: Date, b: Date, months: int)
    requires Representable(a) && Representable(b) && !Earlier(b, a)
    requires AddMonthsClamped(a, months).Some? && AddMonthsClamped(b, months).Some?
    ensures !Earlier(AddMonthsClamped(b, months).value, AddMonthsClamped(a, months).value)
  {
    hide AddMonthsClamped, DaysInMonth;
    AddMonthsMeaning(a, months);
    AddMonthsMeaning(b, months);
    IndexOrder(b, a);
    IndexOrder(AddMonthsClamped(b, months).value, AddMonthsClamped(a, months).value);
    IndexOrder(a, b);
  }

  /** Shifting further lands later. */
  lemma AddMonthsAscends(d: Date, a: int, b: int)
    requires Representable(d) && a < b
    requires AddMonthsClamped(d, a).Some? && AddMonthsClamped(d, b).Some?
    ensures Earlier(AddMonthsClamped(d, a).value, AddMonthsClamped(d, b).value)
  {
    hide AddMonthsClamped, DaysInMonth;
    AddMonthsMeaning(d, a);
    AddMonthsMeaning(d, b);
    IndexOrder(AddMonthsClamped(d, a).value, AddMonthsClamped(d, b).value);
  }

  /** `k` shifts by one month each. */
  function RepeatMonth(d: Date, k: nat): Option<Date>
    requires Representable(d)
    decreases k
  {
    if k == 0 then Some(d)
    else
      match RepeatMonth(d, k - 1)
      case None => None
      case Some(r) => if Representable(r) then AddMonthsClamped(r, 1) else None
  }

  /** The shortest of the `k` months that follow the month with index `index`. */
  function ShortestMonthAfter(index: int, k: nat): int
    requires k > 0
    decreases k
  {
    var length := DaysInMonth((index + k) / 12, (index + k) % 12 + 1);
    if k == 1 then length else Min(ShortestMonthAfter(index, k - 1), length)
  }

  /** Step by step the day is cut to the shortest month passed, and never recovers. */
  lemma {:induction false} RepeatMonthMeaning(d: Date, k: nat)
    requires Representable(d) && k > 0
    ensures RepeatMonth(d, k).Some? <==> MonthIndex(d) + k < 12 * (MAX_YEAR + 1)
    ensures RepeatMonth(d, k).Some? ==>
              var r := RepeatMonth(d, k).value;
              && Representable(r) && MonthIndex(r) == MonthIndex(d) + k
              && r.day == Min(d.day, ShortestMonthAfter(MonthIndex(d), k))
    decreases k
  {
    hide AddMonthsClamped, DaysInMonth;
    if k == 1 {
      AddMonthsMeaning(d, 1);
      assert RepeatMonth(d, 0) == Some(d);
      if RepeatMonth(d, 1).Some? {
        OneMonthLater(d, d, 1);
      }
    } else {
      RepeatMonthMeaning(d, k - 1);
      if RepeatMonth(d, k - 1).Some? {
        AddMonthsMeaning(RepeatMonth(d, k - 1).value, 1);
        if RepeatMonth(d, k).Some? {
          OneMonthLater(d, RepeatMonth(d, k - 1).value, k);
        }
      }
    }
  }

  lemma OneMonthLater(d: Date, r: Date, k: nat)
    requires Representable(d) && Representable(r) && k > 0 && MonthIndex(r) + 1 == MonthIndex(d) + k
    requires AddMonthsClamped(r, 1).Some?
    ensures var n := AddMonthsClamped(r, 1).value;
      n.year == (MonthIndex(d) + k) / 12 && n.month == (MonthIndex(d) + k) % 12 + 1
  {
  }

  /**
   One shift of `k` months and `k` shifts of one month land in the same month, the repeated
   one on a day no later; they agree exactly when no month on the way is shorter than both the
   anchor day and the last month.
   */
  lemma RepeatedShiftAgainstDirect(d: Date, k: nat)
    requires Representable(d) && k > 0
    ensures RepeatMonth(d, k).Some? <==> AddMonthsClamped(d, k).Some?
    ensures RepeatMonth(d, k).Some? ==>
              var once, steps := AddMonthsClamped(d, k).value, RepeatMonth(d, k).value;
              && steps.year == once.year && steps.month == once.month && steps.day <= once.day
              && (steps == once <==>
                    Min(d.day, DaysInMonth(once.year, once.month)) <= ShortestMonthAfter(MonthIndex(d), k))
              && (d.day <= 28 ==> steps == once && once.day == d.day)
  {
    hide AddMonthsClamped, DaysInMonth, RepeatMonth, ShortestMonthAfter;
    RepeatMonthMeaning(d, k);
    AddMonthsMeaning(d, k);
    ShortestMonthBounds(MonthIndex(d), k);
    if RepeatMonth(d, k).Some? {
      IndexOrder(RepeatMonth(d, k).value, AddMonthsClamped(d, k).value);
      var once := AddMonthsClamped(d, k).value;
      assert once.year == (MonthIndex(d) + k) / 12 && once.month == (MonthIndex(d) + k) % 12 + 1;
      MonthIsAtLeast28(once.year, once.month);
    }
  }

  /** From 31 January two single shifts end on 28 March, one shift by two months on 31 March. */
  lemma MonthEndIsLostOnTheWay()
    ensures RepeatMonth(Date(2023, 1, 31), 2) == Some(Date(2023, 3, 28))
    ensures AddMonthsClamped(Date(2023, 1, 31), 2) == Some(Date(2023, 3, 31))
  {
    hide RepeatMonth, AddMonthsClamped, ShortestMonthAfter;
    var d := Date(2023, 1, 31);
    assert ShortestMonthAfter(MonthIndex(d), 2) == 28 by { MarchAfterFebruary(); }
    RepeatMonthMeaning(d, 2);
    AddMonthsMeaning(d, 2);
    IndexOrder(RepeatMonth(d, 2).value, Date(2023, 3, 28));
    IndexOrder(AddMonthsClamped(d, 2).value, Date(2023, 3, 31));
  }

  lemma MarchAfterFebruary()
    ensures ShortestMonthAfter(12 * 2023, 2) == 28
  {
    assert ShortestMonthAfter(12 * 2023, 1) == 28;
  }

  lemma MonthIsAtLeast28(year: int, month: int)
    requires 1 <= month <= 12
    ensures DaysInMonth(year, month) >= 28
  {
  }

  lemma {:induction false} ShortestMonthBounds(index: int, k: nat)
    requires k > 0
    ensures 28 <= ShortestMonthAfter(index, k) <= DaysInMonth((index + k) / 12, (index + k) % 12 + 1)
    decreases k
  {
    if k > 1 {
      ShortestMonthBounds(index, k - 1);
    }
  }

  // ----- Month ranges -----

  /** The year and month `offset` months away. */
  function ShiftMonth(d: Date, offset: int): (int, int)
    requires Valid(d)
  {
    var monthZero := d.month - 1 + offset;
    (d.year + monthZero / 12, monthZero % 12 + 1)
  }

  /** One day earlier: the date whose day number is one less. */
  ghost function DayBefore(d: Date): (r: Date)
    requires Valid(d)
    ensures Valid(r) && DayNumber(r) == DayNumber(d) - 1
  {
    PreviousDayNumber(d);
    var r :| Valid(r) && DayNumber(r) == DayNumber(d) - 1;
    r
  }

  /** The first day of a month and the day before the next one starts; None where the program would panic. */
  ghost function MonthRange(year: int, month: int): Option<(Date, Date)>
    requires 1 <= month <= 12
  {
    var start := Date(year, month, 1);
    var nextStart := if month == 12 then Date(year + 1, 1, 1) else Date(year, month + 1, 1);
    if Representable(start) && Representable(nextStart) && Representable(DayBefore(nextStart))
    then Some((start, DayBefore(nextStart)))
    else None
  }

  /** The day before the next month is the last day of this one by the month-length table. */
  lemma DayBeforeNextMonth(year: int, month: int)
    requires 1 <= month <= 12
    ensures var nextStart := if month == 12 then Date(year + 1, 1, 1) else Date(year, month + 1, 1);
      DayBefore(nextStart) == Date(year, month, DaysInMonth(year, month))
  {
    hide DayNumber, DaysInMonth;
    var nextStart := if month == 12 then Date(year + 1, 1, 1) else Date(year, month + 1, 1);
    MonthIsNotEmpty(year, month);
    MonthIsNotEmpty(nextStart.year, nextStart.month);
    var last := Date(year, month, DaysInMonth(year, month));
    NextDayNumber(last);
    OrderIsDayOrder(DayBefore(nextStart), last);
  }

  lemma MonthIsNotEmpty(year: int, month: int)
    requires 1 <= month <= 12
    ensures DaysInMonth(year, month) >= 28
  {
  }

  /** Subtracting a day from the start of the next month gives the month's last day, for every year and month. */
  lemma MonthRangeEndsWithTheMonth(year: int, month: int)
    requires 1 <= month <= 12
    ensures MonthRange(year, month).Some? <==> MIN_YEAR <= year && (year < MAX_YEAR || (year == MAX_YEAR && month < 12))
    ensures MonthRange(year, month).Some? ==>
              var (first, last) := MonthRange(year, month).value;
              && first == Date(year, month, 1) && last == Date(year, month, DaysInMonth(year, month))
              && DayNumber(last) - DayNumber(first) + 1 == DaysInMonth(year, month)
  {
    hide DaysInMonth, DaysBeforeMonth, DaysBeforeYear;
    MonthIsNotEmpty(year, month);
    MonthIsNotEmpty(year + 1, 1);
    if month < 12 {
      MonthIsNotEmpty(year, month + 1);
    }
    DayBeforeNextMonth(year, month);
  }

  /** A month's range holds exactly the days of that month. */
  lemma MonthRangeHoldsItsDays(year: int, month: int, x: Date)
    requires 1 <= month <= 12 && Valid(x) && MonthRange(year, month).Some?
    ensures var (first, last) := MonthRange(year, month).value;
      DayNumber(first) <= DayNumber(x) <= DayNumber(last) <==> x.year == year && x.month == month
  {
    hide DayNumber, DaysInMonth, MonthRange;
    MonthRangeEndsWithTheMonth(year, month);
    MonthIsNotEmpty(year, month);
    var (first, last) := MonthRange(year, month).value;
    OrderIsDayOrder(x, first);
    OrderIsDayOrder(last, x);
  }

  /**
   Months shifted by consecutive offsets tile the calendar: one starts the day after the other
   ends, and a date lies in one of the two ranges exactly when it lies in one of the two months.
   */
  lemma ShiftedMonthsTile(d: Date, offset: int, x: Date)
    requires Valid(d) && Valid(x)
    requires MonthRange(ShiftMonth(d, offset).0, ShiftMonth(d, offset).1).Some?
    requires MonthRange(ShiftMonth(d, offset + 1).0, ShiftMonth(d, offset + 1).1).Some?
    ensures var (start, last) := MonthRange(ShiftMonth(d, offset).0, ShiftMonth(d, offset).1).value;
            var (first, end) := MonthRange(ShiftMonth(d, offset + 1).0, ShiftMonth(d, offset + 1).1).value;
      && first == NextDay(last) && DayNumber(first) == DayNumber(last) + 1
      && (DayNumber(start) <= DayNumber(x) <= DayNumber(end) <==> 0 <= MonthIndex(x) - MonthIndex(d) - offset <= 1)
  {
    hide DayNumber, DaysInMonth, MonthRange;
    var (y, m) := ShiftMonth(d, offset);
    var (z, n) := ShiftMonth(d, offset + 1);
    ShiftMonthStep(d, offset);
    MonthIsNotEmpty(y, m);
    MonthIsNotEmpty(z, n);
    MonthRangeEndsWithTheMonth(y, m);
    MonthRangeEndsWithTheMonth(z, n);
    NextDayNumber(MonthRange(y, m).value.1);
    MonthRangeHoldsItsDays(y, m, x);
    MonthRangeHoldsItsDays(z, n, x);
  }

  lemma ShiftMonthStep(d: Date, offset: int)
    requires Valid(d)
    ensures var (y, m) := ShiftMonth(d, offset);
      && 1 <= m <= 12 && 12 * y + m - 1 == MonthIndex(d) + offset
      && ShiftMonth(d, offset + 1) == if m == 12 then (y + 1, 1) else (y, m + 1)
  {
  }
}
