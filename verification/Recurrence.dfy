/**
 Advancing a recurring anchor past "now": calendar shifts with checked arithmetic, the binary
 search for the least cycle count, and the closed form for whole-day intervals.
 */
module Recurrence {
  import opened Wrappers
  import opened Calendar

  datatype Unit = Minute | Hour | Day | Week | Month | Year

  // ----- Shifting dates -----

  /** The largest number of whole seconds a chrono duration can hold. */
  const MAX_DURATION_SECONDS := I64_MAX / 1000

  /** The product of interval and cycles, when it fits 64 bits. */
  function TotalSteps(interval: nat, cycles: int): Option<int> {
    if interval == 0 || cycles <= 0 || interval * cycles > I64_MAX then None else Some(interval * cycles)
  }

  /** A duration of `n` units of `seconds` each, as chrono's checked constructors give it. */
  function DurationSeconds(n: int, seconds: int): Option<int> {
    if n * seconds <= I64_MAX && n * seconds <= MAX_DURATION_SECONDS then Some(n * seconds) else None
  }

  function ShiftByDays(date: Date, days: int): Option<Date>
    requires Representable(date) && days > 0
  {
    if DurationSeconds(days, 86400).None? then None else AddDays(date, days)
  }

  function ShiftDate(date: Date, interval: nat, unit: Unit, cycles: int): Option<Date>
    requires Representable(date)
  {
    match TotalSteps(interval, cycles)
    case None => None
    case Some(total) =>
      assert total > 0;
      match unit
      case Minute => None
      case Hour => None
      case Day => ShiftByDays(date, total)
      case Week => if total * 7 > I64_MAX then None else ShiftByDays(date, total * 7)
      case Month => AddMonthsClamped(date, total)
      case Year => if total * 12 > I64_MAX then None else AddMonthsClamped(date, total * 12)
  }

  lemma ProductAscends(interval: nat, j: int, k: int)
    requires interval > 0 && 0 < j < k
    ensures 0 < interval * j < interval * k
  {
    assert interval * k - interval * j == interval * (k - j);
  }

  /** The step count of every calendar unit, in days or in months, with the unit's own limits. */
  function StepLength(unit: Unit): nat {
    match unit
    case Week => 7
    case Year => 12
    case _ => 1
  }

  lemma ShiftByDaysMeaning(date: Date, days: int)
    requires Representable(date) && days > 0
    ensures ShiftByDays(date, days).Some? <==> DayNumber(date) + days <= DayNumber(LAST_DAY)
    ensures ShiftByDays(date, days).Some? ==>
              Representable(ShiftByDays(date, days).value) && DayNumber(ShiftByDays(date, days).value) == DayNumber(date) + days
  {
    hide AddDays, DayNumber;
    AddDaysMeaning(date, days);
    RangeIsShort(date);
  }

  /** The whole representable range is far shorter than the longest duration. */
  lemma RangeIsShort(date: Date)
    requires Representable(date)
    ensures DayNumber(LAST_DAY) - DayNumber(date) < 200_000_000
  {
    hide DaysBeforeYear;
    DayNumberBounds(date);
    DayNumberBounds(LAST_DAY);
    YearsAscend(MIN_YEAR, date.year);
    YearSpan();
  }

  lemma YearSpan()
    ensures DaysBeforeYear(MAX_YEAR + 1) - DaysBeforeYear(MIN_YEAR) < 200_000_000
  {
  }

  /**
   A day or week shift succeeds exactly when the target day is representable, and lands
   `interval * cycles` days (or weeks) later.
   */
  lemma DayShiftMeaning(date: Date, interval: nat, unit: Unit, cycles: int)
    requires Representable(date) && (unit == Day || unit == Week) && interval > 0 && cycles > 0
    ensures var days := interval * cycles * (if unit == Week then 7 else 1);
      && days > 0
      && (ShiftDate(date, interval, unit, cycles).Some? <==> DayNumber(date) + days <= DayNumber(LAST_DAY))
      && (ShiftDate(date, interval, unit, cycles).Some? ==>
            var r := ShiftDate(date, interval, unit, cycles).value;
            Representable(r) && DayNumber(r) == DayNumber(date) + days)
  {
    hide DayNumber, ShiftByDays;
    var total := interval * cycles;
    RangeIsShort(date);
    ShiftByDaysMeaning(date, total * StepLength(unit));
  }

  lemma MonthShiftMeaning(date: Date, interval: nat, unit: Unit, cycles: int)
    requires Representable(date) && (unit == Month || unit == Year) && interval > 0 && cycles > 0
    ensures var months := interval * cycles * (if unit == Year then 12 else 1);
      && months > 0
      && (ShiftDate(date, interval, unit, cycles).Some? <==> MonthIndex(date) + months < 12 * (MAX_YEAR + 1))
      && (ShiftDate(date, interval, unit, cycles).Some? ==>
            ShiftDate(date, interval, unit, cycles) == AddMonthsClamped(date, months))
  {
    hide AddMonthsClamped;
    AddMonthsMeaning(date, interval * cycles * StepLength(unit));
  }

  /** More cycles fail if fewer do, and otherwise land on a later date. */
  lemma ShiftDateAscends(date: Date, interval: nat, unit: Unit, j: int, k: int)
    requires Representable(date) && 0 < j < k
    requires ShiftDate(date, interval, unit, k).Some?
    ensures ShiftDate(date, interval, unit, j).Some?
    ensures var a, b := ShiftDate(date, interval, unit, j).value, ShiftDate(date, interval, unit, k).value;
      Representable(a) && Representable(b) && DayNumber(a) < DayNumber(b)
  {
    assert interval > 0;
    ProductAscends(interval, j, k);
    if unit == Day || unit == Week {
      DayShiftMeaning(date, interval, unit, j);
      DayShiftMeaning(date, interval, unit, k);
    } else if unit == Month || unit == Year {
      MonthShiftAscends(date, interval, unit, j, k);
    }
  }

  lemma MonthShiftAscends(date: Date, interval: nat, unit: Unit, j: int, k: int)
    requires Representable(date) && 0 < j < k && interval > 0 && (unit == Month || unit == Year)
    requires ShiftDate(date, interval, unit, k).Some?
    ensures ShiftDate(date, interval, unit, j).Some?
    ensures var a, b := ShiftDate(date, interval, unit, j).value, ShiftDate(date, interval, unit, k).value;
      Representable(a) && Representable(b) && DayNumber(a) < DayNumber(b)
  {
    hide ShiftDate, AddMonthsClamped, DayNumber;
    ProductAscends(interval, j, k);
    MonthShiftMeaning(date, interval, unit, j);
    MonthShiftMeaning(date, interval, unit, k);
    var a, b := interval * j * StepLength(unit), interval * k * StepLength(unit);
    AddMonthsMeaning(date, a);
    AddMonthsMeaning(date, b);
    AddMonthsAscends(date, a, b);
    OrderIsDayOrder(ShiftDate(date, interval, unit, j).value, ShiftDate(date, interval, unit, k).value);
  }

  // ----- Shifting date-times -----

  const SECOND := 1_000_000_000
  const DAY := 86_400 * SECOND

  /** Local date and nanosecond of the day, with a fixed offset from UTC in seconds. */
  datatype DateTime = DateTime(date: Date, tick: int, offset: int)

  /** The instant in nanoseconds, counted from the start of day 0 in UTC. */
  function Instant(date: Date, tick: int, offset: int): int
    requires Valid(date)
  {
    DayNumber(date) * DAY + tick - offset * SECOND
  }

  const FIRST_DAY := Date(MIN_YEAR, 1, 1)

  /** The UTC date of the instant is representable. */
  predicate InstantInRange(instant: int) {
    DayNumber(FIRST_DAY) * DAY <= instant < (DayNumber(LAST_DAY) + 1) * DAY
  }

  lemma DayOfInstant(i: int, first: int, last: int)
    ensures first * DAY <= i < (last + 1) * DAY <==> first <= i / DAY <= last
  {
  }

  /** The instant lies on this day of the years -262143 to 262142, from midnight to midnight in UTC. */
  ghost predicate LiesOn(i: int, date: Date) {
    && Valid(date) && -262143 <= date.year <= 262142
    && DayNumber(date) * 86_400_000_000_000 <= i < (DayNumber(date) + 1) * 86_400_000_000_000
  }

  /** The instants in range are those of the representable days. */
  lemma InstantRangeMeaning(i: int)
    ensures InstantInRange(i) <==> exists date :: LiesOn(i, date)
  {
    hide DayNumber, Advance;
    var day, first, last := i / DAY, DayNumber(FIRST_DAY), DayNumber(LAST_DAY);
    DayOfInstant(i, first, last);
    DayOfInstant(i, day, day);
    if InstantInRange(i) {
      var date := Advance(FIRST_DAY, day - first);
      AddDaysMeaning(FIRST_DAY, day - first);
      AdvanceNumber(FIRST_DAY, day - first);
      assert LiesOn(i, date);
    }
    if date :| LiesOn(i, date) {
      OrderIsDayOrder(date, FIRST_DAY);
      OrderIsDayOrder(LAST_DAY, date);
      DayOfInstant(i, DayNumber(date), DayNumber(date));
    }
  }

  predicate ValidDateTime(d: DateTime) {
    && Representable(d.date) && 0 <= d.tick < DAY && -86_400 < d.offset < 86_400
    && InstantInRange(Instant(d.date, d.tick, d.offset))
  }

  function InstantOf(d: DateTime): int
    requires ValidDateTime(d)
  {
    Instant(d.date, d.tick, d.offset)
  }

  /** `d` is how the instant reads at this offset. */
  ghost predicate ReadsAs(d: DateTime, i: int, offset: int) {
    ValidDateTime(d) && d.offset == offset && InstantOf(d) == i
  }

  /** At every offset of less than a day, an instant in range reads as a date-time exactly when its local day is in range. */
  lemma InstantsAreRead(i: int, offset: int)
    requires -86_400 < offset < 86_400
    ensures InstantInRange(i) && InstantInRange(i + offset * 1_000_000_000) <==> exists d :: ReadsAs(d, i, offset)
  {
    hide DayNumber, Advance;
    var local := i + offset * SECOND;
    var day, first, last := local / DAY, DayNumber(FIRST_DAY), DayNumber(LAST_DAY);
    DayOfInstant(local, first, last);
    if InstantInRange(i) && InstantInRange(local) {
      var date := Advance(FIRST_DAY, day - first);
      AddDaysMeaning(FIRST_DAY, day - first);
      AdvanceNumber(FIRST_DAY, day - first);
      assert ReadsAs(DateTime(date, local % DAY, offset), i, offset);
    }
    if d :| ReadsAs(d, i, offset) {
      OrderIsDayOrder(d.date, FIRST_DAY);
      OrderIsDayOrder(LAST_DAY, d.date);
      DayOfInstant(local, DayNumber(d.date), DayNumber(d.date));
    }
  }

  /** No two date-times of one offset are the same instant. */
  lemma InstantsAreReadOnce(d: DateTime, e: DateTime)
    requires ValidDateTime(d) && ValidDateTime(e) && d.offset == e.offset && InstantOf(d) == InstantOf(e)
    ensures d == e
  {
    hide DayNumber;
    var local := InstantOf(d) + d.offset * SECOND;
    DayOfInstant(local, DayNumber(d.date), DayNumber(d.date));
    DayOfInstant(local, DayNumber(e.date), DayNumber(e.date));
    OrderIsDayOrder(d.date, e.date);
    OrderIsDayOrder(e.date, d.date);
  }

  /** The fixed length of a minute or hour recurrence; None sends the caller to the calendar. */
  function DurationForUnit(interval: nat, unit: Unit, cycles: int): Option<int> {
    match TotalSteps(interval, cycles)
    case None => None
    case Some(total) =>
      if unit == Minute then DurationSeconds(total, 60)
      else if unit == Hour then DurationSeconds(total, 3600)
      else None
  }

  /** The instant of the shifted date-time. */
  function ShiftDateTime(d: DateTime, interval: nat, unit: Unit, cycles: int): Option<int>
    requires ValidDateTime(d)
  {
    match DurationForUnit(interval, unit, cycles)
    case Some(seconds) =>
      var instant := InstantOf(d) + seconds * SECOND;
      if InstantInRange(instant) then Some(instant) else None
    case None =>
      match ShiftDate(d.date, interval, unit, cycles)
      case None => None
      case Some(date) =>
        if Valid(date) && InstantInRange(Instant(date, d.tick, d.offset)) then Some(Instant(date, d.tick, d.offset)) else None
  }

  lemma ShiftDateTimeAscends(d: DateTime, interval: nat, unit: Unit, j: int, k: int)
    requires ValidDateTime(d) && 0 < j < k
    requires ShiftDateTime(d, interval, unit, k).Some?
    ensures ShiftDateTime(d, interval, unit, j).Some?
    ensures ShiftDateTime(d, interval, unit, j).value < ShiftDateTime(d, interval, unit, k).value
  {
    hide DayNumber, ShiftDate;
    if interval > 0 {
      ProductAscends(interval, j, k);
    }
    if unit == Minute || unit == Hour {
      NoClockUnitOnDates(d.date, interval, unit, k);
    } else {
      ShiftDateAscends(d.date, interval, unit, j, k);
      ShiftedIsLater(d.date, interval, unit, j);
    }
  }

  lemma NoClockUnitOnDates(date: Date, interval: nat, unit: Unit, cycles: int)
    requires Representable(date) && (unit == Minute || unit == Hour)
    ensures ShiftDate(date, interval, unit, cycles) == None
  {
  }

  lemma ShiftedIsLater(date: Date, interval: nat, unit: Unit, cycles: int)
    requires Representable(date) && ShiftDate(date, interval, unit, cycles).Some?
    ensures Representable(ShiftDate(date, interval, unit, cycles).value)
    ensures DayNumber(date) <= DayNumber(ShiftDate(date, interval, unit, cycles).value)
  {
    hide DayNumber, AddMonthsClamped, ShiftByDays;
    if unit == Day || unit == Week {
      DayShiftMeaning(date, interval, unit, cycles);
    } else {
      MonthShiftMeaning(date, interval, unit, cycles);
      var months := interval * cycles * StepLength(unit);
      AddMonthsMeaning(date, months);
      var r := AddMonthsClamped(date, months).value;
      IndexOrder(date, r);
      OrderIsDayOrder(date, r);
    }
  }

  /** The clock units: exactly that many minutes or hours later, or a failure exactly out of range. */
  lemma ClockShiftMeaning(d: DateTime, interval: nat, unit: Unit, cycles: int)
    requires ValidDateTime(d) && (unit == Minute || unit == Hour) && interval > 0 && cycles > 0
    ensures var later := InstantOf(d) + interval * cycles * (if unit == Minute then 60 else 3600) * 1_000_000_000;
      ShiftDateTime(d, interval, unit, cycles) == if InstantInRange(later) then Some(later) else None
  {
    hide DayNumber;
    var total := interval * cycles;
    assert total > 0;
    ClockRangeIsShort(d, total * (if unit == Minute then 60 else 3600));
  }

  /** A shift that the 64-bit product or the duration type cannot hold leads out of the range. */
  lemma ClockRangeIsShort(d: DateTime, seconds: int)
    requires ValidDateTime(d) && seconds > 0
    ensures seconds > MAX_DURATION_SECONDS ==> !InstantInRange(InstantOf(d) + seconds * SECOND)
  {
    hide DayNumber;
    RangeIsShort(FIRST_DAY);
    assert InstantOf(d) >= DayNumber(FIRST_DAY) * DAY;
  }

  /** Days and weeks are that many times 86400 seconds, as long as the local date and the instant are representable. */
  lemma DayTimeShiftMeaning(d: DateTime, interval: nat, unit: Unit, cycles: int)
    requires ValidDateTime(d) && (unit == Day || unit == Week) && interval > 0 && cycles > 0
    ensures var days := interval * cycles * (if unit == Week then 7 else 1);
      var later := InstantOf(d) + days * 86_400 * 1_000_000_000;
      ShiftDateTime(d, interval, unit, cycles)
      == if DayNumber(d.date) + days <= DayNumber(LAST_DAY) && InstantInRange(later) then Some(later) else None
  {
    hide DayNumber, ShiftDate;
    DayShiftMeaning(d.date, interval, unit, cycles);
  }

  /** Months and years keep the time of day and the offset on the date the month shift gives. */
  lemma MonthTimeShiftMeaning(d: DateTime, interval: nat, unit: Unit, cycles: int)
    requires ValidDateTime(d) && (unit == Month || unit == Year) && interval > 0 && cycles > 0
    ensures var months := interval * cycles * (if unit == Year then 12 else 1);
      var date := AddMonthsClamped(d.date, months);
      var later := if date.Some? && Valid(date.value) then Some(Instant(date.value, d.tick, d.offset)) else None;
      ShiftDateTime(d, interval, unit, cycles) == if later.Some? && InstantInRange(later.value) then later else None
  {
    hide DayNumber, ShiftDate, AddMonthsClamped, Instant;
    MonthShiftMeaning(d.date, interval, unit, cycles);
    AddMonthsMeaning(d.date, interval * cycles * (if unit == Year then 12 else 1));
  }

  /** 09:00 eight hours east of UTC is 01:00 in UTC: the offset is subtracted. */
  lemma OffsetIsSubtracted(date: Date, tick: int, offset: int)
    requires Valid(date)
    ensures Instant(date, tick + offset * 1_000_000_000, offset) == Instant(date, tick, 0)
  {
  }

  // ----- The search -----

  /** False, then true, then undefined as the count grows from 1 to `max`. */
  ghost predicate Staged(isAfter: int -> Option<bool>, max: int) {
    forall j, k :: 0 < j < k <= max ==>
      && (isAfter(j) == Some(true) ==> isAfter(k) != Some(false))
      && (isAfter(j) == None ==> isAfter(k) == None)
  }

  /** `r` is the least count within the bound for which the answer is yes, or there is none. */
  ghost predicate IsLeast(isAfter: int -> Option<bool>, max: int, r: Option<int>) {
    match r
    case Some(c) => 0 < c <= max && isAfter(c) == Some(true) && forall j :: 0 < j < c ==> isAfter(j) != Some(true)
    case None => forall j :: 0 < j <= max ==> isAfter(j) != Some(true)
  }

  lemma FalseBelow(isAfter: int -> Option<bool>, max: int, k: int)
    requires Staged(isAfter, max) && 0 < k <= max && isAfter(k) == Some(false)
    ensures forall j :: 0 < j <= k ==> isAfter(j) == Some(false)
  {
    forall j | 0 < j < k
      ensures isAfter(j) == Some(false)
    {
      match isAfter(j)
      case None =>
      case Some(b) =>
    }
  }

  /** Binary search over a predicate that may be undefined for large counts. */
  method FindCyclesToAdvanceAfter(maxCycles: int, isAfter: int -> Option<bool>) returns (r: Option<int>)
    ensures r.Some? ==> 0 < r.value <= maxCycles && isAfter(r.value) == Some(true)
    ensures Staged(isAfter, maxCycles) ==> IsLeast(isAfter, maxCycles, r)
  {
    if maxCycles <= 0 {
      return None;
    }
    if isAfter(maxCycles) == Some(false) {
      if Staged(isAfter, maxCycles) {
        FalseBelow(isAfter, maxCycles, maxCycles);
      }
      return None;
    }
    var left, right := 1, maxCycles;
    while left < right
      invariant 1 <= left <= right <= maxCycles
      invariant Staged(isAfter, maxCycles) ==> forall j :: 0 < j < left ==> isAfter(j) == Some(false)
      invariant isAfter(right) != Some(false)
    {
      var mid := left + (right - left) / 2;
      if isAfter(mid) == Some(false) {
        if Staged(isAfter, maxCycles) {
          FalseBelow(isAfter, maxCycles, mid);
        }
        left := mid + 1;
      } else {
        right := mid;
      }
    }
    match isAfter(left)
    case Some(after) => r := if after then Some(left) else None;
    case None => r := None;
  }

  function DateIsAfter(anchor: Date, now: Date, interval: nat, unit: Unit): int -> Option<bool>
    requires Representable(anchor)
  {
    (cycles: int) =>
      match ShiftDate(anchor, interval, unit, cycles)
      case None => None
      case Some(r) => Some(Earlier(now, r))
  }

  function DateTimeIsAfter(anchor: DateTime, now: DateTime, interval: nat, unit: Unit): int -> Option<bool>
    requires ValidDateTime(anchor) && ValidDateTime(now)
  {
    (cycles: int) =>
      match ShiftDateTime(anchor, interval, unit, cycles)
      case None => None
      case Some(r) => Some(r > InstantOf(now))
  }

  lemma DateIsStaged(anchor: Date, now: Date, interval: nat, unit: Unit, max: int)
    requires Representable(anchor) && Representable(now)
    ensures Staged(DateIsAfter(anchor, now, interval, unit), max)
  {
    hide ShiftDate, DayNumber;
    var f := DateIsAfter(anchor, now, interval, unit);
    forall j, k | 0 < j < k <= max
      ensures f(j) == Some(true) ==> f(k) != Some(false)
      ensures f(j) == None ==> f(k) == None
    {
      if f(k) != None {
        ShiftDateAscends(anchor, interval, unit, j, k);
        var a, b := ShiftDate(anchor, interval, unit, j).value, ShiftDate(anchor, interval, unit, k).value;
        OrderIsDayOrder(now, a);
        OrderIsDayOrder(now, b);
      }
    }
  }

  lemma DateTimeIsStaged(anchor: DateTime, now: DateTime, interval: nat, unit: Unit, max: int)
    requires ValidDateTime(anchor) && ValidDateTime(now)
    ensures Staged(DateTimeIsAfter(anchor, now, interval, unit), max)
  {
    hide ShiftDateTime, InstantOf;
    var f := DateTimeIsAfter(anchor, now, interval, unit);
    forall j, k | 0 < j < k <= max
      ensures f(j) == Some(true) ==> f(k) != Some(false)
      ensures f(j) == None ==> f(k) == None
    {
      if f(k) != None {
        ShiftDateTimeAscends(anchor, interval, unit, j, k);
      }
    }
  }

  /** The least count whose shifted date is representable and after `now`; None when there is none. */
  method CyclesToAdvanceDateAfterCalendar(anchor: Date, now: Date, interval: nat, unit: Unit, maxCycles: int)
    returns (r: Option<int>)
    requires Representable(anchor) && Representable(now)
    ensures IsLeast(DateIsAfter(anchor, now, interval, unit), maxCycles, r)
  {
    DateIsStaged(anchor, now, interval, unit, maxCycles);
    r := FindCyclesToAdvanceAfter(maxCycles, DateIsAfter(anchor, now, interval, unit));
  }

  method CyclesToAdvanceDateTimeAfterCalendar(anchor: DateTime, now: DateTime, interval: nat, unit: Unit,
      maxCycles: int)
    returns (r: Option<int>)
    requires ValidDateTime(anchor) && ValidDateTime(now)
    ensures IsLeast(DateTimeIsAfter(anchor, now, interval, unit), maxCycles, r)
  {
    DateTimeIsStaged(anchor, now, interval, unit, maxCycles);
    r := FindCyclesToAdvanceAfter(maxCycles, DateTimeIsAfter(anchor, now, interval, unit));
  }

  // ----- The closed form for whole days -----

  /** The direct formula for a local date. */
  function CyclesAfterDate(anchor: Date, now: Date, intervalDays: nat, maxCycles: int): Option<int>
    requires Valid(anchor) && Valid(now)
  {
    if intervalDays == 0 || maxCycles <= 0 then None
    else
      var cycles := if Earlier(now, anchor) then 1 else (DayNumber(now) - DayNumber(anchor)) / intervalDays + 1;
      if 1 <= cycles <= maxCycles then Some(cycles) else None
  }

  /** The direct formula for a date-time: whole elapsed seconds over the step. */
  function CyclesAfterDateTime(anchor: DateTime, now: DateTime, intervalDays: nat, maxCycles: int): Option<int>
    requires ValidDateTime(anchor) && ValidDateTime(now)
  {
    var step := intervalDays * 86_400;
    if step > I64_MAX || step <= 0 || maxCycles <= 0 then None
    else
      var cycles := if InstantOf(anchor) > InstantOf(now) then 1
                    else ((InstantOf(now) - InstantOf(anchor)) / SECOND) / step + 1;
      if 1 <= cycles <= maxCycles then Some(cycles) else None
  }

  /** `c` is the least count with `c * step > gap`. */
  lemma QuotientIsLeast(gap: int, step: int, c: int)
    requires step > 0 && gap >= 0 && c == gap / step + 1
    ensures c >= 1 && c * step > gap
    ensures forall j :: 0 < j < c ==> j * step <= gap
  {
    forall j | 0 < j < c
      ensures j * step <= gap
    {
      assert j * step <= (c - 1) * step by { assert (c - 1 - j) * step >= 0; }
    }
  }

  /** The count the closed form yields before the bound is applied. */
  function DayCount(gap: int, step: int): int
    requires step > 0
  {
    if gap < 0 then 1 else gap / step + 1
  }

  lemma DayCountIsLeast(gap: int, step: int, j: int)
    requires step > 0 && j > 0
    ensures DayCount(gap, step) >= 1
    ensures j * step > gap <==> j >= DayCount(gap, step)
  {
    if gap < 0 {
      assert j * step > 0;
    } else {
      var c := gap / step + 1;
      QuotientIsLeast(gap, step, c);
      if j >= c {
        assert j * step >= c * step by { assert (j - c) * step >= 0; }
      }
    }
  }

  /** The answer of a search whose predicate is "representable, and at least `c`". */
  lemma SearchOverThreshold(f: int -> Option<bool>, max: int, r: Option<int>, c: int)
    requires c >= 1 && IsLeast(f, max, r)
    requires forall j :: 0 < j <= max ==> (f(j) == None || f(j) == Some(j >= c))
    requires forall j, k :: 0 < j < k <= max && f(k) != None ==> f(j) != None
    ensures r == if c <= max && f(c) != None then Some(c) else None
  {
    if r.Some? {
      assert r.value >= c;
      assert c < r.value ==> f(c) != None;
    }
  }

  /** How the day search answers at each count. */
  lemma DayPredicate(anchor: Date, now: Date, interval: nat, unit: Unit, j: int)
    requires Representable(anchor) && Representable(now) && (unit == Day || unit == Week) && interval > 0 && j > 0
    ensures var f := DateIsAfter(anchor, now, interval, unit);
      var c := DayCount(DayNumber(now) - DayNumber(anchor), interval * StepLength(unit));
      && (f(j) == None <==> ShiftDate(anchor, interval, unit, j) == None)
      && (f(j) == None || f(j) == Some(j >= c))
  {
    hide ShiftDate, DayNumber, DayCount;
    var step := interval * StepLength(unit);
    DayShiftMeaning(anchor, interval, unit, j);
    assert interval * j * StepLength(unit) == j * step;
    DayCountIsLeast(DayNumber(now) - DayNumber(anchor), step, j);
    if ShiftDate(anchor, interval, unit, j).Some? {
      OrderIsDayOrder(now, ShiftDate(anchor, interval, unit, j).value);
    }
  }

  /**
   The closed form and the search agree: the search with unit Day (or with unit Week and the
   interval in weeks) returns the formula's count exactly when the date it leads to is
   representable, and nothing otherwise.
   */
  lemma ClosedFormIsTheDateSearch(anchor: Date, now: Date, interval: nat, unit: Unit, max: int, r: Option<int>)
    requires Representable(anchor) && Representable(now) && (unit == Day || unit == Week)
    requires IsLeast(DateIsAfter(anchor, now, interval, unit), max, r)
    ensures var closed := CyclesAfterDate(anchor, now, interval * StepLength(unit), max);
      r == if closed.Some? && ShiftDate(anchor, interval, unit, closed.value).Some? then closed else None
  {
    hide ShiftDate, DayNumber;
    var f := DateIsAfter(anchor, now, interval, unit);
    if interval == 0 {
      forall j | 0 < j <= max
        ensures f(j) == None
      {
        ZeroIntervalFails(anchor, unit, j);
      }
    } else {
      var gap, step := DayNumber(now) - DayNumber(anchor), interval * StepLength(unit);
      OrderIsDayOrder(now, anchor);
      DayCountIsLeast(gap, step, 1);
      forall j | 0 < j <= max
        ensures f(j) == None || f(j) == Some(j >= DayCount(gap, step))
      {
        DayPredicate(anchor, now, interval, unit, j);
      }
      DateIsStaged(anchor, now, interval, unit, max);
      SearchOverThreshold(f, max, r, DayCount(gap, step));
    }
  }

  /** With an anchor on the last day the closed form names a count, and the search finds none. */
  lemma ClosedFormPassesTheLastDay(r: Option<int>)
    requires IsLeast(DateIsAfter(LAST_DAY, LAST_DAY, 1, Day), 1, r)
    ensures CyclesAfterDate(LAST_DAY, LAST_DAY, 1, 1) == Some(1) && r == None
  {
    hide DayNumber, ShiftDate, AddDays;
    ClosedFormIsTheDateSearch(LAST_DAY, LAST_DAY, 1, Day, 1, r);
    DayShiftMeaning(LAST_DAY, 1, Day, 1);
  }

  lemma ZeroIntervalFails(anchor: Date, unit: Unit, j: int)
    requires Representable(anchor)
    ensures ShiftDate(anchor, 0, unit, j) == None
  {
  }

  lemma DayDateTimePredicate(anchor: DateTime, now: DateTime, interval: nat, unit: Unit, j: int)
    requires ValidDateTime(anchor) && ValidDateTime(now) && (unit == Day || unit == Week) && interval > 0 && j > 0
    ensures var f := DateTimeIsAfter(anchor, now, interval, unit);
      var c := DayCount(InstantOf(now) - InstantOf(anchor), interval * StepLength(unit) * DAY);
      && (f(j) == None <==> ShiftDateTime(anchor, interval, unit, j) == None)
      && (f(j) == None || f(j) == Some(j >= c))
  {
    hide ShiftDate, DayNumber, DayCount;
    var step := interval * StepLength(unit);
    DayShiftMeaning(anchor.date, interval, unit, j);
    assert interval * j * StepLength(unit) == j * step;
    assert j * (step * DAY) == j * step * DAY;
    assert step * DAY > 0;
    DayCountIsLeast(InstantOf(now) - InstantOf(anchor), step * DAY, j);
  }

  /** Dividing whole seconds by whole-second steps is dividing nanoseconds by the step. */
  lemma SecondsThenSteps(gap: int, stepSeconds: int)
    requires stepSeconds > 0 && gap >= 0
    ensures (gap / SECOND) / stepSeconds == gap / (stepSeconds * SECOND)
  {
    var q := gap / SECOND;
    var c := q / stepSeconds;
    var r := q % stepSeconds;
    assert q == c * stepSeconds + r;
    assert gap == q * SECOND + gap % SECOND;
    var low := r * SECOND + gap % SECOND;
    assert 0 <= low < stepSeconds * SECOND by {
      assert (r + 1) * SECOND <= stepSeconds * SECOND;
    }
    assert gap == c * (stepSeconds * SECOND) + low;
    var d := stepSeconds * SECOND;
    assert gap == (gap / d) * d + gap % d;
    UniqueQuotient(d, gap / d, gap % d, c, low);
  }

  lemma UniqueQuotient(d: int, q: int, r: int, q': int, r': int)
    requires q * d + r == q' * d + r' && 0 <= r < d && 0 <= r' < d
    ensures q == q'
  {
    if q > q' {
      MulAtLeast(q - q', d);
    } else if q < q' {
      MulAtLeast(q' - q, d);
    }
  }

  lemma MulAtLeast(k: int, d: int)
    requires k >= 1 && d >= 0
    ensures k * d >= d
  {
  }

  lemma NoDaysNoCycles(anchor: DateTime, now: DateTime, max: int)
    requires ValidDateTime(anchor) && ValidDateTime(now)
    ensures CyclesAfterDateTime(anchor, now, 0, max) == None
  {
  }

  lemma ClosedFormIs(anchor: DateTime, now: DateTime, days: nat, max: int)
    requires ValidDateTime(anchor) && ValidDateTime(now) && days > 0 && days * 86_400 <= I64_MAX
    ensures var count := DayCount(InstantOf(now) - InstantOf(anchor), days * DAY);
      CyclesAfterDateTime(anchor, now, days, max) == if count <= max then Some(count) else None
  {
    hide InstantOf;
    var gap := InstantOf(now) - InstantOf(anchor);
    assert days * DAY == days * 86_400 * SECOND && days * DAY > 0;
    if gap >= 0 {
      SecondsThenSteps(gap, days * 86_400);
    }
    DayCountIsLeast(gap, days * DAY, 1);
  }

  /** The same agreement for date-times: seconds, offset and nanoseconds included. */
  lemma ClosedFormIsTheDateTimeSearch(anchor: DateTime, now: DateTime, interval: nat, unit: Unit, max: int,
      r: Option<int>)
    requires ValidDateTime(anchor) && ValidDateTime(now) && (unit == Day || unit == Week)
    requires interval * StepLength(unit) * 86_400 <= I64_MAX
    requires IsLeast(DateTimeIsAfter(anchor, now, interval, unit), max, r)
    ensures var closed := CyclesAfterDateTime(anchor, now, interval * StepLength(unit), max);
      r == if closed.Some? && ShiftDateTime(anchor, interval, unit, closed.value).Some? then closed else None
  {
    hide ShiftDateTime, InstantOf, CyclesAfterDateTime, DayCount;
    var f := DateTimeIsAfter(anchor, now, interval, unit);
    if interval == 0 {
      NoDaysNoCycles(anchor, now, max);
      forall j | 0 < j <= max
        ensures f(j) == None
      {
        ZeroIntervalFailsDateTime(anchor, unit, j);
      }
    } else {
      var gap, step := InstantOf(now) - InstantOf(anchor), interval * StepLength(unit) * DAY;
      ClosedFormIs(anchor, now, interval * StepLength(unit), max);
      DayCountIsLeast(gap, step, 1);
      forall j | 0 < j <= max
        ensures f(j) == None || f(j) == Some(j >= DayCount(gap, step))
      {
        DayDateTimePredicate(anchor, now, interval, unit, j);
      }
      DateTimeIsStaged(anchor, now, interval, unit, max);
      SearchOverThreshold(f, max, r, DayCount(gap, step));
    }
  }

  /** The nanoseconds of one cycle of minutes or hours. */
  ghost function ClockStep(interval: nat, unit: Unit): int {
    interval * (if unit == Minute then 60 else 3600) * 1_000_000_000
  }

  lemma ClockStepMeaning(d: DateTime, interval: nat, unit: Unit, cycles: int)
    requires ValidDateTime(d) && (unit == Minute || unit == Hour) && interval > 0 && cycles > 0
    ensures var later := InstantOf(d) + cycles * ClockStep(interval, unit);
      ShiftDateTime(d, interval, unit, cycles) == if InstantInRange(later) then Some(later) else None
    ensures ClockStep(interval, unit) > 0
  {
    hide ShiftDateTime, InstantOf, InstantInRange;
    var seconds := if unit == Minute then 60 else 3600;
    ClockShiftMeaning(d, interval, unit, cycles);
    assert interval * cycles * seconds * 1_000_000_000 == cycles * (interval * seconds * 1_000_000_000);
  }

  /** How the clock search answers at each count. */
  lemma ClockPredicate(anchor: DateTime, now: DateTime, interval: nat, unit: Unit, j: int)
    requires ValidDateTime(anchor) && ValidDateTime(now) && (unit == Minute || unit == Hour) && interval > 0 && j > 0
    ensures ClockStep(interval, unit) > 0
    ensures var f := DateTimeIsAfter(anchor, now, interval, unit);
      var count := DayCount(InstantOf(now) - InstantOf(anchor), ClockStep(interval, unit));
      && (f(j) == None <==> !InstantInRange(InstantOf(anchor) + j * ClockStep(interval, unit)))
      && (f(j) == None || f(j) == Some(j >= count))
  {
    hide ShiftDateTime, InstantOf, DayCount, ClockStep, InstantInRange;
    ClockStepMeaning(anchor, interval, unit, j);
    DayCountIsLeast(InstantOf(now) - InstantOf(anchor), ClockStep(interval, unit), j);
  }

  /**
   By minutes or hours the search returns one more than the whole steps elapsed, or 1 for an anchor
   that is still ahead, exactly when that is within the bound and its instant representable.
   */
  lemma ClockSearchIsTheQuotient(anchor: DateTime, now: DateTime, interval: nat, unit: Unit, max: int, r: Option<int>)
    requires ValidDateTime(anchor) && ValidDateTime(now) && (unit == Minute || unit == Hour) && interval > 0
    requires IsLeast(DateTimeIsAfter(anchor, now, interval, unit), max, r)
    ensures var step := interval * (if unit == Minute then 60 else 3600) * 1_000_000_000;
      var elapsed := InstantOf(now) - InstantOf(anchor);
      var count := if elapsed < 0 then 1 else elapsed / step + 1;
      r == if count <= max && InstantInRange(InstantOf(anchor) + count * step) then Some(count) else None
  {
    ClockSearchByStep(anchor, now, interval, unit, max, r);
  }

  lemma ClockSearchByStep(anchor: DateTime, now: DateTime, interval: nat, unit: Unit, max: int, r: Option<int>)
    requires ValidDateTime(anchor) && ValidDateTime(now) && (unit == Minute || unit == Hour) && interval > 0
    requires IsLeast(DateTimeIsAfter(anchor, now, interval, unit), max, r)
    ensures ClockStep(interval, unit) > 0
    ensures var count := DayCount(InstantOf(now) - InstantOf(anchor), ClockStep(interval, unit));
      r == if count <= max && InstantInRange(InstantOf(anchor) + count * ClockStep(interval, unit))
           then Some(count) else None
  {
    hide ShiftDateTime, InstantOf, InstantInRange, ClockStep, DayCount, DateTimeIsAfter;
    var f := DateTimeIsAfter(anchor, now, interval, unit);
    ClockPredicate(anchor, now, interval, unit, 1);
    var count := DayCount(InstantOf(now) - InstantOf(anchor), ClockStep(interval, unit));
    DayCountIsLeast(InstantOf(now) - InstantOf(anchor), ClockStep(interval, unit), 1);
    forall j | 0 < j <= max
      ensures f(j) == None || f(j) == Some(j >= count)
    {
      ClockPredicate(anchor, now, interval, unit, j);
    }
    DateTimeIsStaged(anchor, now, interval, unit, max);
    SearchOverThreshold(f, max, r, count);
    ClockPredicate(anchor, now, interval, unit, count);
  }

  lemma ZeroIntervalFailsDateTime(anchor: DateTime, unit: Unit, j: int)
    requires ValidDateTime(anchor)
    ensures ShiftDateTime(anchor, 0, unit, j) == None
  {
    ZeroIntervalFails(anchor.date, unit, j);
  }
}
