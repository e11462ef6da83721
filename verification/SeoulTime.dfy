/** Seoul calendar arithmetic over UTC milliseconds.
    The day, month and year numbers follow section 21.4.1 of ECMA-262. */
module SeoulTime {

  const DAY_MS: int := 86_400_000
  const MINUTE_MS: int := 60_000
  const SEOUL_OFFSET_MS: int := 9 * 60 * 60 * 1000

  // ---------------------------------------------------------------- ECMA-262 days and years

  function Day(t: int): int { t / DAY_MS }

  function TimeWithinDay(t: int): int { t % DAY_MS }

  /** The day number of 1 January of year y. */
  function DayFromYear(y: int): int {
    365 * (y - 1970) + (y - 1969) / 4 - (y - 1901) / 100 + (y - 1601) / 400
  }

  predicate InLeapYear(y: int) { y % 4 == 0 && (y % 100 != 0 || y % 400 == 0) }

  function DaysInYear(y: int): int { if InLeapYear(y) then 366 else 365 }

  /** floor((y + 1 - c) / k) steps exactly at the multiples of k. */
  lemma FloorStep(y: int, c: int, k: int)
    requires k > 1 && c % k == 1
    ensures (y + 1 - c) / k == (y - c) / k + (if y % k == 0 then 1 else 0)
  {
    var q, r, e := y / k, y % k, c / k;
    assert y == k * q + r && c == k * e + 1;
    if r == 0 {
      Quotient(y - c, k, q - e - 1, k - 1);
      Quotient(y + 1 - c, k, q - e, 0);
    } else {
      Quotient(y - c, k, q - e, r - 1);
      Quotient(y + 1 - c, k, q - e, r);
    }
  }

  lemma Quotient(x: int, k: int, q: int, r: int)
    requires k > 0 && 0 <= r < k && x == k * q + r
    ensures x / k == q && x % k == r
  {
    var d := x / k - q;
    assert k * d == r - x % k by { assert x == k * (x / k) + x % k; }
    assert d >= 1 ==> k * d >= k;
    assert d <= -1 ==> k * d <= -k;
  }

  lemma YearLength(y: int)
    ensures DayFromYear(y + 1) == DayFromYear(y) + DaysInYear(y)
  {
    FloorStep(y, 1969, 4);
    FloorStep(y, 1901, 100);
    FloorStep(y, 1601, 400);
    if y % 100 == 0 { Multiples(y, 4, 100); }
    if y % 400 == 0 { Multiples(y, 100, 400); }
  }

  lemma Multiples(y: int, k: int, n: int)
    requires k > 0 && n > 0 && n % k == 0 && y % n == 0
    ensures y % k == 0
  {
    assert y == k * (n / k * (y / n)) by { assert n == k * (n / k) && y == n * (y / n); }
    Quotient(y, k, n / k * (y / n), 0);
  }

  lemma {:induction false} YearsIncrease(y: int, z: int)
    requires y <= z
    ensures DayFromYear(z) >= DayFromYear(y) + 365 * (z - y)
    decreases z - y
  {
    if y < z {
      YearsIncrease(y, z - 1);
      YearLength(z - 1);
    }
  }

  /** Walks up to the largest year that starts on or before day d. */
  function YearUp(y: int, d: int): (r: int)
    requires DayFromYear(y) <= d
    ensures DayFromYear(r) <= d < DayFromYear(r + 1)
    decreases d - DayFromYear(y)
  {
    YearLength(y);
    if d < DayFromYear(y + 1) then y else YearUp(y + 1, d)
  }

  /** A year that certainly starts on or before day d. */
  function YearFloor(d: int): (y: int)
    ensures DayFromYear(y) <= d
  {
    if d >= 0 then 1970 + d / 366
    else
      YearsIncrease(1970 + d / 365, 1970);
      1970 + d / 365
  }

  function YearFromDay(d: int): (y: int)
    ensures DayFromYear(y) <= d < DayFromYear(y + 1)
  {
    YearUp(YearFloor(d), d)
  }

  // ---------------------------------------------------------------- months

  /** Days of the year before month m (0 is January, 12 closes the year). */
  function DaysBefore(m: int, leap: bool): int
    requires 0 <= m <= 12
  {
    var l := if leap then 1 else 0;
    [0, 31, 59 + l, 90 + l, 120 + l, 151 + l, 181 + l, 212 + l, 243 + l, 273 + l, 304 + l, 334 + l, 365 + l][m]
  }

  function MonthInYear(x: int, leap: bool): (m: int)
    requires 0 <= x < DaysBefore(12, leap)
    ensures 0 <= m < 12 && DaysBefore(m, leap) <= x < DaysBefore(m + 1, leap)
  {
    if x < DaysBefore(1, leap) then 0 else if x < DaysBefore(2, leap) then 1
    else if x < DaysBefore(3, leap) then 2 else if x < DaysBefore(4, leap) then 3
    else if x < DaysBefore(5, leap) then 4 else if x < DaysBefore(6, leap) then 5
    else if x < DaysBefore(7, leap) then 6 else if x < DaysBefore(8, leap) then 7
    else if x < DaysBefore(9, leap) then 8 else if x < DaysBefore(10, leap) then 9
    else if x < DaysBefore(11, leap) then 10 else 11
  }

  lemma DayOfYearRange(d: int)
    ensures 0 <= d - DayFromYear(YearFromDay(d)) < DaysBefore(12, InLeapYear(YearFromDay(d)))
  {
    YearLength(YearFromDay(d));
  }

  /** Months counted from January of year 0. */
  function MonthIndex(d: int): int {
    var y := YearFromDay(d);
    DayOfYearRange(d);
    12 * y + MonthInYear(d - DayFromYear(y), InLeapYear(y))
  }

  /** The day number of the first of the month with that index. */
  function FirstOfMonth(index: int): int {
    DayFromYear(index / 12) + DaysBefore(index % 12, InLeapYear(index / 12))
  }

  function MonthLength(index: int): int { FirstOfMonth(index + 1) - FirstOfMonth(index) }

  /** Day of the month, from 1. */
  function DateOf(d: int): int { d - FirstOfMonth(MonthIndex(d)) + 1 }

  lemma NextMonth(index: int)
    ensures FirstOfMonth(index + 1)
         == DayFromYear(index / 12) + DaysBefore(index % 12 + 1, InLeapYear(index / 12))
    ensures 28 <= MonthLength(index) <= 31
  {
    hide DayFromYear, InLeapYear;
    var y, m := index / 12, index % 12;
    YearLength(y);
    if m == 11 {
      Quotient(index + 1, 12, y + 1, 0);
    } else {
      Quotient(index + 1, 12, y, m + 1);
    }
  }

  /** A day lies between the first days of its month and of the next. */
  lemma MonthBrackets(d: int)
    ensures FirstOfMonth(MonthIndex(d)) <= d < FirstOfMonth(MonthIndex(d) + 1)
    ensures 1 <= DateOf(d) <= MonthLength(MonthIndex(d))
  {
    hide DayFromYear, InLeapYear, YearFromDay, DaysBefore, MonthInYear;
    var y := YearFromDay(d);
    DayOfYearRange(d);
    var m := MonthInYear(d - DayFromYear(y), InLeapYear(y));
    Quotient(12 * y + m, 12, y, m);
    NextMonth(12 * y + m);
  }

  lemma {:induction false} MonthsIncrease(i: int, j: int)
    requires i <= j
    ensures FirstOfMonth(j) >= FirstOfMonth(i) + 28 * (j - i)
    decreases j - i
  {
    hide FirstOfMonth;
    if i < j {
      MonthsIncrease(i, j - 1);
      NextMonth(j - 1);
    }
  }

  lemma MonthIsUnique(i: int, d: int)
    requires FirstOfMonth(i) <= d < FirstOfMonth(i + 1)
    ensures MonthIndex(d) == i
  {
    hide FirstOfMonth, MonthIndex;
    MonthBrackets(d);
    var j := MonthIndex(d);
    if j < i { MonthsIncrease(j + 1, i); }
    if i < j { MonthsIncrease(i + 1, j); }
  }

  /** April, June, September and November have 30 days and February at most 29. */
  lemma MonthLengthBound(y: int, m: int)
    requires 0 <= m < 12
    ensures MonthLength(12 * y + m) <= if m in {3, 5, 8, 10} then 30 else if m == 1 then 29 else 31
  {
    hide DayFromYear, InLeapYear;
    Quotient(12 * y + m, 12, y, m);
    NextMonth(12 * y + m);
  }

  /** Any three consecutive months have at most 92 days. */
  lemma ThreeMonths(index: int)
    ensures FirstOfMonth(index + 3) - FirstOfMonth(index) <= 92
  {
    hide FirstOfMonth;
    var y, m := index / 12, index % 12;
    MonthLengthBound(y, m);
    if m < 10 {
      MonthLengthBound(y, m + 1);
      MonthLengthBound(y, m + 2);
    } else {
      MonthLengthBound(if m == 11 then y + 1 else y, (m + 1) % 12);
      MonthLengthBound(y + 1, (m + 2) % 12);
    }
  }

  // ---------------------------------------------------------------- Date.UTC

  /** Date.UTC reads years 0 to 99 as 1900 to 1999 (MakeFullYear). */
  function FullYear(y: int): int { if 0 <= y <= 99 then 1900 + y else y }

  /** MakeDay: month and date may lie outside their ranges and carry over. */
  function MakeDay(year: int, month: int, date: int): int {
    FirstOfMonth(12 * year + month) + date - 1
  }

  function DateUTC(year: int, month: int, date: int, time: int): int {
    MakeDay(FullYear(year), month, date) * DAY_MS + time
  }

  // ---------------------------------------------------------------- seoul-time.ts

  function Local(t: int): int { t + SEOUL_OFFSET_MS }

  /** The year that the Seoul wall clock shows. */
  function SeoulYear(t: int): int { YearFromDay(Day(Local(t))) }

  /** Seoul calendar dates are day numbers here, not YYYY-MM-DD strings. */
  function SeoulDate(t: int): int { Day(Local(t)) }

  function StartOfSeoulDay(day: int): int { day * DAY_MS - SEOUL_OFFSET_MS }

  predicate IsSeoulMidnight(t: int) { StartOfSeoulDay(SeoulDate(t)) == t }

  function AddSeoulDays(day: int, days: int): int {
    SeoulDate(StartOfSeoulDay(day) + days * DAY_MS)
  }

  function SeoulMinuteOfDay(t: int): int {
    var time := TimeWithinDay(Local(t));
    time / 3_600_000 * 60 + time / MINUTE_MS % 60
  }

  function Min(a: int, b: int): int { if a <= b then a else b }

  function AddMonthsInSeoul(t: int, months: int): int {
    var local := Local(t);
    var year := YearFromDay(Day(local));
    var month := MonthIndex(Day(local)) - 12 * year + months;
    var lastDay := DateOf(Day(DateUTC(year, month + 1, 0, 0)));
    DateUTC(year, month, Min(DateOf(Day(local)), lastDay), TimeWithinDay(local)) - SEOUL_OFFSET_MS
  }

  lemma DayBounds(day: int, t: int)
    ensures SeoulDate(t) == day <==> StartOfSeoulDay(day) <= t < StartOfSeoulDay(day + 1)
  {
    var x := Local(t);
    assert x == DAY_MS * (x / DAY_MS) + x % DAY_MS;
  }

  lemma AddDaysIsAddition(day: int, days: int)
    ensures AddSeoulDays(day, days) == day + days
  {
    DayBounds(day + days, StartOfSeoulDay(day) + days * DAY_MS);
  }

  /** The wall clock stands nine hours ahead: the epoch is nine in the morning in Seoul, and
      1 January 2026 began there at fifteen hours UTC on the day before. */
  lemma SeoulIsNineHoursAhead()
    ensures SeoulDate(0) == 0 && SeoulMinuteOfDay(0) == 9 * 60
    ensures StartOfSeoulDay(20454) == 1_767_193_200_000 && IsSeoulMidnight(1_767_193_200_000)
    ensures forall day :: StartOfSeoulDay(day + 1) - StartOfSeoulDay(day) == 24 * 60 * 60 * 1000
  {
  }

  /** An instant is the start of its Seoul day plus the time of day. */
  lemma DaySplit(t: int)
    ensures t == StartOfSeoulDay(SeoulDate(t)) + TimeWithinDay(Local(t))
    ensures 0 <= TimeWithinDay(Local(t)) < DAY_MS
  {
    var x := Local(t);
    assert x == DAY_MS * (x / DAY_MS) + x % DAY_MS;
  }

  lemma DatesInOrder(s: int, t: int)
    requires s <= t
    ensures SeoulDate(s) <= SeoulDate(t)
  {
    hide SeoulDate, Local, TimeWithinDay;
    DaySplit(s);
    DaySplit(t);
  }

  lemma YearOfMonthIndex(t: int)
    ensures SeoulYear(t) == MonthIndex(SeoulDate(t)) / 12
  {
    hide DayFromYear, YearFromDay, InLeapYear;
    var d := SeoulDate(t);
    DayOfYearRange(d);
    Quotient(MonthIndex(d), 12, YearFromDay(d), MonthIndex(d) - 12 * YearFromDay(d));
  }

  /** Hours times sixty plus minutes is the minute of the day, 0 to 1439. */
  lemma MinuteOfDay(t: int)
    ensures SeoulMinuteOfDay(t) == Local(t) / MINUTE_MS % 1440
    ensures 0 <= SeoulMinuteOfDay(t) < 1440
  {
    var x := Local(t);
    var d, time := x / DAY_MS, x % DAY_MS;
    assert x == DAY_MS * d + time && 0 <= time < DAY_MS;
    var m, s := time / MINUTE_MS, time % MINUTE_MS;
    assert time == MINUTE_MS * m + s && 0 <= m < 1440;
    Quotient(x, MINUTE_MS, 1440 * d + m, s);
    Quotient(1440 * d + m, 1440, d, m);
    Quotient(time, 3_600_000, m / 60, MINUTE_MS * (m % 60) + s);
  }

  /** The shift that MakeFullYear adds, in months. */
  function CenturyShift(year: int): int { if 0 <= year <= 99 then 12 * 1900 else 0 }

  /** What addMonthsInSeoul computes, for every input: the target month, the clamped date, the same wall clock. */
  lemma AddMonthsResult(t: int, months: int)
    ensures var d, e := SeoulDate(t), SeoulDate(AddMonthsInSeoul(t, months));
            && MonthIndex(e) == MonthIndex(d) + months + CenturyShift(SeoulYear(t))
            && DateOf(e) == Min(DateOf(d), MonthLength(MonthIndex(e)))
            && TimeWithinDay(Local(AddMonthsInSeoul(t, months))) == TimeWithinDay(Local(t))
  {
    hide FirstOfMonth, MonthIndex, YearFromDay;
    var d := SeoulDate(t);
    var year := SeoulYear(t);
    var index := MonthIndex(d) + months + CenturyShift(year);
    MonthBrackets(d);
    // the last day of the target month
    var last := MakeDay(FullYear(year), MonthIndex(d) - 12 * year + months + 1, 0);
    assert last == FirstOfMonth(index + 1) - 1;
    NextMonth(index);
    MonthIsUnique(index, last);
    Quotient(last * DAY_MS, DAY_MS, last, 0);
    var date := Min(DateOf(d), MonthLength(index));
    var e := FirstOfMonth(index) + date - 1;
    var time := TimeWithinDay(Local(t));
    assert AddMonthsInSeoul(t, months) == e * DAY_MS + time - SEOUL_OFFSET_MS;
    Quotient(Local(AddMonthsInSeoul(t, months)), DAY_MS, e, time);
    MonthIsUnique(index, e);
  }

  /** n calendar months later, on the same date or the last day of that month, at the same Seoul
      time of day: exactly when the Seoul year is not one that Date.UTC moves into the 1900s. */
  lemma AddMonthsExact(t: int, months: int)
    ensures (&& MonthIndex(SeoulDate(AddMonthsInSeoul(t, months))) == MonthIndex(SeoulDate(t)) + months
             && DateOf(SeoulDate(AddMonthsInSeoul(t, months)))
                == Min(DateOf(SeoulDate(t)), MonthLength(MonthIndex(SeoulDate(t)) + months))
             && TimeWithinDay(Local(AddMonthsInSeoul(t, months))) == TimeWithinDay(Local(t)))
         <==> !(0 <= SeoulYear(t) <= 99)
  {
    hide FirstOfMonth, MonthIndex, YearFromDay, AddMonthsInSeoul;
    AddMonthsResult(t, months);
  }

  /** Clamping the date into the shifted month keeps the order of days. */
  lemma ClampKeepsOrder(d: int, e: int, months: int)
    requires d <= e
    ensures var i, j := MonthIndex(d) + months, MonthIndex(e) + months;
            FirstOfMonth(i) + Min(DateOf(d), MonthLength(i)) <= FirstOfMonth(j) + Min(DateOf(e), MonthLength(j))
  {
    hide FirstOfMonth, MonthIndex;
    MonthBrackets(d);
    MonthBrackets(e);
    var i, j := MonthIndex(d), MonthIndex(e);
    if j < i {
      MonthsIncrease(j + 1, i);
    } else if i < j {
      MonthsIncrease(i + months + 1, j + months);
      NextMonth(j + months);
    }
  }

  /** Later instants never land on an earlier Seoul date when Date.UTC misreads both their years or
      neither, although they may land on an earlier time of that date (see AddMonthsMonotoneExactly). */
  lemma AddMonthsDateMonotone(s: int, t: int, months: int)
    requires s <= t && CenturyShift(SeoulYear(s)) == CenturyShift(SeoulYear(t))
    ensures SeoulDate(AddMonthsInSeoul(s, months)) <= SeoulDate(AddMonthsInSeoul(t, months))
  {
    hide FirstOfMonth, MonthIndex, SeoulYear, SeoulDate, AddMonthsInSeoul, Local, TimeWithinDay, MonthLength,
        CenturyShift;
    DatesInOrder(s, t);
    AddMonthsResult(s, months);
    AddMonthsResult(t, months);
    ClampKeepsOrder(SeoulDate(s), SeoulDate(t), months + CenturyShift(SeoulYear(s)));
  }

  /** The month that the wall clock shows, as Date.UTC reads it. */
  function ReadMonth(t: int): int { MonthIndex(SeoulDate(t)) + CenturyShift(SeoulYear(t)) }

  /** The date that an instant keeps in the month with that index. */
  function ClampedDate(t: int, index: int): int { Min(DateOf(SeoulDate(t)), MonthLength(index)) }

  /** The order of any two results: by the month that is read, then the clamped date, then the time of day. */
  lemma AddMonthsOrder(s: int, t: int, months: int)
    ensures AddMonthsInSeoul(s, months) <= AddMonthsInSeoul(t, months)
       <==> || ReadMonth(s) < ReadMonth(t)
            || (&& ReadMonth(s) == ReadMonth(t)
                && var index := ReadMonth(s) + months;
                   || ClampedDate(s, index) < ClampedDate(t, index)
                   || (&& ClampedDate(s, index) == ClampedDate(t, index)
                       && TimeWithinDay(Local(s)) <= TimeWithinDay(Local(t))))
  {
    hide FirstOfMonth, MonthIndex, SeoulYear, SeoulDate, AddMonthsInSeoul, TimeWithinDay, Local, CenturyShift;
    var u, v := AddMonthsInSeoul(s, months), AddMonthsInSeoul(t, months);
    AddMonthsResult(s, months);
    AddMonthsResult(t, months);
    DaySplit(u);
    DaySplit(v);
    MonthBrackets(SeoulDate(u));
    MonthBrackets(SeoulDate(v));
    hide MonthLength;
    if ReadMonth(s) < ReadMonth(t) {
      MonthsIncrease(MonthIndex(SeoulDate(u)) + 1, MonthIndex(SeoulDate(v)));
    } else if ReadMonth(t) < ReadMonth(s) {
      MonthsIncrease(MonthIndex(SeoulDate(v)) + 1, MonthIndex(SeoulDate(u)));
    }
  }

  /** addMonthsInSeoul keeps the order of two instants, unless they lie on different dates of one
      month, the target month ends no later than the earlier of these dates, and the later instant
      has the earlier time of day. */
  lemma AddMonthsMonotoneExactly(s: int, t: int, months: int)
    requires s <= t && CenturyShift(SeoulYear(s)) == CenturyShift(SeoulYear(t))
    ensures AddMonthsInSeoul(s, months) <= AddMonthsInSeoul(t, months)
       <==> !(&& SeoulDate(s) != SeoulDate(t)
              && MonthIndex(SeoulDate(s)) == MonthIndex(SeoulDate(t))
              && DateOf(SeoulDate(s)) >= MonthLength(ReadMonth(s) + months)
              && TimeWithinDay(Local(t)) < TimeWithinDay(Local(s)))
  {
    hide FirstOfMonth, MonthIndex, SeoulYear, SeoulDate, AddMonthsInSeoul, TimeWithinDay, Local, CenturyShift,
        MonthLength;
    AddMonthsOrder(s, t, months);
    DatesInOrder(s, t);
    DaySplit(s);
    DaySplit(t);
    MonthsInOrder(SeoulDate(s), SeoulDate(t));
  }

  /** Later days have later months, and within a month later dates. */
  lemma MonthsInOrder(d: int, e: int)
    requires d <= e
    ensures MonthIndex(d) <= MonthIndex(e)
    ensures MonthIndex(d) == MonthIndex(e) ==> DateOf(e) - DateOf(d) == e - d
  {
    hide FirstOfMonth, MonthIndex;
    MonthBrackets(d);
    MonthBrackets(e);
    if MonthIndex(e) < MonthIndex(d) { MonthsIncrease(MonthIndex(e) + 1, MonthIndex(d)); }
  }

  /** 1 January 2001, and the first days of January, February and March 2026. */
  lemma Landmarks()
    ensures FirstOfMonth(24012) == 11323
    ensures FirstOfMonth(24312) == 20454 && FirstOfMonth(24313) == 20485 && FirstOfMonth(24314) == 20513
  {
  }

  /** 30 January 2026 23:00 KST plus one month is later than 31 January 2026 10:00 KST plus one month. */
  lemma AddMonthsNotMonotone()
    ensures var s, t := 20483 * DAY_MS + 14 * 3_600_000, 20484 * DAY_MS + 3_600_000;
            s < t && AddMonthsInSeoul(t, 1) < AddMonthsInSeoul(s, 1)
  {
    hide FirstOfMonth, MonthIndex, SeoulYear, AddMonthsInSeoul;
    var s, t, i := 20483 * DAY_MS + 14 * 3_600_000, 20484 * DAY_MS + 3_600_000, 24312;
    Landmarks();
    assert SeoulDate(s) == 20483 && SeoulDate(t) == 20484;
    assert TimeWithinDay(Local(s)) == 23 * 3_600_000 && TimeWithinDay(Local(t)) == 10 * 3_600_000;
    MonthIsUnique(i, 20483);
    MonthIsUnique(i, 20484);
    YearOfMonthIndex(s);
    YearOfMonthIndex(t);
    hide SeoulDate, Local, TimeWithinDay;
    AddMonthsResult(s, 1);
    AddMonthsResult(t, 1);
    SameMonthAndDate(AddMonthsInSeoul(s, 1), AddMonthsInSeoul(t, 1));
  }

  /** Month, date and time of day determine the instant. */
  lemma SameMonthAndDate(u: int, v: int)
    requires MonthIndex(SeoulDate(u)) == MonthIndex(SeoulDate(v)) && DateOf(SeoulDate(u)) == DateOf(SeoulDate(v))
    ensures u - v == TimeWithinDay(Local(u)) - TimeWithinDay(Local(v))
  {
    hide FirstOfMonth, MonthIndex;
    assert Local(u) == DAY_MS * SeoulDate(u) + TimeWithinDay(Local(u));
    assert Local(v) == DAY_MS * SeoulDate(v) + TimeWithinDay(Local(v));
  }

  // ---------------------------------------------------------------- publish periods

  const MAX_PUBLISH_MONTHS := 3
  const EVENT_BANNER_MAX_DAYS := 3

  /** 1 January 2001 in Seoul; the server clock is past it. */
  const YEAR_2001_MS: int := 978_274_800_000

  datatype PeriodErrors = PeriodErrors(start: bool, end: bool)
  {
    predicate None() { !start && !end }
  }

  /** Rules common to all kinds. */
  function ValidatePeriod(startAt: int, endAt: int, now: int): PeriodErrors {
    PeriodErrors(false, endAt <= startAt || endAt <= now)
  }

  function ValidatePoster(startAt: int, endAt: int, now: int): PeriodErrors {
    var errors := ValidatePeriod(startAt, endAt, now);
    if !errors.end && endAt > AddMonthsInSeoul(startAt, MAX_PUBLISH_MONTHS)
    then errors.(end := true) else errors
  }

  function ValidateEventBanner(startAt: int, endAt: int, now: int): PeriodErrors {
    var errors := ValidatePeriod(startAt, endAt, now);
    var errors1 := if !IsSeoulMidnight(startAt) then errors.(start := true) else errors;
    if errors1.end then errors1
    else if !IsSeoulMidnight(endAt) then errors1.(end := true)
    else if endAt - startAt > EVENT_BANNER_MAX_DAYS * DAY_MS then errors1.(end := true)
    else errors1
  }

  /** In the years that Date.UTC misreads, three months more are centuries later. */
  lemma MisreadLimitIsFar(t: int)
    requires 0 <= SeoulYear(t) <= 99
    ensures AddMonthsInSeoul(t, 3) > t + 92 * DAY_MS
  {
    hide FirstOfMonth, MonthIndex, SeoulYear, SeoulDate, AddMonthsInSeoul, TimeWithinDay, Local;
    var u := AddMonthsInSeoul(t, 3);
    AddMonthsResult(t, 3);
    MonthBrackets(SeoulDate(t));
    MonthBrackets(SeoulDate(u));
    MonthsIncrease(MonthIndex(SeoulDate(t)) + 1, MonthIndex(SeoulDate(u)));
    DaySplit(t);
    DaySplit(u);
  }

  /** Adding three months moves an instant by 81 to 92 days, exactly outside the misread years. */
  lemma ThreeMonthsLater(t: int)
    ensures t + 81 * DAY_MS <= AddMonthsInSeoul(t, 3) <= t + 92 * DAY_MS <==> !(0 <= SeoulYear(t) <= 99)
  {
    hide FirstOfMonth, MonthIndex, SeoulYear, SeoulDate, AddMonthsInSeoul, TimeWithinDay, Local;
    if 0 <= SeoulYear(t) <= 99 {
      MisreadLimitIsFar(t);
      return;
    }
    var u := AddMonthsInSeoul(t, 3);
    var d, e := SeoulDate(t), SeoulDate(u);
    DaySplit(t);
    DaySplit(u);
    AddMonthsResult(t, 3);
    MonthBrackets(d);
    MonthBrackets(e);
    ThreeMonths(MonthIndex(d));
    MonthsIncrease(MonthIndex(d), MonthIndex(e));
    NextMonth(MonthIndex(e));
    NextMonth(MonthIndex(d));
  }

  /** In the years that Date.UTC misreads, the limit falls before the year 2001. */
  lemma MisreadLimitIsPast(t: int)
    requires 0 <= SeoulYear(t) <= 99
    ensures AddMonthsInSeoul(t, 3) < YEAR_2001_MS
  {
    hide FirstOfMonth, MonthIndex, SeoulYear, SeoulDate, AddMonthsInSeoul, TimeWithinDay, Local;
    var u := AddMonthsInSeoul(t, 3);
    var e := SeoulDate(u);
    YearOfMonthIndex(t);
    AddMonthsResult(t, 3);
    MonthBrackets(e);
    Landmarks();
    MonthsIncrease(MonthIndex(e) + 1, 24012);
    DaySplit(u);
  }

  /** Which starts have only periods of at most 92 days accepted at that time: all, except those in
      a misread year while the clock stands before their limit in the 1900s. */
  lemma PosterPeriodIsBounded(startAt: int, now: int)
    ensures (forall endAt :: ValidatePoster(startAt, endAt, now).None() ==> endAt <= startAt + 92 * DAY_MS)
       <==> !(0 <= SeoulYear(startAt) <= 99) || now >= AddMonthsInSeoul(startAt, 3)
  {
    hide SeoulYear, AddMonthsInSeoul;
    var limit := AddMonthsInSeoul(startAt, 3);
    if 0 <= SeoulYear(startAt) <= 99 {
      MisreadLimitIsFar(startAt);
      if now < limit { assert ValidatePoster(startAt, limit, now).None(); }
    } else {
      ThreeMonthsLater(startAt);
    }
  }

  /** Under any clock past 2000 every accepted poster period lasts at most 92 days. */
  lemma AcceptedPosterPeriod(startAt: int, endAt: int, now: int)
    requires now >= YEAR_2001_MS || !(0 <= SeoulYear(startAt) <= 99)
    requires ValidatePoster(startAt, endAt, now).None()
    ensures startAt < endAt <= startAt + 92 * DAY_MS && now < endAt
  {
    hide SeoulYear, AddMonthsInSeoul;
    PosterPeriodIsBounded(startAt, now);
    if 0 <= SeoulYear(startAt) <= 99 { MisreadLimitIsPast(startAt); }
  }

  /** Which errors the rules report: a poster never has one at its start. */
  lemma PosterErrorsExactly(startAt: int, endAt: int, now: int)
    ensures var errors := ValidatePoster(startAt, endAt, now);
            && !errors.start
            && (errors.end <==> endAt <= startAt || endAt <= now || endAt > AddMonthsInSeoul(startAt, 3))
  {
    hide AddMonthsInSeoul;
  }

  /** An event banner starts at midnight, and ends at midnight in the future, at most three days later. */
  lemma EventBannerErrorsExactly(startAt: int, endAt: int, now: int)
    ensures var errors := ValidateEventBanner(startAt, endAt, now);
            && (errors.start <==> startAt != StartOfSeoulDay(SeoulDate(startAt)))
            && (errors.end <==> || endAt <= startAt || endAt <= now || endAt - startAt > 259_200_000
                                || endAt != StartOfSeoulDay(SeoulDate(endAt)))
  {
  }

  /** An event banner is accepted exactly when it ends in the future and lasts one, two or three
      whole Seoul days. */
  lemma AcceptedEventBanner(startAt: int, endAt: int, now: int)
    ensures ValidateEventBanner(startAt, endAt, now).None()
       <==> (&& now < endAt
             && startAt == StartOfSeoulDay(SeoulDate(startAt))
             && endAt == StartOfSeoulDay(SeoulDate(endAt))
             && SeoulDate(endAt) - SeoulDate(startAt) in {1, 2, 3})
  {
  }
}
