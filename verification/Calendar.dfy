/** How a view cuts time (panel/telemetry.go): units, resolutions and where a view starts. */
module Calendar {
  import opened Times

  /** The date_trunc units the boards use. */
  datatype Unit = Second | Minute | Hour | Day | Week | Month

  const DAYS_OF_ERA := 146_097

  /** The year of a day of a 400-year era of the civil calendar, years counted from March. */
  function YearOfEra(dayOfEra: int): int {
    WithoutLeapDays(dayOfEra) / 365
  }

  function WithoutLeapDays(dayOfEra: int): int {
    dayOfEra - dayOfEra / 1460 + dayOfEra / 36_524 - dayOfEra / 146_096
  }

  function StartOfYear(year: int): int {
    365 * year + year / 4 - year / 100
  }

  /** Months from March have 153 days in every five. */
  function DayInMonth(dayOfYear: int): int {
    var month := (5 * dayOfYear + 2) / 153;
    dayOfYear - (153 * month + 2) / 5 + 1
  }

  /** Which day of its month a day is, days counted from 1970-01-01. */
  function DayOfMonth(day: int): int {
    var dayOfEra := (day + 719_468) % DAYS_OF_ERA;
    DayInMonth(dayOfEra - StartOfYear(YearOfEra(dayOfEra)))
  }

  /** Days since Monday; the epoch fell on a Thursday. */
  function DaysIntoWeek(day: int): int {
    (day + 3) % 7
  }

  /** The start of the bucket an instant falls in, in UTC. */
  function Truncate(t: Instant, unit: Unit): Instant {
    match unit
    case Second => FloorTo(t, SECOND)
    case Minute => FloorTo(t, MINUTE)
    case Hour => FloorTo(t, HOUR)
    case Day => FloorTo(t, DAY)
    case Week => (t / DAY - DaysIntoWeek(t / DAY)) * DAY
    case Month => (t / DAY - (DayOfMonth(t / DAY) - 1)) * DAY
  }

  /** `raw` reads the events; the other grains read the hourly counters. A zero span is all of history. */
  datatype Resolution = Resolution(name: string, unit: Unit, span: int, raw: bool)

  const RESOLUTIONS: seq<Resolution> := [
    Resolution("second", Second, 5 * MINUTE, true),
    Resolution("minute", Minute, 2 * HOUR, true),
    Resolution("hour", Hour, 72 * HOUR, false),
    Resolution("day", Day, 30 * DAY, false),
    Resolution("week", Week, 26 * 7 * DAY, false),
    Resolution("month", Month, 730 * DAY, false),
    Resolution("all", Month, 0, false)]

  /** Where a view starts: its span back, or the newest bucket an incremental read already holds. */
  function From(res: Resolution, now: Instant, since: Instant): Instant {
    var start := if res.span > 0 then Truncate(now - res.span, res.unit) else ZERO_TIME;
    if since != ZERO_TIME && start < Truncate(since, res.unit) then Truncate(since, res.unit) else start
  }

  /** An instant on the hour. */
  predicate OnTheHour(t: Instant) {
    t % HOUR == 0
  }

  predicate HourOrCoarser(unit: Unit) {
    unit != Second && unit != Minute
  }

  lemma DaysAreOnTheHour(day: int)
    ensures OnTheHour(day * DAY)
  {
    assert day * DAY == (day * 24) * HOUR;
    MultipleHasNoRemainder(day * 24, HOUR);
  }

  lemma BucketsAreOnTheHour(t: Instant, unit: Unit)
    requires HourOrCoarser(unit)
    ensures OnTheHour(Truncate(t, unit))
  {
    match unit
    case Hour =>
    case Day => MultipleOfCoarse(FloorTo(t, DAY), HOUR, 24);
    case Week => DaysAreOnTheHour(t / DAY - DaysIntoWeek(t / DAY));
    case Month => DaysAreOnTheHour(t / DAY - (DayOfMonth(t / DAY) - 1));
  }

  /** Every start a roll-up view can have is on the hour. */
  lemma ViewsStartOnTheHour(res: Resolution, now: Instant, since: Instant)
    requires HourOrCoarser(res.unit)
    ensures OnTheHour(From(res, now, since))
  {
    BucketsAreOnTheHour(now - res.span, res.unit);
    BucketsAreOnTheHour(since, res.unit);
  }

  lemma EveryRollUpGrainIsHourOrCoarser(res: Resolution)
    requires res in RESOLUTIONS
    ensures !res.raw <==> HourOrCoarser(res.unit)
  {
  }

  /** Cutting to the hour first does not move an instant to another day. */
  lemma HourKeepsDay(t: Instant)
    ensures FloorTo(t, HOUR) / DAY == t / DAY
  {
    FloorOfFloor(t, HOUR, 24);
    var h := FloorTo(t, HOUR);
    assert FloorTo(h, DAY) == FloorTo(t, DAY);
    assert h == (h / DAY) * DAY + h % DAY && t == (t / DAY) * DAY + t % DAY;
    assert (h / DAY) * DAY == (t / DAY) * DAY;
    assert (h / DAY - t / DAY) * DAY == 0;
    SmallMultiple(h / DAY - t / DAY, DAY);
  }

  /** The cut of an hour's start is the cut of anything in the hour. */
  lemma CutOfTheHour(t: Instant, unit: Unit)
    requires HourOrCoarser(unit)
    ensures Truncate(FloorTo(t, HOUR), unit) == Truncate(t, unit)
  {
    match unit
    case Hour => FloorOfFloor(t, HOUR, 1);
    case Day => FloorOfFloor(t, HOUR, 24);
    case Week => HourKeepsDay(t);
    case Month => HourKeepsDay(t);
  }

  /** From an instant on the hour on, an hour is in a view when anything in it is. */
  lemma HoursFollowTheStart(t: Instant, from: Instant)
    requires OnTheHour(from)
    ensures from <= FloorTo(t, HOUR) <==> from <= t
  {
    if from <= t {
      FloorMonotone(from, t, HOUR);
      CloseMultiplesAreEqual(FloorTo(from, HOUR), from, HOUR);
    }
  }

  // ------------------------------------------------------------ buckets are cut once

  /** A year's first day has all the days of the years before it, their leap days left out. */
  lemma AYearStartsAt(year: int)
    requires 0 <= year <= 399
    ensures WithoutLeapDays(StartOfYear(year)) == 365 * year && 0 <= StartOfYear(year) < DAYS_OF_ERA
  {
    var s := StartOfYear(year);
    assert s / 1460 == year / 4;
    assert s / 36_524 == year / 100;
    assert s / 146_096 == 0;
  }

  lemma {:induction false} DaysPass(d: int, e: int)
    requires 0 <= d <= e < DAYS_OF_ERA
    ensures WithoutLeapDays(d) <= WithoutLeapDays(e)
    decreases e - d
  {
    hide WithoutLeapDays;
    if d < e {
      DaysPass(d, e - 1);
      ADayPasses(e - 1);
    }
  }

  lemma ADayPasses(d: int)
    requires 0 <= d < DAYS_OF_ERA - 1
    ensures WithoutLeapDays(d) <= WithoutLeapDays(d + 1)
  {
    assert (d + 1) / 1460 <= d / 1460 + 1;
    assert (d + 1) / 36_524 >= d / 36_524;
    assert (d + 1) / 146_096 == d / 146_096 || (d + 1 == 146_096 && (d + 1) / 1460 == d / 1460);
  }

  lemma CenturiesPassed(dayOfEra: int)
    requires 0 <= dayOfEra < DAYS_OF_ERA
    ensures YearOfEra(dayOfEra) / 100 == dayOfEra / 36_524 - dayOfEra / 146_096
    ensures 0 <= YearOfEra(dayOfEra) <= 399
  {
  }

  lemma LeapYearsPassed(dayOfEra: int)
    requires 0 <= dayOfEra < DAYS_OF_ERA
    ensures dayOfEra / 1460 - 1 <= YearOfEra(dayOfEra) / 4 <= dayOfEra / 1460
  {
  }

  /** A day is in its year. */
  lemma ADayIsInItsYear(dayOfEra: int)
    requires 0 <= dayOfEra < DAYS_OF_ERA
    ensures 0 <= dayOfEra - StartOfYear(YearOfEra(dayOfEra)) <= 365
    ensures 0 <= StartOfYear(YearOfEra(dayOfEra))
  {
    CenturiesPassed(dayOfEra);
    LeapYearsPassed(dayOfEra);
    AYearStartsAt(YearOfEra(dayOfEra));
  }

  lemma EarlierInTheYear(dayOfEra: int, k: int)
    requires 0 <= dayOfEra < DAYS_OF_ERA && 0 <= k <= dayOfEra - StartOfYear(YearOfEra(dayOfEra))
    ensures YearOfEra(dayOfEra - k) == YearOfEra(dayOfEra)
  {
    hide WithoutLeapDays, StartOfYear;
    var y := YearOfEra(dayOfEra);
    CenturiesPassed(dayOfEra);
    AYearStartsAt(y);
    DaysPass(StartOfYear(y), dayOfEra - k);
    DaysPass(dayOfEra - k, dayOfEra);
  }

  lemma EarlierInTheMonth(dayOfYear: int)
    requires 0 <= dayOfYear <= 365
    ensures 1 <= DayInMonth(dayOfYear) <= 31 && DayInMonth(dayOfYear) <= dayOfYear + 1
    ensures DayInMonth(dayOfYear - (DayInMonth(dayOfYear) - 1)) == 1
  {
  }

  /** Going back to the first of the month comes to a first of a month, at most thirty days back. */
  lemma AMonthStartsWithItsFirst(day: int)
    ensures 1 <= DayOfMonth(day) <= 31 && DayOfMonth(day - (DayOfMonth(day) - 1)) == 1
  {
    hide DayInMonth, YearOfEra, StartOfYear;
    var e := (day + 719_468) % DAYS_OF_ERA;
    ADayIsInItsYear(e);
    var start := StartOfYear(YearOfEra(e));
    EarlierInTheMonth(e - start);
    var k := DayOfMonth(day) - 1;
    EarlierInTheYear(e, k);
    BackInTheEra(day + 719_468, k);
  }

  lemma BackInTheEra(z: int, k: int)
    requires 0 <= k <= z % DAYS_OF_ERA
    ensures (z - k) % DAYS_OF_ERA == z % DAYS_OF_ERA - k
  {
  }

  lemma WholeDays(day: int)
    ensures (day * DAY) / DAY == day
  {
    var q := (day * DAY) / DAY;
    assert (q - day) * DAY == -((day * DAY) % DAY);
    MultipleHasNoRemainder(day, DAY);
    SmallMultiple(q - day, DAY);
  }

  /** A bucket's start is in the bucket and is its own start, for every unit. */
  lemma BucketsAreCutOnce(t: Instant, unit: Unit)
    ensures Truncate(Truncate(t, unit), unit) == Truncate(t, unit) <= t
  {
    hide DayOfMonth;
    var day := t / DAY;
    assert t == day * DAY + t % DAY;
    match unit
    case Second => FloorOfFloor(t, SECOND, 1);
    case Minute => FloorOfFloor(t, MINUTE, 1);
    case Hour => FloorOfFloor(t, HOUR, 1);
    case Day => FloorOfFloor(t, DAY, 1);
    case Week => WholeDays(day - DaysIntoWeek(day));
    case Month =>
      AMonthStartsWithItsFirst(day);
      WholeDays(day - (DayOfMonth(day) - 1));
  }

  // ------------------------------------------------------------ the days are the calendar's

  datatype Date = Date(year: int, month: int, day: int)

  predicate IsLeap(year: int) {
    year % 4 == 0 && (year % 100 != 0 || year % 400 == 0)
  }

  function MonthLength(year: int, month: int): int {
    if month == 2 then (if IsLeap(year) then 29 else 28)
    else if month == 4 || month == 6 || month == 9 || month == 11 then 30 else 31
  }

  function Tomorrow(d: Date): Date {
    if d.day < MonthLength(d.year, d.month) then d.(day := d.day + 1)
    else if d.month < 12 then Date(d.year, d.month + 1, 1)
    else Date(d.year + 1, 1, 1)
  }

  /** The date of a day of a year that starts with its March. */
  function DateIn(year: int, dayOfYear: int): Date {
    var month := (5 * dayOfYear + 2) / 153;
    Date(if month < 10 then year else year + 1, if month < 10 then month + 3 else month - 9, DayInMonth(dayOfYear))
  }

  /** A date by the era and the day of it. */
  function DateAt(era: int, e: int): Date {
    DateIn(YearOfEra(e) + 400 * era, e - StartOfYear(YearOfEra(e)))
  }

  function DateOf(day: int): (d: Date)
    ensures d.day == DayOfMonth(day)
  {
    DateAt((day + 719_468) / DAYS_OF_ERA, (day + 719_468) % DAYS_OF_ERA)
  }

  function DaysFromMarch(year: int): int {
    if IsLeap(year + 1) then 366 else 365
  }

  lemma TomorrowInAYear(year: int, dayOfYear: int)
    requires 0 <= dayOfYear < DaysFromMarch(year)
    ensures Tomorrow(DateIn(year, dayOfYear)) == if dayOfYear + 1 < DaysFromMarch(year) then DateIn(year, dayOfYear + 1) else DateIn(year + 1, 0)
  {
    hide IsLeap;
    var month := (5 * dayOfYear + 2) / 153;
    assert 0 <= month <= 11;
    if month < 6 {
      assert month == 0 || month == 1 || month == 2 || month == 3 || month == 4 || month == 5;
    } else {
      assert month == 6 || month == 7 || month == 8 || month == 9 || month == 10 || month == 11;
    }
  }

  /** The year of a day of an era ends where the next one starts. */
  lemma TheYearEnds(e: int)
    requires 0 <= e < DAYS_OF_ERA
    ensures var y := YearOfEra(e);
            && 0 <= y <= 399 && (y < 399 ==> e < StartOfYear(y + 1))
            && (e + 1 < DAYS_OF_ERA ==>
                  YearOfEra(e + 1) == if y < 399 && e + 1 == StartOfYear(y + 1) then y + 1 else y)
  {
    hide WithoutLeapDays, StartOfYear;
    CenturiesPassed(e);
    var y := YearOfEra(e);
    if y < 399 {
      AYearStartsAt(y + 1);
      if e >= StartOfYear(y + 1) {
        DaysPass(StartOfYear(y + 1), e);
        assert false;
      }
    }
    if e + 1 < DAYS_OF_ERA {
      DaysPass(e, e + 1);
      CenturiesPassed(e + 1);
      ADayIsInItsYear(e + 1);
      YearsPass(y + 1, YearOfEra(e + 1));
    }
  }

  lemma YearsPass(y: int, z: int)
    requires 0 <= y
    ensures y <= z ==> StartOfYear(y) <= StartOfYear(z)
  {
  }

  lemma YearsHaveTheirLength(y: int, era: int)
    requires 0 <= y <= 399
    ensures DaysFromMarch(y + 400 * era) == (if y < 399 then StartOfYear(y + 1) else DAYS_OF_ERA) - StartOfYear(y)
  {
    LeapYearsRepeat(y + 1, era);
    assert y + 400 * era + 1 == y + 1 + 400 * era;
    FromYearToYear(y);
  }

  lemma LeapYearsRepeat(year: int, era: int)
    ensures IsLeap(year + 400 * era) == IsLeap(year)
  {
    SameRemainder(year, 100 * era, 4);
    SameRemainder(year, 4 * era, 100);
    SameRemainder(year, era, 400);
  }

  lemma SameRemainder(x: int, k: int, n: int)
    requires n > 0
    ensures (x + n * k) % n == x % n
  {
    var y := x + n * k;
    assert y % n - x % n == (x / n + k - y / n) * n;
    SmallMultiple(x / n + k - y / n, n);
  }

  lemma FromYearToYear(y: int)
    requires 0 <= y <= 399
    ensures (if y < 399 then StartOfYear(y + 1) else DAYS_OF_ERA) - StartOfYear(y) == if IsLeap(y + 1) then 366 else 365
  {
  }

  /** Every day's date is the one after the date of the day before, by the lengths of the months and the leap years. */
  lemma EachDayFollowsTheLast(day: int)
    ensures DateOf(day + 1) == Tomorrow(DateOf(day))
    ensures DateOf(0) == Date(1970, 1, 1)
  {
    hide DateAt, Tomorrow;
    var z := day + 719_468;
    ADayInTheEra(z / DAYS_OF_ERA, z % DAYS_OF_ERA);
    NextInTheEra(z);
    TheEpoch();
  }

  lemma TheEpoch()
    ensures DateOf(0) == Date(1970, 1, 1)
  {
  }

  lemma NextInTheEra(z: int)
    ensures var e := z % DAYS_OF_ERA;
            if e + 1 < DAYS_OF_ERA then (z + 1) % DAYS_OF_ERA == e + 1 && (z + 1) / DAYS_OF_ERA == z / DAYS_OF_ERA
            else (z + 1) % DAYS_OF_ERA == 0 && (z + 1) / DAYS_OF_ERA == z / DAYS_OF_ERA + 1
  {
  }

  lemma ADayInTheEra(era: int, e: int)
    requires 0 <= e < DAYS_OF_ERA
    ensures Tomorrow(DateAt(era, e)) == if e + 1 < DAYS_OF_ERA then DateAt(era, e + 1) else DateAt(era + 1, 0)
  {
    hide DateIn, Tomorrow, YearOfEra, StartOfYear, DaysFromMarch;
    var y := YearOfEra(e);
    var start := StartOfYear(y);
    ADayIsInItsYear(e);
    TheYearEnds(e);
    ADayInItsYear(era, e, y, start);
    if e + 1 == DAYS_OF_ERA {
      TheYearAtTheEnd(e);
    }
    TheEraStarts();
  }

  lemma TheEraStarts()
    ensures YearOfEra(0) == 0 && StartOfYear(0) == 0
  {
  }

  lemma ADayInItsYear(era: int, e: int, y: int, start: int)
    requires 0 <= y <= 399 && start == StartOfYear(y) <= e < DAYS_OF_ERA && (y < 399 ==> e < StartOfYear(y + 1))
    ensures var end := if y < 399 then StartOfYear(y + 1) else DAYS_OF_ERA;
            Tomorrow(DateIn(y + 400 * era, e - start)) == if e + 1 < end then DateIn(y + 400 * era, e + 1 - start) else DateIn(y + 400 * era + 1, 0)
  {
    hide DateIn, Tomorrow, YearOfEra, StartOfYear, DaysFromMarch;
    YearsHaveTheirLength(y, era);
    TomorrowInAYear(y + 400 * era, e - start);
  }

  lemma TheYearAtTheEnd(e: int)
    requires e == DAYS_OF_ERA - 1
    ensures YearOfEra(e) == 399
  {
  }

  /** The day a month starts is the first of that month. */
  lemma AMonthIsItsOwn(day: int)
    ensures DateOf(day - (DayOfMonth(day) - 1)) == DateOf(day).(day := 1)
  {
    hide DayInMonth, YearOfEra, StartOfYear;
    var e := (day + 719_468) % DAYS_OF_ERA;
    ADayIsInItsYear(e);
    var start := StartOfYear(YearOfEra(e));
    EarlierInTheMonth(e - start);
    var k := DayOfMonth(day) - 1;
    EarlierInTheYear(e, k);
    BackInTheEra(day + 719_468, k);
    FirstOfItsMonth(e - start);
    AMonthStartsWithItsFirst(day);
  }

  lemma FirstOfItsMonth(dayOfYear: int)
    requires 0 <= dayOfYear <= 365
    ensures (5 * (dayOfYear - (DayInMonth(dayOfYear) - 1)) + 2) / 153 == (5 * dayOfYear + 2) / 153
  {
  }

  // ------------------------------------------------------------ buckets are the calendar's

  /** No bucket of a unit lasts longer. */
  function Longest(unit: Unit): int {
    match unit
    case Second => 1_000_000_000
    case Minute => 60 * 1_000_000_000
    case Hour => 3600 * 1_000_000_000
    case Day => 24 * 3600 * 1_000_000_000
    case Week => 7 * 24 * 3600 * 1_000_000_000
    case Month => 31 * 24 * 3600 * 1_000_000_000
  }

  /** Days start at midnight, weeks on a Monday (the fifth of January 1970 was one), months on their first. */
  lemma ABucketStartsWhere(t: Instant, unit: Unit)
    ensures var b := Truncate(t, unit);
            && b <= t < b + Longest(unit)
            && (unit == Day || unit == Week || unit == Month ==> b % DAY == 0)
            && (unit == Week ==> (b / DAY - 4) % 7 == 0)
            && (unit == Month ==> DateOf(b / DAY) == DateOf(t / DAY).(day := 1))
  {
    hide DayOfMonth, DateOf;
    var day := t / DAY;
    assert t == day * DAY + t % DAY;
    match unit
    case Second =>
    case Minute =>
    case Hour =>
    case Day =>
    case Week =>
      WholeDays(day - DaysIntoWeek(day));
      MultipleHasNoRemainder(day - DaysIntoWeek(day), DAY);
    case Month =>
      AMonthStartsWithItsFirst(day);
      AMonthIsItsOwn(day);
      WholeDays(day - (DayOfMonth(day) - 1));
      MultipleHasNoRemainder(day - (DayOfMonth(day) - 1), DAY);
  }

  /**
    A view starts with the bucket its span back falls in, or the newest bucket already
    held if that is later; and a view of all of history misses nothing.
   */
  lemma AViewStartsWhere(res: Resolution, now: Instant, since: Instant)
    requires res in RESOLUTIONS
    ensures var start := From(res, now, since);
            && (res.span > 0 ==> now - res.span < start + Longest(res.unit))
            && (since != ZERO_TIME ==> since < start + Longest(res.unit))
            && (start <= now - res.span || (since != ZERO_TIME && start <= since) || (res.span == 0 && start == ZERO_TIME))
            && (start == ZERO_TIME || Truncate(start, res.unit) == start)
    ensures res.name == "all" && since == ZERO_TIME ==> From(res, now, since) == -62_135_596_800_000_000_000
  {
    hide Truncate;
    ABucketStartsWhere(now - res.span, res.unit);
    ABucketStartsWhere(since, res.unit);
    BucketsAreCutOnce(now - res.span, res.unit);
    BucketsAreCutOnce(since, res.unit);
  }
}
