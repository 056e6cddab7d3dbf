/** java.time values as the services use them: a calendar date, a time of day
    (at second resolution) and their combination. LocalDateTime.isBefore
    compares date-times field by field; the model also numbers them by the
    seconds since 1970-01-01T00:00 in the proleptic Gregorian calendar, and
    proves that the two orders agree. */
module Clock {

  type Month = m: int | 1 <= m <= 12 witness 1
  type DayOfMonth = d: int | 1 <= d <= 31 witness 1

  const SecondsPerMinute := 60
  const SecondsPerHour := 3600
  const SecondsPerDay := 86400

  /** LocalTime, as the second of the day. */
  type LocalTime = s: int | 0 <= s < 86400

  /** Year.isLeap in the proleptic Gregorian calendar. */
  predicate IsLeapYear(y: int)
  {
    y % 4 == 0 && (y % 100 != 0 || y % 400 == 0)
  }

  function DaysInMonth(y: int, m: Month): (n: int)
    ensures 28 <= n <= 31
  {
    if m == 2 then (if IsLeapYear(y) then 29 else 28)
    else if m == 4 || m == 6 || m == 9 || m == 11 then 30
    else 31
  }

  datatype Date = Date(year: int, month: Month, day: DayOfMonth)

  /** LocalDate: only dates that exist, as java.time admits no February 30. */
  type LocalDate = d: Date | d.day <= DaysInMonth(d.year, d.month) witness Date(1970, 1, 1)

  datatype LocalDateTime = LocalDateTime(date: LocalDate, time: LocalTime)

  /** Days from the start of era 0 (0000-03-01) to March 1 of year y,
      counting years from March; 146097 days make a 400-year era. */
  function DaysBeforeMarchYear(y: int): int
  {
    var era := y / 400;                 // floor division: the divisor is positive
    var yoe := y - era * 400;           // year of era, 0 ..= 399
    era * 146097 + yoe * 365 + yoe / 4 - yoe / 100
  }

  /** Days from March 1 to the first day of the month `mp` months later. */
  function DaysBeforeMonth(mp: int): int
  {
    (153 * mp + 2) / 5
  }

  /** The year counted from March: January and February belong to the
      previous one. */
  function MarchYear(d: Date): int
  {
    if d.month <= 2 then d.year - 1 else d.year
  }

  /** Months since March: 0 for March ..= 11 for February. */
  function MarchMonth(d: Date): int
  {
    if d.month > 2 then d.month - 3 else d.month + 9
  }

  /** LocalDate.toEpochDay: days since 1970-01-01 (days-from-civil). */
  function EpochDay(d: LocalDate): int
  {
    DaysBeforeMarchYear(MarchYear(d)) + DaysBeforeMonth(MarchMonth(d)) + d.day - 1 - 719468
  }

  function EpochSecond(t: LocalDateTime): int
  {
    EpochDay(t.date) * SecondsPerDay + t.time
  }

  /** LocalDateTime.of(date, time). */
  function Of(date: LocalDate, time: LocalTime): LocalDateTime
  {
    LocalDateTime(date, time)
  }

  /** LocalTime.getHour and LocalTime.getMinute. */
  function Hour(t: LocalTime): (h: int)
    ensures 0 <= h < 24
    ensures h * SecondsPerHour <= t < (h + 1) * SecondsPerHour
  {
    t / SecondsPerHour
  }

  function Minute(t: LocalTime): (m: int)
    ensures 0 <= m < 60
    ensures Hour(t) * SecondsPerHour + m * SecondsPerMinute <= t < Hour(t) * SecondsPerHour + (m + 1) * SecondsPerMinute
  {
    (t % SecondsPerHour) / SecondsPerMinute
  }

  // ---------------------------------------------------------------------------
  // Calendar order

  /** LocalDate.isBefore: year, then month, then day. */
  predicate DateBefore(a: LocalDate, b: LocalDate)
  {
    || a.year < b.year
    || (a.year == b.year && a.month < b.month)
    || (a.year == b.year && a.month == b.month && a.day < b.day)
  }

  /** LocalDateTime.isBefore: the date, then the time of day. */
  predicate IsBefore(a: LocalDateTime, b: LocalDateTime)
  {
    DateBefore(a.date, b.date) || (a.date == b.date && a.time < b.time)
  }

  function NextDay(d: LocalDate): LocalDate
  {
    if d.day < DaysInMonth(d.year, d.month) then Date(d.year, d.month, d.day + 1)
    else if d.month < 12 then Date(d.year, d.month + 1, 1)
    else Date(d.year + 1, 1, 1)
  }

  function PreviousDay(d: LocalDate): LocalDate
  {
    if d.day > 1 then Date(d.year, d.month, d.day - 1)
    else if d.month > 1 then Date(d.year, d.month - 1, DaysInMonth(d.year, d.month - 1))
    else Date(d.year - 1, 12, 31)
  }

  /** LocalDateTime.minusHours(24): the same time on the previous day. */
  function MinusHours24(t: LocalDateTime): LocalDateTime
  {
    LocalDateTime(PreviousDay(t.date), t.time)
  }

  /** `journey.minusHours(24).isBefore(now)`: fewer than 24 hours remain
      before the journey, or it has already departed. */
  predicate WithinDayOfDeparture(journey: LocalDateTime, now: LocalDateTime)
  {
    IsBefore(MinusHours24(journey), now)
  }

  /** One more year of era adds 365 days, plus one when it ends in a
      February 29 (a multiple of 4 that is not a multiple of 100). */
  lemma YearOfEraStep(r: int)
    requires 0 <= r < 399
    ensures (r + 1) * 365 + (r + 1) / 4 - (r + 1) / 100
            == r * 365 + r / 4 - r / 100 + 365 + (if (r + 1) % 4 == 0 && (r + 1) % 100 != 0 then 1 else 0)
  {
  }

  /** Adding a multiple of the divisor leaves the remainder unchanged. */
  lemma ModShift4(k: int, n: int)
    ensures (4 * k + n) % 4 == n % 4
  {
    assert 4 * k + n == 4 * (k + n / 4) + n % 4;
  }

  lemma ModShift100(k: int, n: int)
    ensures (100 * k + n) % 100 == n % 100
  {
    assert 100 * k + n == 100 * (k + n / 100) + n % 100;
  }

  lemma ModShift400(k: int, n: int)
    ensures (400 * k + n) % 400 == n % 400
  {
    assert 400 * k + n == 400 * (k + n / 400) + n % 400;
  }

  /** Within an era, leap years are those of the year of era. */
  lemma LeapInEra(q: int, s: int)
    requires 0 < s < 400
    ensures IsLeapYear(400 * q + s) <==> s % 4 == 0 && s % 100 != 0
  {
    ModShift4(100 * q, s);
    ModShift100(4 * q, s);
    ModShift400(q, s);
  }

  lemma DaysBeforeMarchYearOf(q: int, r: int)
    requires 0 <= r < 400
    ensures DaysBeforeMarchYear(400 * q + r) == q * 146097 + r * 365 + r / 4 - r / 100
  {
    var y := 400 * q + r;
    assert y / 400 == q;
  }

  /** A March-based year has 366 days when the February that ends it has 29. */
  lemma DaysBeforeMarchYearStep(y: int)
    ensures DaysBeforeMarchYear(y + 1) == DaysBeforeMarchYear(y) + 365 + (if IsLeapYear(y + 1) then 1 else 0)
  {
    var q := y / 400;
    var r := y % 400;
    assert y == 400 * q + r;
    DaysBeforeMarchYearOf(q, r);
    if r == 399 {
      assert y + 1 == 400 * (q + 1) + 0;
      DaysBeforeMarchYearOf(q + 1, 0);
      ModShift400(q + 1, 0);
      ModShift4(100 * (q + 1), 0);
      assert IsLeapYear(y + 1);
    } else {
      assert y + 1 == 400 * q + (r + 1);
      DaysBeforeMarchYearOf(q, r + 1);
      YearOfEraStep(r);
      LeapInEra(q, r + 1);
    }
  }

  lemma {:induction false} DaysBeforeMarchYearMonotonic(y: int, z: int)
    requires y <= z
    ensures DaysBeforeMarchYear(y) + 365 * (z - y) <= DaysBeforeMarchYear(z)
    decreases z - y
  {
    if y < z {
      DaysBeforeMarchYearMonotonic(y, z - 1);
      DaysBeforeMarchYearStep(z - 1);
    }
  }

  /** The day after a date is the next epoch day, across month and year ends
      and February 29 included. */
  lemma EpochDayNextDay(d: LocalDate)
    ensures EpochDay(NextDay(d)) == EpochDay(d) + 1
  {
    if d.day == DaysInMonth(d.year, d.month) && d.month == 2 {
      DaysBeforeMarchYearStep(d.year - 1);
    }
  }

  lemma EpochDayPreviousDay(d: LocalDate)
    ensures EpochDay(PreviousDay(d)) == EpochDay(d) - 1
  {
    assert NextDay(PreviousDay(d)) == d;
    EpochDayNextDay(PreviousDay(d));
  }

  /** The epoch day orders dates as LocalDate.isBefore does. */
  lemma EpochDayOrder(a: LocalDate, b: LocalDate)
    ensures DateBefore(a, b) <==> EpochDay(a) < EpochDay(b)
  {
    if DateBefore(a, b) {
      EpochDayBefore(a, b);
    } else if a != b {
      EpochDayBefore(b, a);
    }
  }

  /** Within its March-based year, a date lies before the next March 1. */
  lemma DayWithinMarchYear(d: LocalDate)
    ensures DaysBeforeMonth(MarchMonth(d)) + d.day - 1
            < DaysBeforeMarchYear(MarchYear(d) + 1) - DaysBeforeMarchYear(MarchYear(d))
  {
    DaysBeforeMarchYearStep(MarchYear(d));
  }

  /** Within its month, a date lies before the first of the next month. */
  lemma DayWithinMonth(d: LocalDate)
    requires MarchMonth(d) < 11
    ensures DaysBeforeMonth(MarchMonth(d)) + d.day - 1 < DaysBeforeMonth(MarchMonth(d) + 1)
  {
  }

  lemma DaysBeforeMonthMonotonic(i: int, j: int)
    requires 0 <= i <= j
    ensures DaysBeforeMonth(i) <= DaysBeforeMonth(j)
  {
  }

  /** Calendar order is the order of (March year, March month, day). */
  lemma DateBeforeMarch(a: LocalDate, b: LocalDate)
    requires DateBefore(a, b)
    ensures || MarchYear(a) < MarchYear(b)
            || (MarchYear(a) == MarchYear(b) && MarchMonth(a) < MarchMonth(b))
            || (MarchYear(a) == MarchYear(b) && MarchMonth(a) == MarchMonth(b) && a.day < b.day)
  {
  }

  lemma EpochDayBefore(a: LocalDate, b: LocalDate)
    requires DateBefore(a, b)
    ensures EpochDay(a) < EpochDay(b)
  {
    DateBeforeMarch(a, b);
    DayWithinMarchYear(a);
    if MarchYear(a) < MarchYear(b) {
      DaysBeforeMarchYearMonotonic(MarchYear(a) + 1, MarchYear(b));
    } else if MarchMonth(a) < MarchMonth(b) {
      DayWithinMonth(a);
      DaysBeforeMonthMonotonic(MarchMonth(a) + 1, MarchMonth(b));
    }
  }

  /** The epoch second orders date-times as LocalDateTime.isBefore does. */
  lemma EpochSecondOrder(a: LocalDateTime, b: LocalDateTime)
    ensures IsBefore(a, b) <==> EpochSecond(a) < EpochSecond(b)
  {
    EpochDayOrder(a.date, b.date);
    if a.date != b.date && !DateBefore(a.date, b.date) {
      EpochDayOrder(b.date, a.date);
    }
  }

  /** The 24-hour window test compares epoch seconds: a journey is within a
      day of departure exactly when it starts less than 86400 seconds after
      `now`. */
  lemma WithinDayOfDepartureEpoch(journey: LocalDateTime, now: LocalDateTime)
    ensures WithinDayOfDeparture(journey, now) <==> EpochSecond(journey) - 24 * SecondsPerHour < EpochSecond(now)
  {
    EpochDayPreviousDay(journey.date);
    EpochSecondOrder(MinusHours24(journey), now);
  }

  lemma EpochDayUnix()
    ensures EpochDay(Date(1970, 1, 1)) == 0
    ensures EpochDay(Date(2000, 3, 1)) == 11017
  {
  }
}
