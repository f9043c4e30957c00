/** Proleptic Gregorian calendar arithmetic in a fixed-offset time zone, as
    Go's `time` package performs it for `t.Year()/Month()/Day()`,
    `time.Date` and `t.AddDate`. Instants are Unix seconds; a zone is an
    offset in seconds east of UTC, so there is no daylight-saving time.

    Internally a year runs from March 1 to the end of February, so that the
    leap day is the last day of its year; an era is 400 such years
    (146097 days). */
module Calendar {

  const SecondsPerDay: int := 86400
  const DaysPerEra: int := 146097
  /** Days from 0000-03-01 to 1970-01-01. */
  const EpochShift: int := 719468

  datatype Date = Date(year: int, month: int, day: int)

  predicate IsLeap(y: int) {
    y % 4 == 0 && (y % 100 != 0 || y % 400 == 0)
  }

  function DaysInMonth(y: int, m: int): int
    requires 1 <= m <= 12
  {
    if m == 2 then (if IsLeap(y) then 29 else 28)
    else if m == 4 || m == 6 || m == 9 || m == 11 then 30
    else 31
  }

  predicate ValidDate(d: Date) {
    1 <= d.month <= 12 && 1 <= d.day <= DaysInMonth(d.year, d.month)
  }

  /** Days from the start of an era to the start of its year `yoe`. */
  function YearStart(yoe: int): int {
    365 * yoe + yoe / 4 - yoe / 100
  }

  /** Days from March 1 to the first day of the March-based month `mp`
      (0 is March, 11 is February). */
  function MonthStart(mp: int): int {
    (153 * mp + 2) / 5
  }

  /** The March-based index of calendar month `m`. */
  function ShiftedMonth(m: int): int {
    if m > 2 then m - 3 else m + 9
  }

  /** Day number (days since 1970-01-01) of the first day of March-based
      month `mp` of the year that starts in March of `y'`. */
  function MonthFirstDay(y': int, mp: int): int {
    (y' / 400) * DaysPerEra + YearStart(y' % 400) + MonthStart(mp) - EpochShift
  }

  /** Day number (days since 1970-01-01) of year `y`, month `m`, day `d`.
      The day is not range-checked: day `d` of a month is `d - 1` days after
      its first, which is how `time.Date` normalises an out-of-range day. */
  function DaysFromCivil(y: int, m: int, d: int): int
    requires 1 <= m <= 12
  {
    MonthFirstDay(if m <= 2 then y - 1 else y, ShiftedMonth(m)) + d - 1
  }

  lemma YearStartLowerBound(j: int)
    requires j >= 0
    ensures YearStart(j) >= 365 * j
  {
  }

  lemma YearStartStep(k: int)
    requires k >= 0
    ensures 365 <= YearStart(k + 1) - YearStart(k) <= 366
    ensures YearStart(k + 1) - YearStart(k) == 366 <==> (k + 1) % 4 == 0 && (k + 1) % 100 != 0
  {
    DivStep4(k);
    DivStep100(k);
    if (k + 1) % 100 == 0 {
      Residue4(25 * ((k + 1) / 100), 0);
      assert k + 1 == 25 * ((k + 1) / 100) * 4 + 0;
    }
  }

  /** `k / 4` grows by one exactly when `k + 1` is a multiple of 4. */
  lemma DivStep4(k: int)
    ensures (k + 1) / 4 - k / 4 == (if (k + 1) % 4 == 0 then 1 else 0)
  {
  }

  /** `k / 100` grows by one exactly when `k + 1` is a multiple of 100. */
  lemma DivStep100(k: int)
    ensures (k + 1) / 100 - k / 100 == (if (k + 1) % 100 == 0 then 1 else 0)
  {
  }

  lemma {:induction false} YearStartMonotone(a: int, b: int)
    requires 0 <= a <= b
    ensures YearStart(a) <= YearStart(b)
    ensures a < b ==> YearStart(a + 1) <= YearStart(b)
    decreases b - a
  {
    if a < b {
      YearStartStep(a);
      YearStartMonotone(a + 1, b);
    }
  }

  lemma YearStartUpperBound(j: int)
    requires 0 <= j < 400
    ensures YearStart(j) <= 365 * j + 99
  {
  }

  /** The year of the era containing day `doe` of the era: `doe / 365`
      overshoots the true year by at most one. */
  function YearOfEra(doe: int): (yoe: int)
    requires 0 <= doe < DaysPerEra
    ensures 0 <= yoe < 400 && YearStart(yoe) <= doe
    ensures yoe == 399 || doe < YearStart(yoe + 1)
  {
    var k := if doe / 365 < 399 then doe / 365 else 399;
    YearStartLowerBound(k + 1);
    if YearStart(k) <= doe then k
    else
      YearStartUpperBound(k - 1);
      k - 1
  }

  /** The March-based month containing day `doy` of a year. */
  function MonthOfYear(doy: int): (mp: int)
    requires 0 <= doy <= 365
    ensures 0 <= mp <= 11 && MonthStart(mp) <= doy
    ensures mp == 11 || doy < MonthStart(mp + 1)
  {
    (5 * doy + 2) / 153
  }

  /** The calendar date `doy` days after March 1 of year `yoe` of era
      `era`. */
  function DateOfYearDay(era: int, yoe: int, doy: int): (date: Date)
    requires 0 <= doy <= 365
    ensures 1 <= date.month <= 12
  {
    var mp := MonthOfYear(doy);
    var m := if mp < 10 then mp + 3 else mp - 9;
    Date(era * 400 + yoe + (if m <= 2 then 1 else 0), m, doy - MonthStart(mp) + 1)
  }

  /** The calendar date `doe` days into era `era` (era 0 starts on
      0000-03-01). */
  function CivilOfEraDay(era: int, doe: int): (date: Date)
    requires 0 <= doe < DaysPerEra
    ensures 1 <= date.month <= 12
  {
    var yoe := YearOfEra(doe);
    YearStartStep(yoe);
    DateOfYearDay(era, yoe, doe - YearStart(yoe))
  }

  /** The calendar date of day number `z` (days since 1970-01-01). */
  function CivilFromDays(z: int): (date: Date)
    ensures 1 <= date.month <= 12
  {
    CivilOfEraDay((z + EpochShift) / DaysPerEra, (z + EpochShift) % DaysPerEra)
  }

  lemma Div400(q: int, r: int)
    requires 0 <= r < 400
    ensures (q * 400 + r) / 400 == q && (q * 400 + r) % 400 == r
  {
  }

  lemma DivEra(n: int, q: int, r: int)
    requires 0 <= r < DaysPerEra && n == q * DaysPerEra + r
    ensures n / DaysPerEra == q && n % DaysPerEra == r
  {
  }

  /** The first day of March-based month `mp` of year `yoe` of era `era`. */
  lemma MonthFirstDayOfEra(era: int, yoe: int, mp: int)
    requires 0 <= yoe < 400
    ensures MonthFirstDay(era * 400 + yoe, mp) == era * DaysPerEra + YearStart(yoe) + MonthStart(mp) - EpochShift
  {
    Div400(era, yoe);
  }

  /** The day number of the date `doy` days into year `yoe` of era `era`. */
  lemma DateOfYearDayInverse(era: int, yoe: int, doy: int)
    requires 0 <= yoe < 400 && 0 <= doy <= 365
    ensures var date := DateOfYearDay(era, yoe, doy);
            DaysFromCivil(date.year, date.month, date.day) == era * DaysPerEra + YearStart(yoe) + doy - EpochShift
  {
    var mp := MonthOfYear(doy);
    var date := DateOfYearDay(era, yoe, doy);
    assert ShiftedMonth(date.month) == mp;
    assert (if date.month <= 2 then date.year - 1 else date.year) == era * 400 + yoe;
    MonthFirstDayOfEra(era, yoe, mp);
  }

  /** The day number of the date `doe` days into era `era`. */
  lemma CivilOfEraDayInverse(era: int, doe: int)
    requires 0 <= doe < DaysPerEra
    ensures var date := CivilOfEraDay(era, doe);
            DaysFromCivil(date.year, date.month, date.day) == era * DaysPerEra + doe - EpochShift
  {
    var yoe := YearOfEra(doe);
    YearStartStep(yoe);
    var doy := doe - YearStart(yoe);
    CivilOfEraDayOfYear(era, doe, yoe, doy);
    DateOfYearDayInverse(era, yoe, doy);
  }

  /** `DaysFromCivil` undoes `CivilFromDays`: every day number is the day
      number of its own calendar date. */
  lemma CivilFromDaysInverse(z: int)
    ensures var date := CivilFromDays(z);
            DaysFromCivil(date.year, date.month, date.day) == z
  {
    CivilOfEraDayInverse((z + EpochShift) / DaysPerEra, (z + EpochShift) % DaysPerEra);
  }

  /** Two day numbers with the same calendar date are the same day. */
  lemma CivilFromDaysInjective(a: int, b: int)
    requires CivilFromDays(a) == CivilFromDays(b)
    ensures a == b
  {
    CivilFromDaysInverse(a);
    CivilFromDaysInverse(b);
  }

  /** The length of March-based month `mp` as `MonthStart` counts it. */
  lemma MonthLengths(mp: int)
    requires 0 <= mp <= 10
    ensures MonthStart(mp + 1) - MonthStart(mp) == (if mp == 1 || mp == 3 || mp == 6 || mp == 8 then 30 else 31)
  {
  }

  /** A leap year's February lies in a March-based year whose successor
      starts 366 days later (or in the last year of an era). */
  lemma LeapYearOfEra(era: int, yoe: int)
    requires 0 <= yoe < 399
    requires IsLeap(era * 400 + yoe + 1)
    ensures YearStart(yoe + 1) - YearStart(yoe) == 366
  {
    EraResidues(era, yoe + 1);
    YearStartStep(yoe);
  }

  /** Leap-year residues do not depend on whole eras. */
  lemma EraResidues(era: int, a: int)
    ensures (era * 400 + a) % 4 == a % 4
    ensures (era * 400 + a) % 100 == a % 100
    ensures (era * 400 + a) % 400 == a % 400
  {
    Residue4(era * 100, a);
    Residue100(era * 4, a);
    Residue400(era, a);
  }

  lemma Residue4(q: int, a: int)
    ensures (q * 4 + a) % 4 == a % 4
  {
  }

  lemma Residue100(q: int, a: int)
    ensures (q * 100 + a) % 100 == a % 100
  {
  }

  lemma Residue400(q: int, a: int)
    ensures (q * 400 + a) % 400 == a % 400
  {
  }

  /** The last day of a March-based year with 366 days (or of the last
      year of an era) is the leap day of a leap year. */
  lemma LeapDayOfEra(era: int, yoe: int)
    requires 0 <= yoe < 400
    requires yoe == 399 || YearStart(yoe + 1) - YearStart(yoe) == 366
    ensures IsLeap(era * 400 + yoe + 1)
  {
    EraResidues(era, yoe + 1);
    if yoe < 399 {
      YearStartStep(yoe);
    }
  }

  /** The date `doy` days into a March-based year is a real date, given
      that day 365 only exists in a year ending on a leap day. */
  lemma DateOfYearDayValid(era: int, yoe: int, doy: int)
    requires 0 <= doy <= 365
    requires doy == 365 ==> IsLeap(era * 400 + yoe + 1)
    ensures ValidDate(DateOfYearDay(era, yoe, doy))
  {
    var mp := MonthOfYear(doy);
    if mp < 11 {
      MonthLengths(mp);
    }
  }

  /** Every date `CivilOfEraDay` returns is a real calendar date. */
  lemma CivilOfEraDayValid(era: int, doe: int)
    requires 0 <= doe < DaysPerEra
    ensures ValidDate(CivilOfEraDay(era, doe))
  {
    var yoe := YearOfEra(doe);
    YearStartStep(yoe);
    var doy := doe - YearStart(yoe);
    if doy == 365 {
      LeapDayOfEra(era, yoe);
    }
    CivilOfEraDayOfYear(era, doe, yoe, doy);
    DateOfYearDayValid(era, yoe, doy);
  }

  /** Every date `CivilFromDays` returns is a real calendar date. */
  lemma CivilFromDaysValid(z: int)
    ensures ValidDate(CivilFromDays(z))
  {
    CivilOfEraDayValid((z + EpochShift) / DaysPerEra, (z + EpochShift) % DaysPerEra);
  }

  /** The day of the March-based year of a real date, and its month. */
  lemma DayOfYearOfDate(date: Date)
    requires ValidDate(date)
    ensures var doy := MonthStart(ShiftedMonth(date.month)) + date.day - 1;
            && 0 <= doy <= 365
            && MonthOfYear(doy) == ShiftedMonth(date.month)
            && (doy == 365 ==> date.month == 2 && date.day == 29)
  {
    var mp := ShiftedMonth(date.month);
    if mp < 11 {
      MonthLengths(mp);
    }
  }

  /** A year of the era that brackets `doe` is the one `YearOfEra` finds. */
  lemma YearOfEraUnique(doe: int, yoe: int)
    requires 0 <= yoe < 400 && YearStart(yoe) <= doe < DaysPerEra
    requires yoe == 399 || doe < YearStart(yoe + 1)
    ensures YearOfEra(doe) == yoe
  {
    var r := YearOfEra(doe);
    if r < yoe {
      YearStartMonotone(r, yoe);
    } else if yoe < r {
      YearStartMonotone(yoe, r);
    }
  }

  /** The March-based year `y'` of a real date, its era and year of era,
      and its day of the year. */
  lemma EraOfDate(date: Date) returns (era: int, yoe: int, doy: int)
    requires ValidDate(date)
    ensures var y' := if date.month <= 2 then date.year - 1 else date.year;
            && era == y' / 400 && yoe == y' % 400 && 0 <= yoe < 400
            && y' == era * 400 + yoe
            && doy == MonthStart(ShiftedMonth(date.month)) + date.day - 1
            && 0 <= doy <= 365
            && MonthOfYear(doy) == ShiftedMonth(date.month)
            && (doy == 365 ==> IsLeap(era * 400 + yoe + 1))
  {
    var y' := if date.month <= 2 then date.year - 1 else date.year;
    era, yoe := y' / 400, y' % 400;
    doy := MonthStart(ShiftedMonth(date.month)) + date.day - 1;
    DayOfYearOfDate(date);
  }

  /** A real date is the date of its own day of the year. */
  lemma DateOfYearDayOfDate(date: Date, era: int, yoe: int, doy: int)
    requires ValidDate(date) && 0 <= doy <= 365
    requires (if date.month <= 2 then date.year - 1 else date.year) == era * 400 + yoe
    requires doy == MonthStart(ShiftedMonth(date.month)) + date.day - 1
    requires MonthOfYear(doy) == ShiftedMonth(date.month)
    ensures DateOfYearDay(era, yoe, doy) == date
  {
  }

  /** The day of the era of a real date lies in the year `YearOfEra` finds. */
  lemma YearOfEraOfDay(era: int, yoe: int, doy: int)
    requires 0 <= yoe < 400 && 0 <= doy <= 365
    requires doy == 365 ==> IsLeap(era * 400 + yoe + 1)
    ensures 0 <= YearStart(yoe) + doy < DaysPerEra
    ensures YearOfEra(YearStart(yoe) + doy) == yoe
  {
    YearStartMonotone(yoe, 399);
    if yoe < 399 {
      YearStartStep(yoe);
      if doy == 365 {
        LeapYearOfEra(era, yoe);
      }
    }
    YearOfEraUnique(YearStart(yoe) + doy, yoe);
  }

  /** Day number `z`, which lies `doe` days into era `era`, has the date
      `CivilOfEraDay` computes. */
  lemma CivilFromDaysOfEraDay(z: int, era: int, doe: int)
    requires 0 <= doe < DaysPerEra && z == era * DaysPerEra + doe - EpochShift
    ensures CivilFromDays(z) == CivilOfEraDay(era, doe)
  {
    DivEra(z + EpochShift, era, doe);
  }

  /** `CivilOfEraDay` once the year of the era is known. */
  lemma CivilOfEraDayOfYear(era: int, doe: int, yoe: int, doy: int)
    requires 0 <= doe < DaysPerEra && 0 <= doy <= 365
    requires YearOfEra(doe) == yoe && doe == YearStart(yoe) + doy
    ensures CivilOfEraDay(era, doe) == DateOfYearDay(era, yoe, doy)
  {
  }

  /** The date `doy` days into year `yoe` of era `era`, found from its day
      number `z`. */
  lemma CivilFromDaysOfYearDay(z: int, era: int, yoe: int, doy: int)
    requires 0 <= yoe < 400 && 0 <= doy <= 365
    requires doy == 365 ==> IsLeap(era * 400 + yoe + 1)
    requires z == era * DaysPerEra + YearStart(yoe) + doy - EpochShift
    ensures CivilFromDays(z) == DateOfYearDay(era, yoe, doy)
  {
    var doe := YearStart(yoe) + doy;
    YearOfEraOfDay(era, yoe, doy);
    CivilOfEraDayOfYear(era, doe, yoe, doy);
    CivilFromDaysOfEraDay(z, era, doe);
  }

  /** On real dates `CivilFromDays` undoes `DaysFromCivil`. */
  lemma DaysFromCivilInverse(date: Date)
    requires ValidDate(date)
    ensures CivilFromDays(DaysFromCivil(date.year, date.month, date.day)) == date
  {
    var era, yoe, doy := EraOfDate(date);
    DateOfYearDayOfDate(date, era, yoe, doy);
    DateOfYearDayInverse(era, yoe, doy);
    CivilFromDaysOfYearDay(DaysFromCivil(date.year, date.month, date.day), era, yoe, doy);
  }

  /** `time.Date(date.Year, date.Month, date.Day, 0, 0, x, 0, zone)` in the
      zone `offset` seconds east of UTC: the instant `x` seconds after local
      midnight of `date`. An out-of-range day is normalised forward. */
  function InstantOf(date: Date, x: int, offset: int): int
    requires 1 <= date.month <= 12
  {
    DaysFromCivil(date.year, date.month, date.day) * SecondsPerDay + x - offset
  }

  /** The local calendar day (days since 1970-01-01) containing `t`. */
  function LocalDay(t: int, offset: int): int {
    (t + offset) / SecondsPerDay
  }

  /** Seconds since local midnight of `t`. */
  function SecondOfDay(t: int, offset: int): (x: int)
    ensures 0 <= x < SecondsPerDay
  {
    (t + offset) % SecondsPerDay
  }

  /** `t.Date()`: the local calendar date of `t`. */
  function LocalDate(t: int, offset: int): (date: Date)
    ensures ValidDate(date)
  {
    CivilFromDaysValid(LocalDay(t, offset));
    CivilFromDays(LocalDay(t, offset))
  }

  lemma DivDay(n: int, q: int, r: int)
    requires 0 <= r < SecondsPerDay && n == q * SecondsPerDay + r
    ensures n / SecondsPerDay == q && n % SecondsPerDay == r
  {
  }

  /** An instant is determined by its local date and its second of day. */
  lemma InstantOfLocalDate(t: int, offset: int)
    ensures InstantOf(LocalDate(t, offset), SecondOfDay(t, offset), offset) == t
  {
    CivilFromDaysInverse(LocalDay(t, offset));
  }

  lemma LocalDayOfInstant(date: Date, x: int, offset: int)
    requires 1 <= date.month <= 12 && 0 <= x < SecondsPerDay
    ensures LocalDay(InstantOf(date, x, offset), offset) == DaysFromCivil(date.year, date.month, date.day)
    ensures SecondOfDay(InstantOf(date, x, offset), offset) == x
  {
    DivDay(InstantOf(date, x, offset) + offset, DaysFromCivil(date.year, date.month, date.day), x);
  }

  /** Conversely, the instant of a real date and second of day has that
      local date and second of day. */
  lemma LocalDateOfInstant(date: Date, x: int, offset: int)
    requires ValidDate(date) && 0 <= x < SecondsPerDay
    ensures LocalDate(InstantOf(date, x, offset), offset) == date
    ensures SecondOfDay(InstantOf(date, x, offset), offset) == x
  {
    LocalDayOfInstant(date, x, offset);
    DaysFromCivilInverse(date);
  }

  /** Local midnight of the day containing `t`, on the local clock: `t`
      less the seconds elapsed since midnight. */
  function StartOfDay(t: int, offset: int): (r: int)
    ensures r <= t < r + SecondsPerDay
    ensures SecondOfDay(r, offset) == 0
  {
    var r := t - SecondOfDay(t, offset);
    DivDay(r + offset, LocalDay(t, offset), 0);
    r
  }

  /** `StartOfDay` is `time.Date(t.Year(), t.Month(), t.Day(), 0, 0, 0, 0,
      zone)`: midnight of the local calendar date of `t`. */
  lemma StartOfDayIsMidnight(t: int, offset: int)
    ensures StartOfDay(t, offset) == InstantOf(LocalDate(t, offset), 0, offset)
    ensures LocalDate(StartOfDay(t, offset), offset) == LocalDate(t, offset)
  {
    InstantOfLocalDate(t, offset);
    LocalDateOfInstant(LocalDate(t, offset), 0, offset);
  }

  /** Local midnight is the only instant of its day that is a midnight. */
  lemma StartOfDayUnique(t: int, m: int, offset: int)
    requires m <= t < m + SecondsPerDay
    requires SecondOfDay(m, offset) == 0
    ensures StartOfDay(t, offset) == m
  {
    DivDay(t + offset, LocalDay(m, offset), t - m);
  }

  /** Truncating twice changes nothing. */
  lemma StartOfDayIdempotent(t: int, offset: int)
    ensures StartOfDay(StartOfDay(t, offset), offset) == StartOfDay(t, offset)
  {
    var r := StartOfDay(t, offset);
    StartOfDayUnique(r, r, offset);
  }

  lemma DaysApart(a: int, n: int)
    ensures (a + n * SecondsPerDay) % SecondsPerDay == a % SecondsPerDay
  {
    DivDay(a + n * SecondsPerDay, a / SecondsPerDay + n, a % SecondsPerDay);
  }

  /** Instants a whole number of days apart have midnights the same number
      of days apart. */
  lemma StartOfDayShift(t: int, offset: int, n: int)
    ensures StartOfDay(t + n * SecondsPerDay, offset) == StartOfDay(t, offset) + n * SecondsPerDay
  {
    DaysApart(t + offset, n);
  }

  /** Two instants share a local date exactly when they share a local
      midnight. */
  lemma SameLocalDate(a: int, b: int, offset: int)
    ensures LocalDate(a, offset) == LocalDate(b, offset) <==> StartOfDay(a, offset) == StartOfDay(b, offset)
  {
    if LocalDate(a, offset) == LocalDate(b, offset) {
      CivilFromDaysInjective(LocalDay(a, offset), LocalDay(b, offset));
    } else {
      assert LocalDay(a, offset) != LocalDay(b, offset);
    }
  }

  /** The day number of `date` moved by the given years, months and days,
      normalised as `time.Date` does: the month rolls over into the year,
      and an out-of-range day rolls over into the following months. */
  function ShiftDate(date: Date, years: int, months: int, days: int): int {
    var m0 := date.month - 1 + months;
    DaysFromCivil(date.year + years + m0 / 12, m0 % 12 + 1, 1) + date.day - 1 + days
  }

  /** Go's `t.AddDate(years, months, days)` in a fixed zone: move the local
      calendar date, keep the local time of day. */
  function AddDate(t: int, offset: int, years: int, months: int, days: int): int {
    ShiftDate(LocalDate(t, offset), years, months, days) * SecondsPerDay + SecondOfDay(t, offset) - offset
  }

  /** Day `d` of a month lies `d - 1` days after its first day. */
  lemma DaysFromCivilDay(y: int, m: int, d: int)
    requires 1 <= m <= 12
    ensures DaysFromCivil(y, m, d) == DaysFromCivil(y, m, 1) + d - 1
  {
  }

  /** Shifting a date is counting from the first of the normalised month
      `m` of year `y`. */
  lemma ShiftDateOf(date: Date, years: int, months: int, days: int, y: int, m: int, d: int)
    requires y == date.year + years + (date.month - 1 + months) / 12
    requires m == (date.month - 1 + months) % 12 + 1
    requires d == date.day + days
    ensures ShiftDate(date, years, months, days) == DaysFromCivil(y, m, d)
  {
    DaysFromCivilDay(y, m, d);
  }

  /** `AddDate` on an instant given by its local date and time of day is
      `time.Date` with the year, month and day fields added: the month
      `date.month + months` carries into the year `y` and becomes month `m`,
      and the day `d` is normalised by `time.Date`. */
  lemma AddDateOfDate(date: Date, x: int, offset: int, years: int, months: int, days: int, y: int, m: int, d: int)
    requires ValidDate(date) && 0 <= x < SecondsPerDay
    requires y == date.year + years + (date.month - 1 + months) / 12
    requires m == (date.month - 1 + months) % 12 + 1
    requires d == date.day + days
    ensures AddDate(InstantOf(date, x, offset), offset, years, months, days) == InstantOf(Date(y, m, d), x, offset)
  {
    LocalDateOfInstant(date, x, offset);
    ShiftDateOf(date, years, months, days, y, m, d);
  }

  /** Day `d + days` of a month is `days` whole days after day `d`. */
  lemma InstantOfDays(date: Date, x: int, offset: int, days: int)
    requires 1 <= date.month <= 12
    ensures InstantOf(Date(date.year, date.month, date.day + days), x, offset)
            == InstantOf(date, x, offset) + days * SecondsPerDay
  {
    DaysFromCivilDay(date.year, date.month, date.day + days);
    DaysFromCivilDay(date.year, date.month, date.day);
  }

  lemma AddDateDaysOfDate(date: Date, x: int, offset: int, days: int)
    requires ValidDate(date) && 0 <= x < SecondsPerDay
    ensures AddDate(InstantOf(date, x, offset), offset, 0, 0, days) == InstantOf(date, x, offset) + days * SecondsPerDay
  {
    AddDateOfDate(date, x, offset, 0, 0, days, date.year, date.month, date.day + days);
    InstantOfDays(date, x, offset, days);
  }

  /** Adding days in a fixed zone is adding whole 86400-second days. */
  lemma AddDateDays(t: int, offset: int, days: int)
    ensures AddDate(t, offset, 0, 0, days) == t + days * SecondsPerDay
  {
    InstantOfLocalDate(t, offset);
    AddDateDaysOfDate(LocalDate(t, offset), SecondOfDay(t, offset), offset, days);
  }

  /** Adding years to a date: the same month and day of the target year,
      normalised forward when that day does not exist. */
  lemma AddDateYearsOfDate(date: Date, x: int, offset: int, years: int)
    requires ValidDate(date) && 0 <= x < SecondsPerDay
    ensures AddDate(InstantOf(date, x, offset), offset, years, 0, 0)
            == InstantOf(Date(date.year + years, date.month, date.day), x, offset)
  {
    AddDateOfDate(date, x, offset, years, 0, 0, date.year + years, date.month, date.day);
  }

  /** Adding years whose target date exists keeps the month, the day and the
      local time of day and changes only the year. */
  lemma AddDateYearsExact(t: int, offset: int, years: int)
    requires var date := LocalDate(t, offset);
             ValidDate(Date(date.year + years, date.month, date.day))
    ensures var date := LocalDate(t, offset);
            var r := AddDate(t, offset, years, 0, 0);
            && LocalDate(r, offset) == Date(date.year + years, date.month, date.day)
            && SecondOfDay(r, offset) == SecondOfDay(t, offset)
  {
    var date, x := LocalDate(t, offset), SecondOfDay(t, offset);
    InstantOfLocalDate(t, offset);
    AddDateYearsOfDate(date, x, offset, years);
    LocalDateOfInstant(Date(date.year + years, date.month, date.day), x, offset);
  }

  /** The leap day plus one year is March 1 of the next year, at the same
      local time: February 29 of a common year is normalised forward. */
  lemma AddDateLeapDay(x: int, offset: int)
    requires 0 <= x < SecondsPerDay
    ensures AddDate(InstantOf(Date(2024, 2, 29), x, offset), offset, 1, 0, 0) == InstantOf(Date(2025, 3, 1), x, offset)
  {
    AddDateYearsOfDate(Date(2024, 2, 29), x, offset, 1);
    LeapDayNormalised(x, offset);
  }

  /** `time.Date(2025, 2, 29, ...)` is March 1, 2025. */
  lemma LeapDayNormalised(x: int, offset: int)
    ensures InstantOf(Date(2025, 2, 29), x, offset) == InstantOf(Date(2025, 3, 1), x, offset)
  {
    assert MonthFirstDay(2024, 11) == 20120;
    assert MonthFirstDay(2025, 0) == 20148;
    assert DaysFromCivil(2025, 2, 29) == 20148 == DaysFromCivil(2025, 3, 1);
  }
}
