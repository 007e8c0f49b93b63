/** The arithmetic behind JavaScript's `new Date(year, month, day, hours, minutes)`
    (ECMA-262 MakeDay, MakeTime, MakeDate and TimeClip) on the proleptic Gregorian calendar. */
module JsDate {
  import opened Wrappers

  /** Time values beyond 8.64e15 ms either side of the epoch are `NaN`. */
  const MaxTimeValue: int := 8_640_000_000_000_000

  /** The clock the handlers read: the current time value and the local zone's offset from UTC,
      both in milliseconds. */
  datatype Clock = Clock(now: int, zoneOffset: int)

  /** Days from 1970-01-01 to year `y`, month `m` (1-12), day `d` of the proleptic Gregorian
      calendar. Dafny's `/` on `int` rounds toward negative infinity for a positive divisor,
      which is the floor the calendar needs. */
  function DaysFromCivil(y: int, m: int, d: int): int
    requires 1 <= m <= 12
  {
    var y' := if m <= 2 then y - 1 else y;
    var era := y' / 400;
    var yoe := y' - era * 400;
    var mp := if m > 2 then m - 3 else m + 9;
    var doy := (153 * mp + 2) / 5 + d - 1;
    var doe := yoe * 365 + yoe / 4 - yoe / 100 + doy;
    era * 146097 + doe - 719468
  }

  /** MakeDay: a month outside 0..11 carries into the year, a day outside the month carries
      into the following or preceding months. */
  function MakeDay(year: int, month: int, date: int): int
  {
    DaysFromCivil(year + month / 12, month % 12 + 1, 1) + date - 1
  }

  /** Month overflow carries into the year: month 12 of year y is month 0 of year y + 1. */
  lemma MonthCarries(year: int, month: int, date: int)
    ensures MakeDay(year, month + 12, date) == MakeDay(year + 1, month, date)
  {
    assert (month + 12) / 12 == month / 12 + 1;
    assert (month + 12) % 12 == month % 12;
  }

  /** A leap year of the proleptic Gregorian calendar. */
  predicate IsLeapYear(y: int) {
    y % 4 == 0 && (y % 100 != 0 || y % 400 == 0)
  }

  /** The number of days in month `m` (1-12) of year `y`. */
  function DaysInMonth(y: int, m: int): int
    requires 1 <= m <= 12
  {
    if m == 2 then (if IsLeapYear(y) then 29 else 28)
    else if m == 4 || m == 6 || m == 9 || m == 11 then 30
    else 31
  }

  /** Day 0 is 1 January 1970. */
  lemma Epoch()
    ensures DaysFromCivil(1970, 1, 1) == 0
  {
  }

  /** Consecutive days of a month are consecutive day numbers. */
  lemma NextDay(y: int, m: int, d: int)
    requires 1 <= m <= 12
    ensures DaysFromCivil(y, m, d + 1) == DaysFromCivil(y, m, d) + 1
  {
  }

  /** The days from 1 March of year `y` to 1 March of `y + 1` of the computation above:
      `era * 146097 + yoe * 365 + yoe / 4 - yoe / 100` for `y = era * 400 + yoe`. */
  function MarchDays(y: int): int
  {
    var era := y / 400;
    var yoe := y - era * 400;
    era * 146097 + yoe * 365 + yoe / 4 - yoe / 100
  }

  /** `x == q * n + r` with `0 <= r < n` fixes the quotient and the remainder. */
  lemma DivModUnique(x: int, n: int, q: int, r: int)
    requires n == 4 || n == 12 || n == 100 || n == 400
    requires x == q * n + r && 0 <= r < n
    ensures x / n == q && x % n == r
  {
  }

  /** Within one 400-year era the leap-year rule reads the same on the year of the era. */
  lemma {:induction false} LeapInEra(era: int, yoe: int)
    requires 0 <= yoe < 400
    ensures IsLeapYear(era * 400 + yoe) <==> yoe % 4 == 0 && (yoe % 100 != 0 || yoe == 0)
  {
    var x := era * 400 + yoe;
    DivModUnique(x, 4, era * 100 + yoe / 4, yoe % 4);
    DivModUnique(x, 100, era * 4 + yoe / 100, yoe % 100);
    DivModUnique(x, 400, era, yoe);
  }

  /** The days to 1 March of the year `yoe` of era `era`. */
  lemma MarchDaysInEra(era: int, yoe: int)
    requires 0 <= yoe < 400
    ensures MarchDays(era * 400 + yoe) == era * 146097 + yoe * 365 + yoe / 4 - yoe / 100
  {
    DivModUnique(era * 400 + yoe, 400, era, yoe);
  }

  /** Counting one more number adds one multiple of `n` exactly when that number is one. */
  lemma {:induction false} QuotientStep(x: int, n: int)
    requires n == 4 || n == 100
    requires 0 <= x
    ensures (x + 1) / n == x / n + (if (x + 1) % n == 0 then 1 else 0)
  {
    if (x + 1) % n == 0 {
      DivModUnique(x, n, (x + 1) / n - 1, n - 1);
    } else {
      DivModUnique(x, n, (x + 1) / n, (x + 1) % n - 1);
    }
  }

  /** From 1 March of `y` to 1 March of `y + 1` there are 366 days exactly when February of
      `y + 1` has 29 days. */
  lemma {:induction false} MarchToMarch(y: int)
    ensures MarchDays(y + 1) == MarchDays(y) + (if IsLeapYear(y + 1) then 366 else 365)
  {
    var era := y / 400;
    var yoe := y % 400;
    assert y == era * 400 + yoe;
    MarchDaysInEra(era, yoe);
    if yoe == 399 {
      assert y + 1 == (era + 1) * 400 + 0;
      MarchDaysInEra(era + 1, 0);
      LeapInEra(era + 1, 0);
    } else {
      assert y + 1 == era * 400 + (yoe + 1);
      MarchDaysInEra(era, yoe + 1);
      LeapInEra(era, yoe + 1);
      YearInEra(yoe);
    }
  }

  /** Within an era, year `yoe + 1` starts 366 days after year `yoe` exactly when it is a leap
      year of the era. */
  lemma {:induction false} YearInEra(yoe: int)
    requires 0 <= yoe < 399
    ensures (yoe + 1) * 365 + (yoe + 1) / 4 - (yoe + 1) / 100 ==
            yoe * 365 + yoe / 4 - yoe / 100 + (if (yoe + 1) % 4 == 0 && (yoe + 1) % 100 != 0 then 366 else 365)
  {
    QuotientStep(yoe, 4);
    QuotientStep(yoe, 100);
    if (yoe + 1) % 100 == 0 {
      DivModUnique(yoe + 1, 4, (yoe + 1) / 100 * 25, 0);
    }
  }

  /** The first of a month is the first of the month before plus that month's length, so the
      day numbers follow the Gregorian calendar month by month. */
  lemma {:induction false} NextMonth(y: int, m: int)
    requires 1 <= m < 12
    ensures DaysFromCivil(y, m + 1, 1) == DaysFromCivil(y, m, 1) + DaysInMonth(y, m)
  {
    if m == 2 {
      EndOfFebruary(y);
    } else {
      WithinMarchYear(y, m);
    }
  }

  /** 1 March follows 1 February by the length of February. */
  lemma {:induction false} EndOfFebruary(y: int)
    ensures DaysFromCivil(y, 3, 1) == DaysFromCivil(y, 2, 1) + DaysInMonth(y, 2)
  {
    MarchToMarch(y - 1);
    assert DaysFromCivil(y, 3, 1) == MarchDays(y) - 719468;
    assert DaysFromCivil(y, 2, 1) == MarchDays(y - 1) + 337 - 719468;
  }

  /** Months that do not end in March lie in the same year counted from March, so only the
      offset of the month within that year changes. */
  lemma {:induction false} WithinMarchYear(y: int, m: int)
    requires 1 <= m < 12 && m != 2
    ensures DaysFromCivil(y, m + 1, 1) == DaysFromCivil(y, m, 1) + DaysInMonth(y, m)
  {
    var mp := if m > 2 then m - 3 else m + 9;
    assert (153 * (mp + 1) + 2) / 5 - (153 * mp + 2) / 5 == DaysInMonth(y, m);
  }

  /** 1 January follows 1 December of the year before by 31 days. */
  lemma NextYear(y: int)
    ensures DaysFromCivil(y + 1, 1, 1) == DaysFromCivil(y, 12, 1) + 31
  {
  }

  /** MakeDay on a month of the year is the calendar's day number. */
  lemma MakeDayInYear(year: int, month: int, date: int)
    requires 0 <= month <= 11
    ensures MakeDay(year, month, date) == DaysFromCivil(year, month + 1, 1) + date - 1
  {
    DivModUnique(month, 12, 0, month);
  }

  /** The year `new Date(y, ...)` means: 0-99 are 1900-1999. */
  function FullYear(y: int): (r: int)
    ensures 0 <= y <= 99 ==> r == 1900 + y
    ensures !(0 <= y <= 99) ==> r == y
  {
    if 0 <= y <= 99 then 1900 + y else y
  }

  /** The time value of the local date and time, before the zone offset is applied: 86400000 ms
      a day, 3600000 an hour, 60000 a minute. */
  function LocalTime(y: int, m: int, d: int, h: int, min: int): int
  {
    MakeDay(FullYear(y), m, d) * 86_400_000 + h * 3_600_000 + min * 60_000
  }

  /** `new Date(y, m, d, h, min)` read in the local zone: years 0-99 mean 1900-1999, the zone
      offset is subtracted, and the result is `None` (an Invalid Date, time value `NaN`) exactly
      when it falls outside the time range. */
  function LocalDate(y: int, m: int, d: int, h: int, min: int, clock: Clock): (r: Option<int>)
    ensures r.Some? <==> -MaxTimeValue <= LocalTime(y, m, d, h, min) - clock.zoneOffset <= MaxTimeValue
    ensures r.Some? ==> r.value == LocalTime(y, m, d, h, min) - clock.zoneOffset
  {
    var t := LocalTime(y, m, d, h, min) - clock.zoneOffset;
    if -MaxTimeValue <= t <= MaxTimeValue then Some(t) else None
  }

  /** The local date of day number `days` (counted from 1 January 1970) at `h`:`min`, in a zone
      `zoneOffset` ms ahead of UTC, is that many whole days of milliseconds plus the hours and
      minutes, less the offset. */
  lemma LocalDateOfDay(y: int, m: int, d: int, h: int, min: int, clock: Clock, days: int, t: int)
    requires MakeDay(FullYear(y), m, d) == days
    requires t == days * 86_400_000 + h * 3_600_000 + min * 60_000 - clock.zoneOffset
    requires -MaxTimeValue <= t <= MaxTimeValue
    ensures LocalDate(y, m, d, h, min, clock) == Some(t)
  {
  }

  /** Fixed points of the arithmetic: midnight of 1 January 2024 in UTC is 1704067200000 ms,
      and the same local time three hours behind UTC is three hours later. */
  lemma NewYear2024()
    ensures LocalDate(2024, 0, 1, 0, 0, Clock(0, 0)) == Some(1_704_067_200_000)
    ensures LocalDate(2024, 0, 1, 0, 0, Clock(0, -10_800_000)) == Some(1_704_078_000_000)
  {
    NewYear2024Day();
    LocalDateOfDay(2024, 0, 1, 0, 0, Clock(0, 0), 19723, 1_704_067_200_000);
    LocalDateOfDay(2024, 0, 1, 0, 0, Clock(0, -10_800_000), 19723, 1_704_078_000_000);
  }

  /** 1 January 2024 is day 19723. */
  lemma NewYear2024Day()
    ensures MakeDay(FullYear(2024), 0, 1) == 19723
  {
    assert DaysFromCivil(2024, 1, 1) == 19723;
  }

  /** The two-digit year 99 is 1999: 31 December 1999 at midnight UTC is 946598400000 ms. */
  lemma LastDayOf99()
    ensures LocalDate(99, 11, 31, 0, 0, Clock(0, 0)) == Some(946_598_400_000)
  {
    LastDayOf99Day();
    LocalDateOfDay(99, 11, 31, 0, 0, Clock(0, 0), 10956, 946_598_400_000);
  }

  /** 31 December of the year 99, that is of 1999, is day 10956. */
  lemma LastDayOf99Day()
    ensures MakeDay(FullYear(99), 11, 31) == 10956
  {
    assert DaysFromCivil(1999, 12, 1) == 10926;
  }

  /** Hours and minutes count from midnight: 10:30 on the epoch day is 37800000 ms. */
  lemma EpochMorning()
    ensures LocalDate(1970, 0, 1, 10, 30, Clock(0, 0)) == Some(37_800_000)
  {
    Epoch();
    assert MakeDay(FullYear(1970), 0, 1) == 0;
    LocalDateOfDay(1970, 0, 1, 10, 30, Clock(0, 0), 0, 37_800_000);
  }

  /** Two-digit years are read as years of the 1900s. */
  lemma TwoDigitYears(y: int, m: int, d: int, h: int, min: int, clock: Clock)
    requires 0 <= y <= 99
    ensures LocalDate(y, m, d, h, min, clock) == LocalDate(1900 + y, m, d, h, min, clock)
  {
  }

  /** The range limit: a date 300000 years on is an Invalid Date. */
  lemma FarFutureIsInvalid(clock: Clock)
    requires -86_400_000 <= clock.zoneOffset <= 86_400_000
    ensures LocalDate(300_000, 0, 1, 0, 0, clock).None?
  {
  }
}
