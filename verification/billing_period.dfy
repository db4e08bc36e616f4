// The billing period of a year and a month, in local time a fixed number of minutes from UTC.

module BillingPeriod {
  import opened IsoTime

  /** new Date(year, …) reads the years 0 to 99 as 1900 to 1999. */
  function FullYear(year: int): int {
    if 0 <= year <= 99 then 1900 + year else year
  }

  /** Months since January of year 0; months outside 1 to 12 carry into the year. */
  function MonthIndex(year: int, month: int): int {
    12 * FullYear(year) + month - 1
  }

  /** Day number of the first of a month. */
  function FirstDay(k: int): int {
    DayFromYear(k / 12) + MonthStart(k % 12, Leap(k / 12))
  }

  datatype Period = Period(start: int, end: int)

  /** From the first instant of month k to 23:59:59 of its last day, as instants. */
  function PeriodOf(k: int, offset: int): Period {
    Period(FirstDay(k) * DAY_MS - offset * MINUTE_MS, FirstDay(k + 1) * DAY_MS - 1000 - offset * MINUTE_MS)
  }

  /** new Date(year, month - 1, 1) and new Date(year, month, 0, 23, 59, 59) */
  function MonthPeriod(year: int, month: int, offset: int): Period {
    PeriodOf(MonthIndex(year, month), offset)
  }

  lemma MonthLength(k: int)
    ensures FirstDay(k) + 28 <= FirstDay(k + 1) <= FirstDay(k) + 31
  {
    var y, m := k / 12, k % 12;
    YearLength(y);
    if m == 11 {
      assert (k + 1) / 12 == y + 1 && (k + 1) % 12 == 0;
    } else {
      assert (k + 1) / 12 == y && (k + 1) % 12 == m + 1;
    }
  }

  lemma {:induction false} FirstDaysInOrder(j: int, k: int)
    requires j <= k
    ensures FirstDay(j) + 28 * (k - j) <= FirstDay(k)
    decreases k - j
  {
    hide FirstDay;
    if j < k {
      MonthLength(j);
      FirstDaysInOrder(j + 1, k);
    }
  }

  /** Two requests bill the same period exactly when they mean the same month. */
  lemma SamePeriodExact(year: int, month: int, otherYear: int, otherMonth: int, offset: int)
    ensures MonthPeriod(year, month, offset) == MonthPeriod(otherYear, otherMonth, offset) <==>
      MonthIndex(year, month) == MonthIndex(otherYear, otherMonth)
  {
    hide FirstDay;
    var j, k := MonthIndex(year, month), MonthIndex(otherYear, otherMonth);
    if j < k {
      FirstDaysInOrder(j, k);
    } else if k < j {
      FirstDaysInOrder(k, j);
    }
  }

  /**
   * The period, read on the local calendar, runs from the first of the month to the last second before the next one.
   */
  lemma PeriodsAbut(k: int, offset: int)
    ensures PeriodOf(k, offset).start + 28 * DAY_MS - 1000 <= PeriodOf(k, offset).end
    ensures PeriodOf(k, offset).end + 1000 == PeriodOf(k + 1, offset).start
  {
    MonthLength(k);
  }

  function Local(t: int, offset: int): int {
    t + offset * MINUTE_MS
  }

  /** The month an instant has on the local calendar. */
  function LocalMonth(t: int, offset: int): int {
    12 * CivilOf(Local(t, offset)).year + CivilOf(Local(t, offset)).month
  }

  predicate InPeriod(t: int, k: int, offset: int) {
    PeriodOf(k, offset).start <= t <= PeriodOf(k, offset).end
  }

  lemma MonthStarts(y: int, m: nat)
    requires m < 12
    ensures FirstDay(12 * y + m) == DayFromYear(y) + MonthStart(m, Leap(y))
    ensures FirstDay(12 * y + m + 1) == DayFromYear(y) + MonthStart(m + 1, Leap(y))
  {
    hide DayFromYear, Leap;
    var k := 12 * y + m;
    assert k / 12 == y && k % 12 == m;
    if m == 11 {
      assert (k + 1) / 12 == y + 1 && (k + 1) % 12 == 0;
      YearLength(y);
    } else {
      assert (k + 1) / 12 == y && (k + 1) % 12 == m + 1;
    }
  }

  lemma DayInMonth(t: int, offset: int)
    ensures var k := LocalMonth(t, offset); FirstDay(k) <= Local(t, offset) / DAY_MS < FirstDay(k + 1)
  {
    hide FirstDay, MonthStart, DayFromYear, Leap, CivilOf, Local;
    var c := CivilOf(Local(t, offset));
    DayWithin(Local(t, offset));
    MonthStarts(c.year, c.month);
  }

  lemma OnSecond(t: int, offset: int)
    requires t % 1000 == 0
    ensures var local := Local(t, offset); local <= local / DAY_MS * DAY_MS + DAY_MS - 1000
  {
    var local, seconds := Local(t, offset), t / 1000 + 60 * offset;
    var day := local / DAY_MS;
    assert local == 1000 * seconds;
    assert local - DAY_MS * day == 1000 * (seconds - 86400 * day) < DAY_MS;
    assert seconds - 86400 * day <= 86399;
  }

  /**
   * Every instant on a whole second, and so every aggregate's window start, is billed in exactly one month: its own.
   */
  lemma BilledOnce(t: int, k: int, offset: int)
    requires t % 1000 == 0
    ensures InPeriod(t, k, offset) <==> k == LocalMonth(t, offset)
  {
    hide FirstDay, LocalMonth;
    var own, day := LocalMonth(t, offset), Local(t, offset) / DAY_MS;
    DayInMonth(t, offset);
    OnSecond(t, offset);
    MonthLength(k);
    if k < own {
      FirstDaysInOrder(k + 1, own);
    } else if k > own {
      FirstDaysInOrder(own + 1, k);
    }
  }

  /** Any year and month of the calendar: the period starts at local midnight on the first of that month and ends at
      23:59:59 on its last day, the next day being the first of the next month. */
  lemma PeriodOnCalendar(year: int, month: int, offset: int)
    requires (year < 0 || year > 99) && 1 <= month <= 12
    ensures var p := MonthPeriod(year, month, offset);
      && CivilOf(p.start + offset * MINUTE_MS) == Civil(year, month - 1, 1, 0, 0, 0, 0)
      && CivilOf(p.end + 1000 + offset * MINUTE_MS) ==
           Civil(if month == 12 then year + 1 else year, month % 12, 1, 0, 0, 0, 0)
  {
    hide FirstDay, CivilOf;
    var k := 12 * year + (month - 1);
    assert MonthIndex(year, month) == k;
    PeriodsAbut(k, offset);
    FirstOfMonth(year, month - 1);
    if month == 12 {
      FirstOfMonth(year + 1, 0);
      assert 12 * (year + 1) == k + 1;
    } else {
      FirstOfMonth(year, month);
    }
  }

  /** Years below 100 are read as years of the twentieth century. */
  lemma ShortYears(year: int, month: int, offset: int)
    requires 0 <= year <= 99
    ensures MonthPeriod(year, month, offset) == MonthPeriod(1900 + year, month, offset)
  {
    hide PeriodOf;
    assert MonthIndex(year, month) == MonthIndex(1900 + year, month);
  }

  lemma FirstOfMonth(y: int, m: nat)
    requires m < 12
    ensures CivilOf(FirstDay(12 * y + m) * DAY_MS) == Civil(y, m, 1, 0, 0, 0, 0)
  {
    var day := FirstDay(12 * y + m);
    MonthStarts(y, m);
    FirstHasDate(y, m, day);
    assert day * DAY_MS / DAY_MS == day && day * DAY_MS % DAY_MS == 0;
  }

  /** The first of a month is found to lie in that year. */
  lemma FirstHasYear(y: int, m: nat, day: int)
    requires m < 12 && day == DayFromYear(y) + MonthStart(m, Leap(y))
    ensures YearFromDay(day) == y
  {
    var z := YearFromDay(day);
    YearContains(day);
    WholeYear(Leap(y));
    YearLength(y);
    hide DayFromYear, Leap, YearFromDay, MonthStart;
    MonthsInOrder(m + 1, 12, Leap(y));
    MonthLengths(Leap(y), m);
    if z < y {
      YearsInOrder(z + 1, y);
    } else if z > y {
      YearsInOrder(y + 1, z);
    }
  }

  lemma {:induction false} FirstHasMonth(m: nat, leap: bool, from: nat)
    requires from <= m < 12
    ensures MonthFrom(MonthStart(m, leap), leap, from) == m
    decreases m - from
  {
    hide MonthStart;
    MonthLengths(leap, m);
    if from < m {
      MonthsInOrder(from + 1, m, leap);
      FirstHasMonth(m, leap, from + 1);
    }
  }

  lemma FirstHasDate(y: int, m: nat, day: int)
    requires m < 12 && day == DayFromYear(y) + MonthStart(m, Leap(y))
    ensures CivilDate(day) == (y, m, 1)
  {
    FirstHasYear(y, m, day);
    FirstHasMonth(m, Leap(y), 0);
    hide DayFromYear, Leap, YearFromDay, MonthStart, MonthFrom;
  }

  // ---------------------------------------------------------------- energy

  /** A row of aggregates_1m. */
  datatype Minute = Minute(meterId: string, windowStart: int, avgPowerKw: real)

  predicate WholeSeconds(rows: seq<Minute>) {
    forall i :: 0 <= i < |rows| ==> rows[i].windowStart % 1000 == 0
  }

  /** COALESCE(SUM(avg_power_kw * (1.0 / 60.0)), 0) over the meter's rows of the period of month k. */
  function Consumption(rows: seq<Minute>, meterId: string, k: int, offset: int): real {
    if rows == [] then 0.0
    else
      var r := rows[|rows| - 1];
      Consumption(rows[..|rows| - 1], meterId, k, offset) +
      if r.meterId == meterId && InPeriod(r.windowStart, k, offset) then r.avgPowerKw / 60.0 else 0.0
  }

  /** The consumption billed for the months from k to last - 1. */
  function Billed(rows: seq<Minute>, meterId: string, k: int, last: int, offset: int): real
    decreases last - k
  {
    if k >= last then 0.0 else Consumption(rows, meterId, k, offset) + Billed(rows, meterId, k + 1, last, offset)
  }

  /** The energy of the meter's rows whose local month is one of these. */
  function Energy(rows: seq<Minute>, meterId: string, k: int, last: int, offset: int): real {
    if rows == [] then 0.0
    else
      var r := rows[|rows| - 1];
      Energy(rows[..|rows| - 1], meterId, k, last, offset) +
      if r.meterId == meterId && k <= LocalMonth(r.windowStart, offset) < last then r.avgPowerKw / 60.0 else 0.0
  }

  lemma {:induction false} EnergySplits(rows: seq<Minute>, meterId: string, k: int, last: int, offset: int)
    requires WholeSeconds(rows) && k < last
    ensures Energy(rows, meterId, k, last, offset) ==
      Consumption(rows, meterId, k, offset) + Energy(rows, meterId, k + 1, last, offset)
    decreases |rows|
  {
    hide InPeriod, LocalMonth;
    if rows != [] {
      EnergySplits(rows[..|rows| - 1], meterId, k, last, offset);
      BilledOnce(rows[|rows| - 1].windowStart, k, offset);
    }
  }

  lemma {:induction false} NoMonths(rows: seq<Minute>, meterId: string, k: int, last: int, offset: int)
    requires last <= k
    ensures Energy(rows, meterId, k, last, offset) == 0.0
    decreases |rows|
  {
    hide LocalMonth;
    if rows != [] {
      NoMonths(rows[..|rows| - 1], meterId, k, last, offset);
    }
  }

  /** Over any run of months, what is billed month by month is the energy of those months: no minute twice, none left
      out. */
  lemma {:induction false} EnergyBilledOnce(rows: seq<Minute>, meterId: string, k: int, last: int, offset: int)
    requires WholeSeconds(rows)
    ensures Billed(rows, meterId, k, last, offset) == Energy(rows, meterId, k, last, offset)
    decreases last - k
  {
    hide Consumption, Energy;
    if k < last {
      EnergySplits(rows, meterId, k, last, offset);
      EnergyBilledOnce(rows, meterId, k + 1, last, offset);
    } else {
      NoMonths(rows, meterId, k, last, offset);
    }
  }
}
