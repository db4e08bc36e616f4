// Time buckets and their ISO keys. An instant is a count of milliseconds since 1970-01-01 UTC;
// years, months and dates follow sections 15.9.1.2 to 15.9.1.5 of ECMA-262 edition 5.1, and the
// text form follows section 15.9.1.15 of ECMA-262 edition 5.1 (Date.prototype.toISOString).

module IsoTime {
  import opened Arithmetic
  import opened Text

  const DAY_MS := 86400000
  const HOUR_MS := 3600000
  const MINUTE_MS := 60000
  const QUARTER_MS := 900000

  // ---------------------------------------------------------------- calendar

  function DayFromYear(y: int): int {
    365 * (y - 1970) + (y - 1969) / 4 - (y - 1901) / 100 + (y - 1601) / 400
  }

  predicate Leap(y: int) {
    y % 4 == 0 && (y % 100 != 0 || y % 400 == 0)
  }

  lemma Every4(y: int)
    ensures (y - 1968) / 4 - (y - 1969) / 4 == if y % 4 == 0 then 1 else 0
  {
    var q, r := y / 4, y % 4;
    assert y - 1968 == 4 * (q - 492) + r && y - 1969 == 4 * (q - 492) + r - 1;
  }

  lemma Every100(y: int)
    ensures (y - 1900) / 100 - (y - 1901) / 100 == if y % 100 == 0 then 1 else 0
  {
    var q, r := y / 100, y % 100;
    assert y - 1900 == 100 * (q - 19) + r && y - 1901 == 100 * (q - 19) + r - 1;
  }

  lemma Every400(y: int)
    ensures (y - 1600) / 400 - (y - 1601) / 400 == if y % 400 == 0 then 1 else 0
  {
    var q, r := y / 400, y % 400;
    assert y - 1600 == 400 * (q - 4) + r && y - 1601 == 400 * (q - 4) + r - 1;
  }

  lemma Multiple(k: int)
    ensures 100 * k % 100 == 0 && 4 * k % 4 == 0
  {
  }

  lemma Multiples(y: int)
    ensures y % 400 == 0 ==> y % 100 == 0
    ensures y % 100 == 0 ==> y % 4 == 0
  {
    var c, q := 4 * (y / 400), 25 * (y / 100);
    Multiple(c);
    Multiple(q);
    assert y % 400 == 0 ==> y == 100 * c;
    assert y % 100 == 0 ==> y == 4 * q;
  }

  lemma YearLength(y: int)
    ensures DayFromYear(y + 1) - DayFromYear(y) == if Leap(y) then 366 else 365
  {
    Every4(y);
    Every100(y);
    Every400(y);
    Multiples(y);
    assert y + 1 - 1969 == y - 1968 && y + 1 - 1901 == y - 1900 && y + 1 - 1601 == y - 1600;
  }

  lemma {:induction false} YearsInOrder(y: int, z: int)
    requires y <= z
    ensures DayFromYear(y) <= DayFromYear(z)
    decreases z - y
  {
    if y < z {
      YearLength(y);
      YearsInOrder(y + 1, z);
    }
  }

  function YearUp(d: int, y: int): int
    requires DayFromYear(y) <= d
    decreases d - DayFromYear(y)
  {
    YearLength(y);
    if DayFromYear(y + 1) <= d then YearUp(d, y + 1) else y
  }

  function YearDown(d: int, y: int): int
    requires d < DayFromYear(y + 1)
    decreases DayFromYear(y + 1) - d
  {
    YearLength(y);
    if d < DayFromYear(y) then YearDown(d, y - 1) else y
  }

  function YearFromDay(d: int): int {
    if d >= 0 then YearUp(d, 1970) else YearDown(d, 1969)
  }

  predicate InYear(d: int, y: int) {
    DayFromYear(y) <= d < DayFromYear(y + 1)
  }

  lemma {:induction false} YearUpContains(d: int, y: int)
    requires DayFromYear(y) <= d
    ensures InYear(d, YearUp(d, y))
    decreases d - DayFromYear(y)
  {
    YearLength(y);
    if DayFromYear(y + 1) <= d {
      YearUpContains(d, y + 1);
    }
  }

  lemma {:induction false} YearDownContains(d: int, y: int)
    requires d < DayFromYear(y + 1)
    ensures InYear(d, YearDown(d, y))
    decreases DayFromYear(y + 1) - d
  {
    YearLength(y);
    if d < DayFromYear(y) {
      YearDownContains(d, y - 1);
    }
  }

  /** Every day lies in the year found for it. */
  lemma YearContains(d: int)
    ensures InYear(d, YearFromDay(d))
  {
    if d >= 0 {
      YearUpContains(d, 1970);
    } else {
      YearDownContains(d, 1969);
    }
  }

  /** Days of the year before month m (0 is January, 12 is past December). */
  function MonthStart(m: nat, leap: bool): (d: nat)
    requires m <= 12
    ensures d <= 366
  {
    [0, 31, 59, 90, 120, 151, 181, 212, 243, 273, 304, 334, 365][m] + if leap && m >= 2 then 1 else 0
  }

  /** Thirty days have September, April, June and November. */
  lemma MonthDays(m: nat, leap: bool)
    requires m < 12
    ensures MonthStart(m + 1, leap) - MonthStart(m, leap) ==
      if m == 1 then (if leap then 29 else 28) else if m in {3, 5, 8, 10} then 30 else 31
  {
  }

  lemma {:induction false} MonthsInOrder(m: nat, n: nat, leap: bool)
    requires m <= n <= 12
    ensures MonthStart(m, leap) <= MonthStart(n, leap)
    decreases n - m
  {
    if m < n {
      MonthsInOrder(m + 1, n, leap);
    }
  }

  function MonthFrom(d: int, leap: bool, m: nat): (r: nat)
    requires m < 12
    ensures r < 12
    decreases 12 - m
  {
    if m == 11 || d < MonthStart(m + 1, leap) then m else MonthFrom(d, leap, m + 1)
  }

  lemma MonthLengths(leap: bool, m: nat)
    requires m < 12
    ensures MonthStart(m, leap) < MonthStart(m + 1, leap) <= MonthStart(m, leap) + 31
  {
  }

  lemma {:induction false} MonthContains(d: int, leap: bool, m: nat)
    requires m < 12 && MonthStart(m, leap) <= d < MonthStart(12, leap)
    ensures var r := MonthFrom(d, leap, m);
      MonthStart(r, leap) <= d < MonthStart(r + 1, leap) <= MonthStart(r, leap) + 31
    decreases 12 - m
  {
    hide MonthStart;
    MonthLengths(leap, m);
    if m < 11 && MonthStart(m + 1, leap) <= d {
      MonthContains(d, leap, m + 1);
    }
  }

  datatype Civil = Civil(year: int, month: nat, date: nat, hour: nat, minute: nat, second: nat, ms: nat)

  function CivilDate(day: int): (c: (int, nat, nat)) {
    var y := YearFromDay(day);
    var m := MonthFrom(day - DayFromYear(y), Leap(y), 0);
    CivilDateWithin(day);
    (y, m, day - DayFromYear(y) - MonthStart(m, Leap(y)) + 1)
  }

  lemma CivilDateWithin(day: int)
    ensures var y := YearFromDay(day);
      var m := MonthFrom(day - DayFromYear(y), Leap(y), 0);
      && InYear(day, y)
      && DayFromYear(y) + MonthStart(m, Leap(y)) <= day < DayFromYear(y) + MonthStart(m + 1, Leap(y))
      && MonthStart(m + 1, Leap(y)) <= MonthStart(m, Leap(y)) + 31
  {
    hide YearFromDay, DayFromYear, Leap, MonthStart, MonthFrom;
    var y := YearFromDay(day);
    YearContains(day);
    YearLength(y);
    WholeYear(Leap(y));
    MonthContains(day - DayFromYear(y), Leap(y), 0);
  }

  lemma WholeYear(leap: bool)
    ensures MonthStart(0, leap) == 0 && MonthStart(12, leap) == if leap then 366 else 365
  {
  }

  function CivilOf(t: int): Civil {
    var (y, m, d) := CivilDate(t / DAY_MS);
    var clock: nat := t % DAY_MS;
    Civil(y, m, d, clock / HOUR_MS, clock % HOUR_MS / MINUTE_MS, clock % MINUTE_MS / 1000, clock % 1000)
  }

  lemma CivilRanges(t: int)
    ensures var c := CivilOf(t);
      c.month < 12 && 1 <= c.date <= 31 && c.hour < 24 && c.minute < 60 && c.second < 60 && c.ms < 1000
  {
    hide YearFromDay, MonthFrom, MonthStart, DayFromYear, Leap;
    CivilDateWithin(t / DAY_MS);
  }

  function DayOf(c: Civil): int
    requires c.month < 12
  {
    DayFromYear(c.year) + MonthStart(c.month, Leap(c.year)) + c.date - 1
  }

  function ClockOf(c: Civil): int {
    c.hour * HOUR_MS + c.minute * MINUTE_MS + c.second * 1000 + c.ms
  }

  lemma ClockSplit(k: nat)
    requires k < DAY_MS
    ensures k == k / HOUR_MS * HOUR_MS + k % HOUR_MS / MINUTE_MS * MINUTE_MS + k % MINUTE_MS / 1000 * 1000 + k % 1000
  {
    assert k % HOUR_MS % MINUTE_MS == k % MINUTE_MS;
    assert k % MINUTE_MS % 1000 == k % 1000;
  }

  /** The calendar fields determine the instant. */
  lemma CivilRoundTrip(t: int)
    ensures CivilOf(t).month < 12
    ensures DayOf(CivilOf(t)) * DAY_MS + ClockOf(CivilOf(t)) == t
  {
    CivilDateWithin(t / DAY_MS);
    ClockSplit(t % DAY_MS);
  }

  predicate DateBefore(a: Civil, b: Civil) {
    a.year < b.year || (a.year == b.year && (a.month < b.month || (a.month == b.month && a.date < b.date)))
  }

  predicate ClockBefore(a: Civil, b: Civil) {
    a.hour < b.hour || (a.hour == b.hour && (a.minute < b.minute || (a.minute == b.minute &&
      (a.second < b.second || (a.second == b.second && a.ms < b.ms)))))
  }

  predicate SameDate(a: Civil, b: Civil) {
    a.year == b.year && a.month == b.month && a.date == b.date
  }

  predicate Before(a: Civil, b: Civil) {
    DateBefore(a, b) || (SameDate(a, b) && ClockBefore(a, b))
  }

  lemma DayWithin(t: int)
    ensures var c, day := CivilOf(t), t / DAY_MS;
      && c.month < 12 && c.date >= 1
      && day == DayOf(c)
      && DayFromYear(c.year) <= day < DayFromYear(c.year + 1)
      && day < DayFromYear(c.year) + MonthStart(c.month + 1, Leap(c.year))
  {
    hide YearFromDay, MonthFrom, MonthStart, DayFromYear, Leap;
    CivilDateWithin(t / DAY_MS);
  }

  lemma EarlierDateEarlierDay(a: Civil, b: Civil, day: int, later: int)
    requires DateBefore(a, b) && a.month < 12 && b.month < 12 && b.date >= 1
    requires day < DayFromYear(a.year) + MonthStart(a.month + 1, Leap(a.year))
    requires DayFromYear(b.year) <= later && day < DayFromYear(a.year + 1)
    requires day == DayOf(a) && later == DayOf(b)
    ensures day < later
  {
    hide DayFromYear, MonthStart, Leap;
    if a.year < b.year {
      YearsInOrder(a.year + 1, b.year);
    } else if a.month < b.month {
      MonthsInOrder(a.month + 1, b.month, Leap(a.year));
    }
  }

  lemma FieldsBeforeMeansEarlier(t: int, u: int)
    requires Before(CivilOf(t), CivilOf(u))
    ensures t < u
  {
    hide CivilOf, DayFromYear, MonthStart, Leap;
    var a, b := CivilOf(t), CivilOf(u);
    CivilRoundTrip(t);
    CivilRoundTrip(u);
    CivilRanges(t);
    CivilRanges(u);
    if DateBefore(a, b) {
      DayWithin(t);
      DayWithin(u);
      EarlierDateEarlierDay(a, b, t / DAY_MS, u / DAY_MS);
    } else {
      assert DayOf(a) == DayOf(b);
    }
  }

  /** Field-by-field calendar order is chronological order, for every pair of instants. */
  lemma CalendarOrder(t: int, u: int)
    ensures t < u <==> Before(CivilOf(t), CivilOf(u))
  {
    if Before(CivilOf(t), CivilOf(u)) {
      FieldsBeforeMeansEarlier(t, u);
    } else if Before(CivilOf(u), CivilOf(t)) {
      FieldsBeforeMeansEarlier(u, t);
    } else {
      CivilRoundTrip(t);
      CivilRoundTrip(u);
      assert CivilOf(t) == CivilOf(u);
    }
  }

  // ---------------------------------------------------------------- ISO text

  function IsoYear(y: int): string {
    if 0 <= y <= 9999 then Pad(y, 4)
    else if y < 0 then "-" + Pad(-y, 6)
    else "+" + Pad(y, 6)
  }

  function IsoClock(c: Civil): string {
    Pad(c.hour, 2) + (":" + (Pad(c.minute, 2) + (":" + (Pad(c.second, 2) + ("." + (Pad(c.ms, 3) + "Z"))))))
  }

  function IsoMonthOn(c: Civil): string {
    Pad(c.month + 1, 2) + ("-" + (Pad(c.date, 2) + ("T" + IsoClock(c))))
  }

  function IsoText(c: Civil): string {
    IsoYear(c.year) + ("-" + IsoMonthOn(c))
  }

  /** new Date(t).toISOString() */
  function Iso(t: int): string {
    IsoText(CivilOf(t))
  }

  /** The w characters from position i on are the digits of n. */
  ghost predicate NumberAt(text: string, i: nat, w: nat, n: int) {
    i + w <= |text| && Denotes(text[i..i + w], n)
  }

  ghost predicate Denotes(digits: string, n: int) {
    (forall k :: 0 <= k < |digits| ==> IsDigit(digits[k])) && ParseDecimal(digits) == n
  }

  /** The text is `YYYY-MM-DDTHH:mm:ss.sssZ` with the calendar fields in these places, the month counted from 1. */
  ghost predicate Reads(text: string, c: Civil) {
    && |text| == 24 && text[4] == text[7] == '-' && text[10] == 'T' && text[13] == text[16] == ':'
    && text[19] == '.' && text[23] == 'Z'
    && NumberAt(text, 0, 4, c.year) && NumberAt(text, 5, 2, c.month + 1) && NumberAt(text, 8, 2, c.date)
    && NumberAt(text, 11, 2, c.hour) && NumberAt(text, 14, 2, c.minute) && NumberAt(text, 17, 2, c.second)
    && NumberAt(text, 20, 3, c.ms)
  }

  lemma FieldAt(text: string, i: nat, w: nat, n: nat, sep: string, rest: string)
    requires i <= |text| && text[i..] == Pad(n, w) + (sep + rest) && n < Pow10(w) && |sep| == 1
    ensures |text| == i + w + 1 + |rest| && NumberAt(text, i, w, n)
    ensures text[i + w] == sep[0] && text[i + w + 1..] == rest
  {
    ParseOfPad(n, w);
    hide Pad, ParseDecimal, Pow10;
    var tail := text[i..];
    assert text[i..i + w] == tail[..w] == Pad(n, w);
    assert text[i + w] == tail[w];
    assert text[i + w + 1..] == tail[w + 1..];
  }

  lemma DateFields(text: string, year: nat, month: nat, date: nat, clock: string)
    requires text == Pad(year, 4) + ("-" + (Pad(month, 2) + ("-" + (Pad(date, 2) + ("T" + clock)))))
    requires year < 10000 && month < 100 && date < 100
    ensures |text| == 11 + |clock| && text[11..] == clock
    ensures NumberAt(text, 0, 4, year) && NumberAt(text, 5, 2, month) && NumberAt(text, 8, 2, date)
    ensures text[4] == text[7] == '-' && text[10] == 'T'
  {
    SmallPowers();
    hide *;
    assert text[0..] == text;
    FieldAt(text, 0, 4, year, "-", Pad(month, 2) + ("-" + (Pad(date, 2) + ("T" + clock))));
    FieldAt(text, 5, 2, month, "-", Pad(date, 2) + ("T" + clock));
    FieldAt(text, 8, 2, date, "T", clock);
  }

  lemma ClockFields(text: string, hour: nat, minute: nat, second: nat, ms: nat)
    requires |text| >= 11
    requires text[11..] ==
      Pad(hour, 2) + (":" + (Pad(minute, 2) + (":" + (Pad(second, 2) + ("." + (Pad(ms, 3) + "Z"))))))
    requires hour < 100 && minute < 100 && second < 100 && ms < 1000
    ensures |text| == 24 && text[13] == text[16] == ':' && text[19] == '.' && text[23] == 'Z'
    ensures NumberAt(text, 11, 2, hour) && NumberAt(text, 14, 2, minute) && NumberAt(text, 17, 2, second)
    ensures NumberAt(text, 20, 3, ms)
  {
    SmallPowers();
    hide *;
    var fraction := Pad(ms, 3) + "Z";
    assert fraction == Pad(ms, 3) + ("Z" + "");
    FieldAt(text, 11, 2, hour, ":", Pad(minute, 2) + (":" + (Pad(second, 2) + ("." + fraction))));
    FieldAt(text, 14, 2, minute, ":", Pad(second, 2) + ("." + fraction));
    FieldAt(text, 17, 2, second, ".", fraction);
    FieldAt(text, 20, 3, ms, "Z", "");
  }

  /** The ISO text gives the calendar fields back. */
  lemma IsoReadsBack(t: int)
    requires FourDigitYear(t)
    ensures Reads(Iso(t), CivilOf(t))
  {
    var c := CivilOf(t);
    CivilRanges(t);
    hide CivilOf, Pad, NumberAt;
    DateFields(Iso(t), c.year, c.month + 1, c.date, IsoClock(c));
    ClockFields(Iso(t), c.hour, c.minute, c.second, c.ms);
  }

  /** Years outside 0000 to 9999 have a sign and six digits. */
  lemma ExpandedYears(y: int)
    requires -1000000 < y < 0 || 9999 < y < 1000000
    ensures var text := IsoYear(y);
      && |text| == 7 && text[0] == (if y < 0 then '-' else '+') && Denotes(text[1..], if y < 0 then -y else y)
  {
    var n := if y < 0 then -y else y;
    assert Pow10(4) == 10000;
    assert Pow10(6) == 100 * Pow10(4);
    ParseOfPad(n, 6);
    assert IsoYear(y)[1..] == Pad(n, 6);
  }

  lemma SmallPowers()
    ensures Pow10(2) == 100 && Pow10(3) == 1000 && Pow10(4) == 10000
  {
  }

  /** The instants whose year prints with four digits. */
  predicate FourDigitYear(t: int) {
    0 <= CivilOf(t).year <= 9999
  }

  lemma FieldFirst(m: nat, n: nat, w: nat, sep: string, x: string, y: string)
    requires m < Pow10(w) && n < Pow10(w)
    ensures LexLess(Pad(m, w) + (sep + x), Pad(n, w) + (sep + y)) <==> m < n || (m == n && LexLess(x, y))
  {
    PadOrder(m, n, w);
    LexConcat(Pad(m, w), Pad(n, w), sep + x, sep + y);
    LexConcat(sep, sep, x, y);
    LexTrichotomy(sep, sep);
  }

  lemma ClockTextOrder(a: Civil, b: Civil)
    requires a.hour < 24 && a.minute < 60 && a.second < 60 && a.ms < 1000
    requires b.hour < 24 && b.minute < 60 && b.second < 60 && b.ms < 1000
    ensures LexLess(IsoClock(a), IsoClock(b)) <==> ClockBefore(a, b)
  {
    assert Pow10(2) == 100 && Pow10(3) == 1000;
    var ms := c => Pad(c, 3) + "Z";
    var sec := (c: Civil) => Pad(c.second, 2) + ("." + (Pad(c.ms, 3) + "Z"));
    var min := (c: Civil) => Pad(c.minute, 2) + (":" + sec(c));
    FieldFirst(a.hour, b.hour, 2, ":", min(a), min(b));
    FieldFirst(a.minute, b.minute, 2, ":", sec(a), sec(b));
    FieldFirst(a.second, b.second, 2, ".", ms(a.ms), ms(b.ms));
    FieldFirst(a.ms, b.ms, 3, "Z", "", "");
    assert "Z" + "" == "Z";
  }

  predicate Printable(c: Civil) {
    0 <= c.year <= 9999 && c.month < 12 && c.date <= 31 && c.hour < 24 && c.minute < 60 && c.second < 60 && c.ms < 1000
  }

  lemma DateFirst(m: nat, d: nat, x: string, n: nat, e: nat, y: string)
    requires m < 100 && n < 100 && d < 100 && e < 100
    ensures LexLess(Pad(m, 2) + ("-" + (Pad(d, 2) + ("T" + x))), Pad(n, 2) + ("-" + (Pad(e, 2) + ("T" + y)))) <==>
      m < n || (m == n && (d < e || (d == e && LexLess(x, y))))
  {
    assert Pow10(2) == 100;
    hide LexLess, Pad, Pow10;
    FieldFirst(m, n, 2, "-", Pad(d, 2) + ("T" + x), Pad(e, 2) + ("T" + y));
    FieldFirst(d, e, 2, "T", x, y);
  }

  lemma MonthTextOrder(a: Civil, b: Civil)
    requires Printable(a) && Printable(b)
    ensures LexLess(IsoMonthOn(a), IsoMonthOn(b)) <==>
      a.month < b.month || (a.month == b.month && (a.date < b.date || (a.date == b.date && ClockBefore(a, b))))
  {
    assert a.month + 1 < 100 && a.date < 100 && b.month + 1 < 100 && b.date < 100;
    ClockTextOrder(a, b);
    hide LexLess, Pad, IsoClock, ClockBefore;
    DateFirst(a.month + 1, a.date, IsoClock(a), b.month + 1, b.date, IsoClock(b));
  }

  lemma IsoTextOrder(a: Civil, b: Civil)
    requires Printable(a) && Printable(b)
    ensures LexLess(IsoText(a), IsoText(b)) <==> Before(a, b)
  {
    hide IsoMonthOn;
    assert Pow10(4) == 10000;
    FieldFirst(a.year, b.year, 4, "-", IsoMonthOn(a), IsoMonthOn(b));
    MonthTextOrder(a, b);
  }

  /** String comparison of two keys is comparison of the instants, for years 0000 to 9999. */
  lemma IsoOrder(t: int, u: int)
    requires FourDigitYear(t) && FourDigitYear(u)
    ensures LexLess(Iso(t), Iso(u)) <==> t < u
    ensures Iso(t) == Iso(u) <==> t == u
  {
    CivilRanges(t);
    CivilRanges(u);
    IsoTextOrder(CivilOf(t), CivilOf(u));
    CalendarOrder(t, u);
    IsoTextOrder(CivilOf(u), CivilOf(t));
    CalendarOrder(u, t);
    LexTrichotomy(Iso(t), Iso(u));
  }

  /** The year range is needed: every key past 9999 sorts before every four-digit key. */
  lemma FiveDigitYearsSortFirst(t: int, u: int)
    requires FourDigitYear(t) && CivilOf(u).year > 9999
    ensures t < u && LexLess(Iso(u), Iso(t))
  {
    CalendarOrder(t, u);
    var y := Pad(CivilOf(t).year, 4);
    assert IsDigit(y[0]) && Iso(t)[0] == y[0];
    assert Iso(u)[0] == '+';
  }

  const YEAR_0000 := -719528 * DAY_MS
  const YEAR_10000 := 2932897 * DAY_MS

  lemma FourDigitRange(t: int)
    ensures FourDigitYear(t) <==> YEAR_0000 <= t < YEAR_10000
  {
    var y := CivilOf(t).year;
    DayWithin(t);
    assert DayFromYear(0) == -719528 && DayFromYear(10000) == 2932897;
    if y >= 10000 {
      YearsInOrder(10000, y);
    } else if y < 0 {
      YearsInOrder(y + 1, 0);
    } else {
      YearsInOrder(0, y);
      YearsInOrder(y + 1, 10000);
    }
  }

  // ---------------------------------------------------------------- buckets

  /** get1MinuteBucket before printing: setSeconds(0, 0) on the local clock `offset` minutes from UTC. */
  function Bucket1(t: int, offset: int): int {
    var local := t + offset * MINUTE_MS;
    local - local % MINUTE_MS - offset * MINUTE_MS
  }

  /** get15MinuteBucket before printing: setMinutes(floor(minutes / 15) * 15, 0, 0) on the local clock. */
  function Bucket15(t: int, offset: int): int {
    var local := t + offset * MINUTE_MS;
    var hour := local - local % HOUR_MS;
    var minutes := local % HOUR_MS / MINUTE_MS;
    hour + minutes / 15 * 15 * MINUTE_MS - offset * MINUTE_MS
  }

  function Key1(t: int, offset: int): string {
    Iso(Bucket1(t, offset))
  }

  function Key15(t: int, offset: int): string {
    Iso(Bucket15(t, offset))
  }

  /** The 1-minute bucket is the UTC minute, whatever whole-minute offset the host clock has. */
  lemma Bucket1IsUtcMinute(t: int, offset: int)
    ensures Bucket1(t, offset) == t / MINUTE_MS * MINUTE_MS
    ensures Bucket1(t, offset) <= t < Bucket1(t, offset) + MINUTE_MS
  {
    assert (t + offset * MINUTE_MS) % MINUTE_MS == t % MINUTE_MS;
  }

  lemma Bucket15IsLocalQuarter(t: int, offset: int)
    ensures Bucket15(t, offset) == (t + offset * MINUTE_MS) / QUARTER_MS * QUARTER_MS - offset * MINUTE_MS
    ensures Bucket15(t, offset) <= t < Bucket15(t, offset) + QUARTER_MS
  {
    var x := (t + offset * MINUTE_MS) % HOUR_MS;
    var h := (t + offset * MINUTE_MS) / HOUR_MS;
    assert x / MINUTE_MS / 15 == x / QUARTER_MS;
    assert t + offset * MINUTE_MS == h * 4 * QUARTER_MS + x;
    assert (h * 4 * QUARTER_MS + x) / QUARTER_MS == h * 4 + x / QUARTER_MS;
  }

  /** Quarter-hour buckets are the UTC ones exactly when the host offset is a multiple of 15 minutes. */
  lemma AlignedOffset(offset: int)
    ensures (forall t :: Bucket15(t, offset) == Bucket15(t, 0)) <==> offset % 15 == 0
  {
    if offset % 15 == 0 {
      forall t ensures Bucket15(t, offset) == Bucket15(t, 0) {
        Bucket15IsLocalQuarter(t, offset);
        Bucket15IsLocalQuarter(t, 0);
        var k := offset / 15;
        assert t + offset * MINUTE_MS == t + k * QUARTER_MS;
        assert (t + k * QUARTER_MS) / QUARTER_MS == t / QUARTER_MS + k;
      }
    } else {
      Bucket15IsLocalQuarter(0, offset);
      Bucket15IsLocalQuarter(0, 0);
      assert offset * MINUTE_MS / QUARTER_MS == offset / 15;
      assert Bucket15(0, offset) != Bucket15(0, 0);
    }
  }

  /** Buckets do not leave the years 0000 to 9999. */
  lemma BucketsInRange(t: int)
    requires FourDigitYear(t)
    ensures FourDigitYear(t / MINUTE_MS * MINUTE_MS) && FourDigitYear(t / QUARTER_MS * QUARTER_MS)
  {
    hide FourDigitYear;
    FourDigitRange(t);
    FourDigitRange(t / MINUTE_MS * MINUTE_MS);
    FourDigitRange(t / QUARTER_MS * QUARTER_MS);
    assert YEAR_0000 == -719528 * 1440 * MINUTE_MS == -719528 * 96 * QUARTER_MS;
  }

  lemma BucketOver(t: int, now: int)
    ensures t / MINUTE_MS * MINUTE_MS < now / MINUTE_MS * MINUTE_MS <==> t / MINUTE_MS * MINUTE_MS + MINUTE_MS <= now
    ensures t / QUARTER_MS * QUARTER_MS < now / QUARTER_MS * QUARTER_MS <==>
      t / QUARTER_MS * QUARTER_MS + QUARTER_MS <= now
  {
    var m, q := now / MINUTE_MS, now / QUARTER_MS;
    MultiplesApart(t / MINUTE_MS, m, now, MINUTE_MS);
    MultiplesApart(t / QUARTER_MS, q, now, QUARTER_MS);
  }

  lemma MultiplesApart(i: int, j: int, now: int, width: int)
    requires width > 0 && width * j <= now < width * j + width
    ensures width * i < width * j <==> width * i + width <= now
  {
    Apart(width, i, j);
    if j < i {
      Apart(width, j, i);
    }
  }

  /** `bucket < currentBucket` on 1-minute keys: the bucket's minute is over. */
  lemma MinuteIsOver(t: int, now: int, offset: int)
    requires FourDigitYear(t) && FourDigitYear(now)
    ensures LexLess(Key1(t, offset), Key1(now, offset)) <==> Bucket1(t, offset) + MINUTE_MS <= now
  {
    hide Iso, FourDigitYear, Bucket1, LexLess;
    Bucket1IsUtcMinute(t, offset);
    Bucket1IsUtcMinute(now, offset);
    BucketsInRange(t);
    BucketsInRange(now);
    BucketOver(t, now);
    IsoOrder(Bucket1(t, offset), Bucket1(now, offset));
  }

  /** `bucket < currentBucket` on 15-minute keys: the bucket's quarter hour is over. */
  lemma QuarterIsOver(t: int, now: int, offset: int)
    requires offset % 15 == 0 && FourDigitYear(t) && FourDigitYear(now)
    ensures LexLess(Key15(t, offset), Key15(now, offset)) <==> Bucket15(t, offset) + QUARTER_MS <= now
  {
    hide Iso, FourDigitYear, Bucket15, LexLess;
    AlignedOffset(offset);
    assert Bucket15(t, offset) == Bucket15(t, 0) && Bucket15(now, offset) == Bucket15(now, 0);
    Bucket15IsLocalQuarter(t, 0);
    Bucket15IsLocalQuarter(now, 0);
    BucketsInRange(t);
    BucketsInRange(now);
    BucketOver(t, now);
    IsoOrder(Bucket15(t, offset), Bucket15(now, offset));
  }

  /** A reading's quarter hour is w exactly when its minute is one of the fifteen starting at w. */
  lemma MinutesOfQuarter(t: int, w: int, offset: int)
    requires Bucket15(w, offset) == w
    ensures Bucket15(t, offset) == w <==> exists i :: 0 <= i < 15 && Bucket1(t, offset) == w + i * MINUTE_MS
  {
    Bucket15IsLocalQuarter(t, offset);
    Bucket15IsLocalQuarter(w, offset);
    Bucket1IsUtcMinute(t, offset);
    if w <= t < w + QUARTER_MS {
      var i := (t - w) / MINUTE_MS;
      QuarterStartsOnMinute(w, offset);
      assert 0 <= i < 15 && Bucket1(t, offset) == w + i * MINUTE_MS;
      SameQuarter(t, w, offset);
    }
  }

  lemma QuarterStartsOnMinute(w: int, offset: int)
    requires Bucket15(w, offset) == w
    ensures w % MINUTE_MS == 0
  {
    Bucket15IsLocalQuarter(w, offset);
    var k := (w + offset * MINUTE_MS) / QUARTER_MS;
    assert w == (k * 15 - offset) * MINUTE_MS;
  }

  lemma SameQuarter(t: int, w: int, offset: int)
    requires Bucket15(w, offset) == w && w <= t < w + QUARTER_MS
    ensures Bucket15(t, offset) == w
  {
    Bucket15IsLocalQuarter(t, offset);
    Bucket15IsLocalQuarter(w, offset);
    var k := (w + offset * MINUTE_MS) / QUARTER_MS;
    assert w + offset * MINUTE_MS == k * QUARTER_MS;
    assert (k * QUARTER_MS + (t - w)) / QUARTER_MS == k;
  }

  /** start's Date after setMinutes(start.getMinutes() + i): minutes past 59 roll into the next hour. */
  function AddMinutes(start: int, offset: int, i: nat): (bucket: int)
    ensures bucket == start + i * MINUTE_MS
  {
    var local := start + offset * MINUTE_MS;
    assert local % HOUR_MS % MINUTE_MS == local % MINUTE_MS;
    local - local % HOUR_MS + (local % HOUR_MS / MINUTE_MS + i) * MINUTE_MS + local % MINUTE_MS - offset * MINUTE_MS
  }

  /** The keys of n consecutive minutes. */
  function MinuteKeys(start: int, n: nat): (keys: seq<string>)
    ensures |keys| == n
  {
    if n == 0 then [] else MinuteKeys(start, n - 1) + [Iso(start + (n - 1) * MINUTE_MS)]
  }

  lemma {:induction false} MinuteKeysAt(start: int, n: nat, i: nat)
    requires i < n
    ensures MinuteKeys(start, n)[i] == Iso(start + i * MINUTE_MS)
  {
    hide Iso;
    if i < n - 1 {
      MinuteKeysAt(start, n - 1, i);
    }
  }

  /** get1MinuteBucketsIn15MinWindow */
  method MinuteBucketsInQuarter(start: int, offset: int) returns (buckets: seq<string>)
    ensures buckets == MinuteKeys(start, 15)
    ensures forall i :: 0 <= i < 15 ==> buckets[i] == Iso(start + i * MINUTE_MS)
  {
    hide Iso;
    buckets := [];
    for i := 0 to 15
      invariant buckets == MinuteKeys(start, i)
    {
      buckets := buckets + [Iso(AddMinutes(start, offset, i))];
    }
    hide MinuteKeys;
    forall i | 0 <= i < 15 ensures buckets[i] == Iso(start + i * MINUTE_MS) {
      MinuteKeysAt(start, 15, i);
    }
  }
}
