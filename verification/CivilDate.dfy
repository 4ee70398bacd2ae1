/** Days and civil dates (native/adapters/shared/fallback_program_fetch.h and fallback_activation_resolver.h):
    each conversion undoes the other, for every day there is. */
module CivilDate {

  datatype Date = Date(year: int, month: int, day: int)

  predicate IsLeap(y: int) {
    y % 4 == 0 && (y % 100 != 0 || y % 400 == 0)
  }

  function DaysInMonth(y: int, m: int): int
    requires 1 <= m <= 12
  {
    if m == 2 then (if IsLeap(y) then 29 else 28)
    else if m == 4 || m == 6 || m == 9 || m == 11 then 30
    else 31
  }

  predicate IsDate(d: Date) {
    1 <= d.month <= 12 && 1 <= d.day <= DaysInMonth(d.year, d.month)
  }

  /** C++ division, which drops the fraction. */
  function Truncated(a: int, b: int): int
    requires b > 0
  {
    if a >= 0 then a / b else -((-a) / b)
  }

  /** The civil-to-day computation; the year starts in March. */
  function DaysFromCivil(d: Date): int
    requires 1 <= d.month <= 12
  {
    var y := if d.month <= 2 then d.year - 1 else d.year;
    var era := Truncated(if y >= 0 then y else y - 399, 400);
    var yoe := y - era * 400;
    var doy := (153 * (d.month + if d.month > 2 then -3 else 9) + 2) / 5 + d.day - 1;
    var doe := YearStart(yoe) + doy;
    era * 146097 + doe - 719468
  }

  /** The day-to-civil computation. */
  function CivilFromDays(days: int): Date {
    var z := days + 719468;
    var era := Truncated(if z >= 0 then z else z - 146096, 146097);
    DateInEra(era, z - era * 146097)
  }

  function DateInEra(era: int, doe: int): Date {
    var yoe := YearOfEra(doe);
    DateInYear(era, yoe, doe - YearStart(yoe))
  }

  function DateInYear(era: int, yoe: int, doy: int): Date {
    var mp := (5 * doy + 2) / 153;
    var d := doy - (153 * mp + 2) / 5 + 1;
    var m := mp + if mp < 10 then 3 else -9;
    Date(yoe + era * 400 + if m <= 2 then 1 else 0, m, d)
  }

  /** The day of its era on which a year starts. */
  function YearStart(yoe: int): int {
    365 * yoe + yoe / 4 - yoe / 100
  }

  function YearOfEra(doe: int): int {
    (doe - doe / 1460 + doe / 36524 - doe / 146096) / 365
  }

  /* ---- Eras ---- */

  /** The rounding tricks for dates before the era are plain floors. */
  lemma EraIsFloor(y: int, z: int)
    ensures Truncated(if y >= 0 then y else y - 399, 400) == y / 400
    ensures Truncated(if z >= 0 then z else z - 146096, 146097) == z / 146097
  {
  }

  /* ---- Years of an era ---- */

  /** A day of the era as century, four-year cycle, year and day of the year; the leap day comes last. */
  predicate Splits(c: int, q: int, s: int, doy: int) {
    && 0 <= c <= 3 && 0 <= q <= 24 && 0 <= s <= 3 && 0 <= doy
    && (doy <= 364 || (doy == 365 && s == 3 && (q < 24 || c == 3)))
  }

  /** The formula for the year finds it from the day. */
  lemma YearOfEraIs(c: int, q: int, s: int, doy: int)
    requires Splits(c, q, s, doy)
    ensures var doe := 36524 * c + 1461 * q + 365 * s + doy;
            0 <= doe < 146097 && YearOfEra(doe) == 100 * c + 4 * q + s
  {
    var rest := 1461 * q + 365 * s + doy;
    var doe := 36524 * c + rest;
    assert doe / 146096 == if doe == 146096 then 1 else 0;
    assert doe / 36524 == if doe == 146096 then 4 else c;
    assert doe / 1460 == 25 * c + (24 * c + rest) / 1460;
  }

  lemma YearStartIs(c: int, q: int, s: int)
    requires 0 <= c <= 3 && 0 <= q <= 24 && 0 <= s <= 3
    ensures YearStart(100 * c + 4 * q + s) == 36524 * c + 1461 * q + 365 * s
  {
  }

  /** Every day of an era splits. */
  lemma EveryDaySplits(doe: int) returns (c: int, q: int, s: int, doy: int)
    requires 0 <= doe < 146097
    ensures Splits(c, q, s, doy) && doe == 36524 * c + 1461 * q + 365 * s + doy
  {
    c := if doe / 36524 > 3 then 3 else doe / 36524;
    var inCentury := doe - 36524 * c;
    q := inCentury / 1461;
    var inCycle := inCentury - 1461 * q;
    s := if inCycle / 365 > 3 then 3 else inCycle / 365;
    doy := inCycle - 365 * s;
  }

  /** The leap day comes last in the years whose next February has 29 days. */
  lemma LeapDaySplits(era: int, c: int, q: int, s: int)
    requires 0 <= c <= 3 && 0 <= q <= 24 && 0 <= s <= 3
    ensures IsLeap(400 * era + 100 * c + 4 * q + s + 1) <==> s == 3 && (q < 24 || c == 3)
  {
  }

  lemma RemainderIs(a: int, k: int, r: int, n: int)
    requires n == 4 || n == 100 || n == 400 || n == 146097
    requires a == n * k + r && 0 <= r < n
    ensures a % n == r && a / n == k
  {
  }

  /* ---- Months of a year that starts in March ---- */

  function MonthIndex(m: int): int {
    m + if m > 2 then -3 else 9
  }

  lemma MonthAndDay(m: int, d: int)
    requires 1 <= m <= 12 && 1 <= d <= (if m == 2 then 29 else if m == 4 || m == 6 || m == 9 || m == 11 then 30 else 31)
    ensures var mp := MonthIndex(m);
            var doy := (153 * mp + 2) / 5 + d - 1;
            && 0 <= doy <= 365 && (doy == 365 <==> m == 2 && d == 29)
            && (5 * doy + 2) / 153 == mp
            && mp + (if mp < 10 then 3 else -9) == m
  {
  }

  lemma MonthAndDayBack(doy: int)
    requires 0 <= doy <= 365
    ensures var mp := (5 * doy + 2) / 153;
            var d := doy - (153 * mp + 2) / 5 + 1;
            var m := mp + if mp < 10 then 3 else -9;
            && 1 <= m <= 12 && MonthIndex(m) == mp && 1 <= d
            && d <= (if m == 2 then 29 else if m == 4 || m == 6 || m == 9 || m == 11 then 30 else 31)
            && (m == 2 && d == 29 ==> doy == 365)
  {
  }

  /* ---- Both directions ---- */

  /** The day that is the doy-th of the s-th year of the q-th cycle of the c-th century. */
  function DayOf(era: int, c: int, q: int, s: int, doy: int): int {
    era * 146097 + 36524 * c + 1461 * q + 365 * s + doy - 719468
  }

  lemma DateOfDay(era: int, c: int, q: int, s: int, doy: int)
    requires Splits(c, q, s, doy)
    ensures CivilFromDays(DayOf(era, c, q, s, doy)) == DateInYear(era, 100 * c + 4 * q + s, doy)
  {
    hide YearOfEra, YearStart, CivilFromDays, DateInYear;
    YearOfEraIs(c, q, s, doy);
    YearStartIs(c, q, s);
    EraOfDay(era, 36524 * c + 1461 * q + 365 * s + doy);
  }

  lemma EraOfDay(era: int, doe: int)
    requires 0 <= doe < 146097
    ensures CivilFromDays(era * 146097 + doe - 719468) == DateInEra(era, doe)
  {
    hide DateInEra;
    var z := era * 146097 + doe;
    EraIsFloor(0, z);
    RemainderIs(z, era, doe, 146097);
  }

  lemma DayOfDate(d: Date, era: int, c: int, q: int, s: int)
    requires 1 <= d.month <= 12 && 0 <= c <= 3 && 0 <= q <= 24 && 0 <= s <= 3
    requires (if d.month <= 2 then d.year - 1 else d.year) == 400 * era + 100 * c + 4 * q + s
    ensures DaysFromCivil(d) == DayOf(era, c, q, s, (153 * MonthIndex(d.month) + 2) / 5 + d.day - 1)
  {
    var y := if d.month <= 2 then d.year - 1 else d.year;
    EraIsFloor(y, 0);
    hide Truncated, YearStart;
    RemainderIs(y, era, 100 * c + 4 * q + s, 400);
    YearStartIs(c, q, s);
  }

  /** A real date, turned into a day number and back, is itself. */
  lemma CivilAndBack(d: Date)
    requires IsDate(d)
    ensures CivilFromDays(DaysFromCivil(d)) == d
  {
    hide CivilFromDays, DaysFromCivil, DayOf, IsLeap;
    var y := if d.month <= 2 then d.year - 1 else d.year;
    var era, c, q, s := SplitYear(y);
    MonthAndDay(d.month, d.day);
    LeapDaySplits(era, c, q, s);
    DayOfDate(d, era, c, q, s);
    DateOfDay(era, c, q, s, (153 * MonthIndex(d.month) + 2) / 5 + d.day - 1);
  }

  lemma SplitYear(y: int) returns (era: int, c: int, q: int, s: int)
    ensures 0 <= c <= 3 && 0 <= q <= 24 && 0 <= s <= 3 && y == 400 * era + 100 * c + 4 * q + s
  {
    era := y / 400;
    var inEra := y - 400 * era;
    c := inEra / 100;
    var inCentury := inEra - 100 * c;
    q := inCentury / 4;
    s := inCentury - 4 * q;
  }

  /** Every day number is a real date, and that date's day number is the one given. */
  lemma DaysAndBack(days: int)
    ensures IsDate(CivilFromDays(days)) && DaysFromCivil(CivilFromDays(days)) == days
  {
    hide CivilFromDays, DaysFromCivil, IsLeap;
    var era := (days + 719468) / 146097;
    var c, q, s, doy := EveryDaySplits(days + 719468 - era * 146097);
    assert DayOf(era, c, q, s, doy) == days;
    hide DayOf;
    DateOfDay(era, c, q, s, doy);
    MonthAndDayBack(doy);
    LeapDaySplits(era, c, q, s);
    DayOfDate(CivilFromDays(days), era, c, q, s);
  }

  /** Two real dates with one day number are one date. */
  lemma DayNumbersAreDistinct(a: Date, b: Date)
    requires IsDate(a) && IsDate(b) && DaysFromCivil(a) == DaysFromCivil(b)
    ensures a == b
  {
    hide CivilFromDays, DaysFromCivil;
    CivilAndBack(a);
    CivilAndBack(b);
  }

  lemma EpochIsDayZero()
    ensures DaysFromCivil(Date(1970, 1, 1)) == 0
  {
  }

  /* ---- One day after another ---- */

  /** The calendar's own rule. */
  function NextDay(d: Date): Date
    requires IsDate(d)
  {
    if d.day < DaysInMonth(d.year, d.month) then Date(d.year, d.month, d.day + 1)
    else if d.month < 12 then Date(d.year, d.month + 1, 1)
    else Date(d.year + 1, 1, 1)
  }

  /** Days from 1 March of the year 0 to 1 March of another. */
  function MarchDay(y: int): int {
    y / 400 * 146097 + YearStart(y % 400)
  }

  /** The day of a year that starts in March. */
  function DayOfYear(month: int, day: int): int {
    (153 * (month + if month > 2 then -3 else 9) + 2) / 5 + day - 1
  }

  lemma DaysAreMarchDays(d: Date)
    requires 1 <= d.month <= 12
    ensures DaysFromCivil(d) ==
            MarchDay(if d.month <= 2 then d.year - 1 else d.year) + DayOfYear(d.month, d.day) - 719468
  {
    var y := if d.month <= 2 then d.year - 1 else d.year;
    EraIsFloor(y, 0);
    assert y - y / 400 * 400 == y % 400;
    hide Truncated, YearStart;
  }

  lemma YearEnds(y: int)
    ensures MarchDay(y) - MarchDay(y - 1) == if IsLeap(y) then 366 else 365
  {
    var era, yoe := y / 400, y % 400;
    assert y == 400 * era + yoe;
    if yoe == 0 {
      assert (y - 1) / 400 == era - 1 && (y - 1) % 400 == 399;
    } else {
      assert (y - 1) / 400 == era && (y - 1) % 400 == yoe - 1;
      YearStartStep(yoe);
    }
    LeapInEra(y, yoe);
    hide IsLeap;
  }

  lemma LeapInEra(y: int, yoe: int)
    requires yoe == y % 400
    ensures IsLeap(y) == IsLeap(yoe)
  {
    var era := y / 400;
    Shift(yoe, 100 * era, 4);
    Shift(yoe, 4 * era, 100);
    Shift(yoe, era, 400);
    hide IsLeap;
    assert y == yoe + 4 * (100 * era) && y == yoe + 100 * (4 * era) && y == yoe + 400 * era;
    LeapLooksAt(y, yoe);
  }

  lemma Shift(a: int, k: int, m: int)
    requires m == 4 || m == 100 || m == 400
    ensures (a + m * k) % m == a % m
  {
  }

  lemma LeapLooksAt(y: int, z: int)
    requires y % 4 == z % 4 && y % 100 == z % 100 && y % 400 == z % 400
    ensures IsLeap(y) == IsLeap(z)
  {
  }

  lemma YearStartStep(yoe: int)
    requires 0 < yoe < 400
    ensures YearStart(yoe) - YearStart(yoe - 1) == if IsLeap(yoe) then 366 else 365
  {
    assert yoe / 4 - (yoe - 1) / 4 == if yoe % 4 == 0 then 1 else 0;
    assert yoe / 100 - (yoe - 1) / 100 == if yoe % 100 == 0 then 1 else 0;
    assert yoe % 100 == 0 ==> yoe % 4 == 0;
  }

  /** Months follow each other within a year that starts in March. */
  lemma MonthRunsOn(y: int, m: int)
    requires 1 <= m <= 12 && m != 2
    ensures DayOfYear(m, DaysInMonth(y, m)) + 1 == DayOfYear(if m == 12 then 1 else m + 1, 1)
  {
  }

  lemma YearRunsOut(y: int)
    ensures DayOfYear(2, DaysInMonth(y, 2)) + 1 == (if IsLeap(y) then 366 else 365) && DayOfYear(3, 1) == 0
  {
  }

  lemma OneDayOn(month: int, day: int)
    ensures DayOfYear(month, day + 1) == DayOfYear(month, day) + 1
  {
  }

  lemma NextDayIsDate(d: Date)
    requires IsDate(d)
    ensures IsDate(NextDay(d))
  {
  }

  lemma NextMonthRunsOn(d: Date)
    requires IsDate(d) && d.day == DaysInMonth(d.year, d.month)
    ensures DaysFromCivil(NextDay(d)) == DaysFromCivil(d) + 1
  {
    NextDayIsDate(d);
    DaysAreMarchDays(d);
    DaysAreMarchDays(NextDay(d));
    hide DaysFromCivil, MarchDay, IsLeap, DayOfYear, DaysInMonth, IsDate;
    if d.month == 2 {
      YearEnds(d.year);
      YearRunsOut(d.year);
    } else {
      MonthRunsOn(d.year, d.month);
    }
  }

  /** The numbers follow the calendar: each day's is one more than the day's before. */
  lemma NextDayIsOneMore(d: Date)
    requires IsDate(d)
    ensures IsDate(NextDay(d)) && DaysFromCivil(NextDay(d)) == DaysFromCivil(d) + 1
  {
    NextDayIsDate(d);
    if d.day == DaysInMonth(d.year, d.month) {
      NextMonthRunsOn(d);
    } else {
      DaysAreMarchDays(d);
      DaysAreMarchDays(NextDay(d));
      hide DaysFromCivil, MarchDay, IsLeap, DayOfYear, DaysInMonth;
      OneDayOn(d.month, d.day);
    }
  }
}
