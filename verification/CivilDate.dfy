/**
 Days to calendar dates: two separately written conversions, against a calendar
 defined by year and month lengths alone.
 */
module CivilDate {

  datatype Date = Date(year: int, month: int, day: int)

  // ---------------------------------------------------------------------------
  // The proleptic Gregorian calendar, counted from 1970-01-01
  // ---------------------------------------------------------------------------

  predicate Leap(y: int) {
    y % 4 == 0 && (y % 100 != 0 || y % 400 == 0)
  }

  function YearLength(y: int): int {
    if Leap(y) then 366 else 365
  }

  function MonthLength(y: int, m: int): int {
    if m == 2 then (if Leap(y) then 29 else 28)
    else if m == 4 || m == 6 || m == 9 || m == 11 then 30
    else 31
  }

  predicate ValidDate(d: Date) {
    1 <= d.month <= 12 && 1 <= d.day <= MonthLength(d.year, d.month)
  }

  /** Days from 1970-01-01 to the first of January of year `y`. */
  function DaysBeforeYear(y: int): int
    decreases if y >= 1970 then y - 1970 else 1970 - y
  {
    if y == 1970 then 0
    else if y > 1970 then DaysBeforeYear(y - 1) + YearLength(y - 1)
    else DaysBeforeYear(y + 1) - YearLength(y)
  }

  /** Days from the start of year `y` to the start of month `m`. */
  function DaysBeforeMonth(y: int, m: int): int
    requires 1 <= m <= 13
    decreases m
  {
    if m == 1 then 0 else DaysBeforeMonth(y, m - 1) + MonthLength(y, m - 1)
  }

  /** The number of the day `d` counted from 1970-01-01. */
  function DayNumber(d: Date): int
    requires ValidDate(d)
  {
    DaysBeforeYear(d.year) + DaysBeforeMonth(d.year, d.month) + d.day - 1
  }

  /** The next day of the calendar. */
  function NextDate(d: Date): Date {
    if d.day < MonthLength(d.year, d.month) then Date(d.year, d.month, d.day + 1)
    else if d.month < 12 then Date(d.year, d.month + 1, 1)
    else Date(d.year + 1, 1, 1)
  }

  // ---------------------------------------------------------------------------
  // The conversion of `symphony cancel`
  // ---------------------------------------------------------------------------

  const I64_MAX: int := 0x7fff_ffff_ffff_ffff
  const I64_MIN: int := -0x8000_0000_0000_0000

  /** Rust's `/` on signed integers, for a positive divisor. */
  function TruncDiv(a: int, b: int): int
    requires b > 0
  {
    if a >= 0 then a / b else -(-a / b)
  }

  function EraOf(z: int): int {
    TruncDiv(if z >= 0 then z else z - 146_096, 146_097)
  }

  function YearOfEra(doe: int): int {
    (doe - doe / 1_460 + doe / 36_524 - doe / 146_096) / 365
  }

  /** Days of an era before its March-based year `yoe`. */
  function YearStart(yoe: int): int {
    365 * yoe + yoe / 4 - yoe / 100
  }

  /** Month and day from the day of a year that starts in March. */
  function MonthDay(doy: int): (int, int) {
    var mp := (5 * doy + 2) / 153;
    (if mp < 10 then mp + 3 else mp - 9, doy - (153 * mp + 2) / 5 + 1)
  }

  function DaysToCivil(days: int): Date {
    var z := days + 719_468;
    var era := EraOf(z);
    var doe := z - era * 146_097;
    var yoe := YearOfEra(doe);
    var y := yoe + era * 400;
    var doy := doe - YearStart(yoe);
    var (m, d) := MonthDay(doy);
    Date(if m <= 2 then y + 1 else y, m, d)
  }

  // ---------------------------------------------------------------------------
  // The conversion of `symphony recover`
  // ---------------------------------------------------------------------------

  /** A wrapping 32-bit signed integer, as `as i32` and release-mode addition give. */
  function WrapI32(n: int): int {
    (n + 0x8000_0000) % 0x1_0000_0000 - 0x8000_0000
  }

  predicate FitsI32(n: int) {
    -0x8000_0000 <= n < 0x8000_0000
  }

  function EpochToDate(days: int): Date {
    var z := days + 719_468;
    var era := z / 146_097;
    var doe := z % 146_097;
    var yoe := (doe - doe / 1_460 + doe / 36_524 - doe / 146_096) / 365;
    var y := WrapI32(yoe + WrapI32(era * 400));
    var doy := doe - (365 * yoe + yoe / 4 - yoe / 100);
    var mp := (5 * doy + 2) / 153;
    var d := doy - (153 * mp + 2) / 5 + 1;
    var m := if mp < 10 then mp + 3 else mp - 9;
    Date(if m <= 2 then WrapI32(y + 1) else y, m, d)
  }

  // ---------------------------------------------------------------------------
  // Eras and years
  // ---------------------------------------------------------------------------

  /** Truncating division with the sign fix-up is flooring division. */
  lemma EraIsFloor(z: int)
    ensures EraOf(z) == z / 146_097
    ensures 0 <= z - EraOf(z) * 146_097 < 146_097
  {
  }

  /** A day of an era split into century, four-year cycle and day of the cycle. */
  lemma YearInCycle(b: int, q: int, s: int)
    requires 0 <= b < 4 && 0 <= q < 25 && 0 <= s < 1461 && 1461 * q + s < 36_524
    ensures var e := if q + s + 24 * b >= 1460 then 1 else 0;
            YearOfEra(36_524 * b + 1461 * q + s) == 100 * b + 4 * q + (s - e) / 365
  {
    var doe := 36_524 * b + 1461 * q + s;
    var e := if q + s + 24 * b >= 1460 then 1 else 0;
    assert doe / 146_096 == 0;
    assert doe / 36_524 == b;
    assert doe == 1460 * (25 * b + q) + (q + s + 24 * b);
    assert doe / 1_460 == 25 * b + q + e;
    assert doe - doe / 1_460 + doe / 36_524 == 365 * (100 * b + 4 * q) + (s - e);
  }

  lemma YearStartInCycle(b: int, q: int, k: int)
    requires 0 <= b < 4 && 0 <= q < 25 && 0 <= k < 4
    ensures YearStart(100 * b + 4 * q + k) == 36_524 * b + 1461 * q + 365 * k
  {
    var yoe := 100 * b + 4 * q + k;
    assert yoe / 4 == 25 * b + q;
    assert yoe / 100 == b;
  }

  lemma GreatestInCycle(b: int, q: int, s: int)
    requires 0 <= b < 4 && 0 <= q < 25 && 0 <= s < 1461 && 1461 * q + s < 36_524
    ensures GreatestStarted(36_524 * b + 1461 * q + s)
  {
    var e := if q + s + 24 * b >= 1460 then 1 else 0;
    var k := (s - e) / 365;
    YearInCycle(b, q, s);
    YearStartInCycle(b, q, k);
    if k < 3 {
      YearStartInCycle(b, q, k + 1);
    } else if q < 24 {
      YearStartInCycle(b, q + 1, 0);
    } else if b < 3 {
      YearStartInCycle(b + 1, 0, 0);
    }
  }

  /** The year computed for the day `doe` of an era has started, and no later one has. */
  predicate GreatestStarted(doe: int) {
    var yoe := YearOfEra(doe);
    0 <= yoe < 400 && YearStart(yoe) <= doe && (yoe < 399 ==> doe < YearStart(yoe + 1))
  }

  lemma YearOfEraIsGreatest(doe: int)
    requires 0 <= doe < 146_097
    ensures GreatestStarted(doe)
  {
    if doe < 146_096 {
      var b := doe / 36_524;
      var t := doe - 36_524 * b;
      var q := t / 1461;
      assert doe == 36_524 * b + 1461 * q + (t - 1461 * q);
      GreatestInCycle(b, q, t - 1461 * q);
    }
  }

  /** The number of the first of January in closed form. */
  lemma {:induction false} YearsClosed(y: int)
    ensures DaysBeforeYear(y) == 365 * (y - 1970) + (y - 1) / 4 - (y - 1) / 100 + (y - 1) / 400 - 477
    decreases if y >= 1970 then y - 1970 else 1970 - y
  {
    if y > 1970 {
      YearsClosed(y - 1);
      LeapCount(y - 1);
    } else if y < 1970 {
      YearsClosed(y + 1);
      LeapCount(y);
    }
  }

  lemma FourYears(y: int)
    ensures y / 4 - (y - 1) / 4 == if y % 4 == 0 then 1 else 0
  {
  }

  lemma HundredYears(y: int)
    ensures y / 100 - (y - 1) / 100 == if y % 100 == 0 then 1 else 0
  {
  }

  lemma FourHundredYears(y: int)
    ensures y / 400 - (y - 1) / 400 == if y % 400 == 0 then 1 else 0
  {
  }

  lemma Multiples(y: int)
    ensures y % 100 == 0 ==> y % 4 == 0
    ensures y % 400 == 0 ==> y % 100 == 0
  {
    Shift4(0, 25 * (y / 100));
    Shift100(0, 4 * (y / 400));
  }

  /** The leap-day count grows by one exactly over a leap year. */
  lemma LeapCount(y: int)
    ensures y / 4 - y / 100 + y / 400 - ((y - 1) / 4 - (y - 1) / 100 + (y - 1) / 400) == if Leap(y) then 1 else 0
  {
    FourYears(y);
    HundredYears(y);
    FourHundredYears(y);
    Multiples(y);
  }

  // ---------------------------------------------------------------------------
  // Months and days
  // ---------------------------------------------------------------------------

  lemma MonthStarts(y: int)
    ensures var l := if Leap(y) then 1 else 0;
            && DaysBeforeMonth(y, 1) == 0 && DaysBeforeMonth(y, 2) == 31
            && DaysBeforeMonth(y, 3) == 59 + l && DaysBeforeMonth(y, 4) == 90 + l
            && DaysBeforeMonth(y, 5) == 120 + l && DaysBeforeMonth(y, 6) == 151 + l
            && DaysBeforeMonth(y, 7) == 181 + l && DaysBeforeMonth(y, 8) == 212 + l
            && DaysBeforeMonth(y, 9) == 243 + l && DaysBeforeMonth(y, 10) == 273 + l
            && DaysBeforeMonth(y, 11) == 304 + l && DaysBeforeMonth(y, 12) == 334 + l
            && DaysBeforeMonth(y, 13) == YearLength(y)
  {
    assert DaysBeforeMonth(y, 2) == 31;
    assert DaysBeforeMonth(y, 4) == DaysBeforeMonth(y, 3) + 31;
    assert DaysBeforeMonth(y, 6) == DaysBeforeMonth(y, 5) + 31;
    assert DaysBeforeMonth(y, 8) == DaysBeforeMonth(y, 7) + 31;
    assert DaysBeforeMonth(y, 10) == DaysBeforeMonth(y, 9) + 30;
    assert DaysBeforeMonth(y, 12) == DaysBeforeMonth(y, 11) + 30;
  }

  /** The last day of a March-based year exists only if the next year is a leap year. */
  predicate DayOfMarchYear(y: int, doy: int) {
    0 <= doy <= 365 && (doy == 365 ==> Leap(y + 1))
  }

  lemma MonthBracket(doy: int)
    requires 0 <= doy <= 365
    ensures var mp := (5 * doy + 2) / 153;
            0 <= mp < 12 && (153 * mp + 2) / 5 <= doy < (153 * (mp + 1) + 2) / 5
  {
  }

  /** The date that `MonthDay` gives for a day of the year starting in March `y`. */
  function MarchDate(y: int, doy: int): Date {
    var (m, d) := MonthDay(doy);
    Date(if m <= 2 then y + 1 else y, m, d)
  }

  /** From March to December the month starts follow the linear formula. */
  lemma MonthsFromMarch(y: int, mp: int)
    requires 0 <= mp < 10
    ensures DaysBeforeMonth(y, mp + 3) == DaysBeforeMonth(y, 3) + (153 * mp + 2) / 5
    ensures MonthLength(y, mp + 3) == (153 * (mp + 1) + 2) / 5 - (153 * mp + 2) / 5
  {
    MonthStarts(y);
  }

  lemma MarchToDecember(y: int, doy: int)
    requires 0 <= doy < 306
    ensures ValidDate(MarchDate(y, doy))
    ensures DayNumber(MarchDate(y, doy)) == DaysBeforeYear(y) + DaysBeforeMonth(y, 3) + doy
  {
    MonthBracket(doy);
    MonthsFromMarch(y, (5 * doy + 2) / 153);
  }

  lemma JanuaryAndFebruary(y: int, doy: int)
    requires DayOfMarchYear(y, doy) && doy >= 306
    ensures ValidDate(MarchDate(y, doy))
    ensures DayNumber(MarchDate(y, doy)) == DaysBeforeYear(y + 1) + doy - 306
  {
    MonthBracket(doy);
    assert DaysBeforeMonth(y + 1, 1) == 0 && DaysBeforeMonth(y + 1, 2) == 31;
  }

  /** The date of a day of a March-based year is valid, and counts that many days on. */
  lemma MarchDateCounts(y: int, doy: int)
    requires DayOfMarchYear(y, doy)
    ensures ValidDate(MarchDate(y, doy))
    ensures DayNumber(MarchDate(y, doy)) == DaysBeforeYear(y) + DaysBeforeMonth(y, 3) + doy
  {
    if doy < 306 {
      MarchToDecember(y, doy);
    } else {
      JanuaryAndFebruary(y, doy);
      MonthStarts(y);
      YearStep(y);
    }
  }

  /** Where the March-based years of an era start, in days from 1970-01-01. */
  lemma MarchFirst(era: int, yoe: int)
    requires 0 <= yoe < 400
    ensures var y := yoe + era * 400;
            DaysBeforeYear(y) + DaysBeforeMonth(y, 3) == era * 146_097 + YearStart(yoe) - 719_468
  {
    var y := yoe + era * 400;
    MonthStarts(y);
    YearsClosed(y);
    LeapCount(y);
    assert y / 4 == yoe / 4 + era * 100;
    assert y / 100 == yoe / 100 + era * 4;
    assert y / 400 == era;
  }

  lemma Shift4(y: int, k: int)
    ensures (y + 4 * k) % 4 == y % 4
  {
  }

  lemma Shift100(y: int, k: int)
    ensures (y + 100 * k) % 100 == y % 100
  {
  }

  lemma Shift400(y: int, k: int)
    ensures (y + 400 * k) % 400 == y % 400
  {
  }

  lemma LeapRepeats(y: int, era: int)
    ensures Leap(y + era * 400) == Leap(y)
  {
    Shift4(y, 100 * era);
    Shift100(y, 4 * era);
    Shift400(y, era);
  }

  lemma MarchYearLength(yoe: int)
    requires 0 <= yoe < 399
    ensures YearStart(yoe + 1) - YearStart(yoe) == YearLength(yoe + 1)
  {
    FourYears(yoe + 1);
    HundredYears(yoe + 1);
    Multiples(yoe + 1);
  }

  lemma DayOfYearFits(era: int, doe: int)
    requires 0 <= doe < 146_097
    ensures var yoe := YearOfEra(doe);
            DayOfMarchYear(yoe + era * 400, doe - YearStart(yoe))
  {
    YearOfEraIsGreatest(doe);
    var yoe := YearOfEra(doe);
    LeapRepeats(yoe + 1, era);
    assert yoe + 1 + era * 400 == yoe + era * 400 + 1;
    if yoe < 399 {
      MarchYearLength(yoe);
    } else {
      assert YearStart(399) == 145_731;
      assert Leap(400);
    }
  }

  /** `days_to_civil` gives a valid date, and the calendar counts that date as `days`. */
  lemma CivilDateCounts(days: int)
    ensures ValidDate(DaysToCivil(days))
    ensures DayNumber(DaysToCivil(days)) == days
  {
    var era, yoe, doy := CivilParts(days);
    DateOfEraDay(era, yoe, doy);
  }

  lemma CivilParts(days: int) returns (era: int, yoe: int, doy: int)
    ensures 0 <= yoe < 400 && DayOfMarchYear(yoe + era * 400, doy)
    ensures days == era * 146_097 + YearStart(yoe) + doy - 719_468
    ensures DaysToCivil(days) == MarchDate(yoe + era * 400, doy)
  {
    EraIsFloor(days + 719_468);
    era := EraOf(days + 719_468);
    var doe := days + 719_468 - era * 146_097;
    yoe := YearOfEra(doe);
    doy := doe - YearStart(yoe);
    YearInRange(doe);
    DayOfYearFits(era, doe);
    CivilIsMarchDate(days, era, doe, yoe);
  }

  lemma YearInRange(doe: int)
    requires 0 <= doe < 146_097
    ensures 0 <= YearOfEra(doe) < 400
  {
    YearOfEraIsGreatest(doe);
  }

  lemma CivilIsMarchDate(days: int, era: int, doe: int, yoe: int)
    requires era == EraOf(days + 719_468) && doe == days + 719_468 - era * 146_097 && yoe == YearOfEra(doe)
    ensures DaysToCivil(days) == MarchDate(yoe + era * 400, doe - YearStart(yoe))
  {
  }

  lemma DateOfEraDay(era: int, yoe: int, doy: int)
    requires 0 <= yoe < 400 && DayOfMarchYear(yoe + era * 400, doy)
    ensures var date := MarchDate(yoe + era * 400, doy);
            ValidDate(date) && DayNumber(date) == era * 146_097 + YearStart(yoe) + doy - 719_468
  {
    MarchFirst(era, yoe);
    MarchDateCounts(yoe + era * 400, doy);
  }

  // ---------------------------------------------------------------------------
  // One date for every day
  // ---------------------------------------------------------------------------

  predicate DateLess(a: Date, b: Date) {
    a.year < b.year || (a.year == b.year && (a.month < b.month || (a.month == b.month && a.day < b.day)))
  }

  lemma {:induction false} YearsAscend(a: int, b: int)
    requires a < b
    ensures DaysBeforeYear(a) + YearLength(a) <= DaysBeforeYear(b)
    decreases b - a
  {
    if a + 1 < b {
      YearsAscend(a, b - 1);
      YearStep(b - 1);
    } else {
      YearStep(a);
    }
  }

  lemma YearStep(y: int)
    ensures DaysBeforeYear(y + 1) == DaysBeforeYear(y) + YearLength(y)
  {
  }

  lemma {:induction false} MonthsAscend(y: int, a: int, b: int)
    requires 1 <= a < b <= 13
    ensures DaysBeforeMonth(y, a) + MonthLength(y, a) <= DaysBeforeMonth(y, b)
    ensures 0 <= DaysBeforeMonth(y, a)
    decreases b
  {
    if a + 1 < b {
      MonthsAscend(y, a, b - 1);
    } else if a > 1 {
      MonthsAscend(y, a - 1, a);
    }
  }

  lemma WithinYear(d: Date)
    requires ValidDate(d)
    ensures DaysBeforeYear(d.year) <= DayNumber(d) < DaysBeforeYear(d.year) + YearLength(d.year)
  {
    MonthsAscend(d.year, d.month, 13);
    MonthStarts(d.year);
  }

  /** Earlier dates have smaller day numbers. */
  lemma DatesAscend(a: Date, b: Date)
    requires ValidDate(a) && ValidDate(b) && DateLess(a, b)
    ensures DayNumber(a) < DayNumber(b)
  {
    WithinYear(a);
    WithinYear(b);
    if a.year < b.year {
      YearsAscend(a.year, b.year);
    } else if a.month < b.month {
      MonthsAscend(a.year, a.month, b.month);
    }
  }

  /** The date of a day is the only valid date with that day number. */
  lemma CivilDateUnique(d: Date, days: int)
    ensures ValidDate(d) && DayNumber(d) == days <==> d == DaysToCivil(days)
  {
    CivilDateCounts(days);
    var c := DaysToCivil(days);
    if ValidDate(d) && d != c {
      if DateLess(d, c) {
        DatesAscend(d, c);
      } else {
        DatesAscend(c, d);
      }
    }
  }

  lemma NextDateCounts(d: Date)
    requires ValidDate(d)
    ensures ValidDate(NextDate(d)) && DayNumber(NextDate(d)) == DayNumber(d) + 1
  {
    if d.day == MonthLength(d.year, d.month) {
      if d.month == 12 {
        YearStep(d.year);
        MonthStarts(d.year);
        MonthStarts(d.year + 1);
      } else {
        assert DaysBeforeMonth(d.year, d.month + 1) == DaysBeforeMonth(d.year, d.month) + MonthLength(d.year, d.month);
      }
    }
  }

  /** The next day count gives the next date of the calendar. */
  lemma NextDayIsNextDate(days: int)
    ensures DaysToCivil(days + 1) == NextDate(DaysToCivil(days))
  {
    CivilDateCounts(days);
    NextDateCounts(DaysToCivil(days));
    CivilDateUnique(NextDate(DaysToCivil(days)), days + 1);
  }

  /** Dates compare as their day counts do. */
  lemma CivilDatesAscend(a: int, b: int)
    ensures a < b <==> DateLess(DaysToCivil(a), DaysToCivil(b))
  {
    CivilDateCounts(a);
    CivilDateCounts(b);
    var da, db := DaysToCivil(a), DaysToCivil(b);
    if DateLess(da, db) {
      DatesAscend(da, db);
    } else if da != db {
      DatesAscend(db, da);
    }
  }

  // ---------------------------------------------------------------------------
  // The two conversions agree
  // ---------------------------------------------------------------------------

  lemma WrapAgain(a: int, b: int)
    ensures WrapI32(WrapI32(a) + b) == WrapI32(a + b)
  {
    var k := (a + 0x8000_0000) / 0x1_0000_0000;
    assert WrapI32(a) == a - k * 0x1_0000_0000;
    WrapShift(a + b, k);
  }

  lemma WrapShift(n: int, k: int)
    ensures WrapI32(n - k * 0x1_0000_0000) == WrapI32(n)
  {
  }

  lemma WrapFits(n: int)
    ensures FitsI32(WrapI32(n))
    ensures WrapI32(n) == n <==> FitsI32(n)
  {
  }

  /** Era, day of the era and year of the era, as either conversion computes them. */
  predicate PartsOf(days: int, era: int, doe: int, yoe: int) {
    era == (days + 719_468) / 146_097 == EraOf(days + 719_468)
    && doe == (days + 719_468) % 146_097 == days + 719_468 - era * 146_097
    && yoe == YearOfEra(doe)
  }

  lemma SameParts(days: int) returns (era: int, doe: int, yoe: int)
    ensures PartsOf(days, era, doe, yoe)
  {
    EraIsFloor(days + 719_468);
    era := EraOf(days + 719_468);
    doe := days + 719_468 - era * 146_097;
    yoe := YearOfEra(doe);
  }

  /** The date of the second conversion from its parts, wrapped at every addition. */
  function EpochDate(era: int, yoe: int, m: int, d: int): Date {
    var y := WrapI32(yoe + WrapI32(era * 400));
    Date(if m <= 2 then WrapI32(y + 1) else y, m, d)
  }

  lemma EpochFromParts(days: int, era: int, doe: int, yoe: int)
    requires era == (days + 719_468) / 146_097 && doe == (days + 719_468) % 146_097 && yoe == YearOfEra(doe)
    ensures var (m, d) := MonthDay(doe - YearStart(yoe));
            EpochToDate(days) == EpochDate(era, yoe, m, d)
  {
  }

  /** Wrapping at every addition and wrapping once give the same date. */
  lemma WrapsRelate(era: int, yoe: int, doy: int)
    ensures var (m, d) := MonthDay(doy);
            var date := MarchDate(yoe + era * 400, doy);
            EpochDate(era, yoe, m, d) == date.(year := WrapI32(date.year))
  {
    WrapAgain(era * 400, yoe);
    WrapAgain(yoe + era * 400, 1);
  }

  lemma RelateFromParts(days: int, era: int, doe: int, yoe: int)
    requires PartsOf(days, era, doe, yoe)
    ensures EpochToDate(days) == DaysToCivil(days).(year := WrapI32(DaysToCivil(days).year))
  {
    EpochFromParts(days, era, doe, yoe);
    CivilIsMarchDate(days, era, doe, yoe);
    WrapsRelate(era, yoe, doe - YearStart(yoe));
  }

  /** How far `q` turns around the 32-bit range go. */
  function WholeTurns(q: int): int {
    q * 0x1_0000_0000
  }

  lemma WrapTurns(n: int) returns (q: int)
    ensures FitsI32(WrapI32(n)) && WrapI32(n) == n + WholeTurns(q)
  {
    q := -((n + 0x8000_0000) / 0x1_0000_0000);
  }

  /** Both conversions give the same month and day, and the second gives the year
      of the first reduced to 32 bits. */
  lemma ConversionsRelate(days: int)
    ensures EpochToDate(days) == DaysToCivil(days).(year := WrapI32(DaysToCivil(days).year))
    ensures FitsI32(EpochToDate(days).year)
    ensures exists q: int :: EpochToDate(days).year == DaysToCivil(days).year + WholeTurns(q)
  {
    var era, doe, yoe := SameParts(days);
    RelateFromParts(days, era, doe, yoe);
    var q := WrapTurns(DaysToCivil(days).year);
  }

  /** The first day whose year fits 32 bits, and the first day after the last such. */
  const FIRST_I32_DAY: int := -784_353_015_833
  const END_I32_DAYS: int := 784_351_576_777

  lemma I32YearBounds(first: int, end: int)
    requires first == -0x8000_0000 && end == 0x8000_0000
    ensures DaysBeforeYear(first) == FIRST_I32_DAY && DaysBeforeYear(end) == END_I32_DAYS
  {
    YearsClosed(first);
    YearsClosed(end);
  }

  lemma YearOfDay(d: Date, y: int)
    requires ValidDate(d)
    ensures d.year < y <==> DayNumber(d) < DaysBeforeYear(y)
  {
    WithinYear(d);
    if d.year < y {
      YearsAscend(d.year, y);
    } else if d.year > y {
      YearsAscend(y, d.year);
    }
  }

  /** The days whose year fits 32 bits, by day count. */
  lemma YearFitsExactlyWhen(days: int)
    ensures FitsI32(DaysToCivil(days).year) <==> FIRST_I32_DAY <= days < END_I32_DAYS
  {
    CivilDateCounts(days);
    I32YearBounds(-0x8000_0000, 0x8000_0000);
    YearOfDay(DaysToCivil(days), -0x8000_0000);
    YearOfDay(DaysToCivil(days), 0x8000_0000);
  }

  /** The two conversions agree exactly on the days whose year fits 32 bits. */
  lemma ConversionsAgree(days: int)
    ensures EpochToDate(days) == DaysToCivil(days) <==> FIRST_I32_DAY <= days < END_I32_DAYS
  {
    ConversionsRelate(days);
    WrapFits(DaysToCivil(days).year);
    YearFitsExactlyWhen(days);
  }

  // ---------------------------------------------------------------------------
  // The range of the 64-bit arithmetic
  // ---------------------------------------------------------------------------

  predicate FitsI64(n: int) {
    I64_MIN <= n <= I64_MAX
  }

  /** Every intermediate value of `days_to_civil` fits its 64-bit variable. */
  predicate NoOverflow(days: int) {
    var z := days + 719_468;
    var era := EraOf(z);
    && FitsI64(z)
    && (z < 0 ==> FitsI64(z - 146_096))
    && FitsI64(era * 146_097) && FitsI64(z - era * 146_097)
    && FitsI64(era * 400) && FitsI64(DaysToCivil(days).year)
  }

  /** The conversion is not valid for every `i64`: it overflows for exactly the last
      719468 day counts. */
  lemma OverflowBound(days: int)
    requires FitsI64(days)
    ensures NoOverflow(days) <==> days <= I64_MAX - 719_468
  {
    var z := days + 719_468;
    EraIsFloor(z);
    var era, yoe, doy := CivilParts(days);
    YearNearEra(days, era, yoe, doy);
  }

  lemma YearNearEra(days: int, era: int, yoe: int, doy: int)
    requires 0 <= yoe < 400 && DaysToCivil(days) == MarchDate(yoe + era * 400, doy)
    ensures era * 400 <= DaysToCivil(days).year <= era * 400 + 400
  {
  }
}
