/**
 Timestamps written as text and compared as text: `YYYY-MM-DDTHH:MM:SSZ`, the
 format of section 5.6 of RFC 3339.
 */
module Timestamps {
  import opened Prelude
  import opened CivilDate

  /** Rust's `{n:0width$}`. */
  function Padded(n: int, width: nat): string {
    if n < 0 then "-" + Zeros(width - 1 - |Decimal(-n)|) + Decimal(-n)
    else Zeros(width - |Decimal(n)|) + Decimal(n)
  }

  function Zeros(n: int): string
    decreases n
  {
    if n <= 0 then "" else "0" + Zeros(n - 1)
  }

  /** A number of fixed width followed by the character that separates it from the next. */
  function Field(n: int, width: nat, end: char): string {
    Padded(n, width) + [end]
  }

  function TimeText(secsOfDay: int): string {
    Field(secsOfDay / 3_600, 2, ':') + (Field(secsOfDay % 3_600 / 60, 2, ':') + (Field(secsOfDay % 60, 2, 'Z') + ""))
  }

  function Text(date: Date, secsOfDay: int): string {
    Field(date.year, 4, '-') + (Field(date.month, 2, '-') + (Field(date.day, 2, 'T') + TimeText(secsOfDay)))
  }

  /** The timestamp of `symphony cancel` for a number of seconds since 1970. */
  function CancelTimestamp(secs: nat): string {
    Text(DaysToCivil(secs / 86_400), secs % 86_400)
  }

  /** The timestamp of `symphony recover`. */
  function RecoverTimestamp(secs: nat): string {
    Text(EpochToDate(secs / 86_400), secs % 86_400)
  }

  /** The last second of the year 9999. */
  const LAST_SECOND: nat := 253_402_300_799

  /** Byte-wise comparison of strings, as the store compares them. */
  predicate LexLess(a: string, b: string)
    decreases |a|
  {
    b != "" && (a == "" || a[0] < b[0] || (a[0] == b[0] && LexLess(a[1..], b[1..])))
  }

  lemma {:induction false} LexOfConcat(a: string, b: string, x: string, y: string)
    requires |a| == |b|
    ensures LexLess(a + x, b + y) <==> LexLess(a, b) || (a == b && LexLess(x, y))
    decreases |a|
  {
    if a == "" {
      assert a + x == x && b + y == y;
    } else {
      assert (a + x)[1..] == a[1..] + x && (b + y)[1..] == b[1..] + y;
      assert a == b <==> a[0] == b[0] && a[1..] == b[1..];
      LexOfConcat(a[1..], b[1..], x, y);
    }
  }

  /** Digit strings of equal length compare as the numbers they denote. */
  lemma {:induction false} LexOfDigits(a: string, b: string)
    requires |a| == |b| && AllDigits(a) && AllDigits(b)
    ensures LexLess(a, b) <==> ReadDecimal(a) < ReadDecimal(b)
    ensures a == b <==> ReadDecimal(a) == ReadDecimal(b)
    decreases |a|
  {
    if a != "" {
      var n := |a| - 1;
      LexOfDigits(a[..n], b[..n]);
      LexOfConcat(a[..n], b[..n], [a[n]], [b[n]]);
      assert a == a[..n] + [a[n]] && b == b[..n] + [b[n]];
      assert [a[n]][1..] == "" && [b[n]][1..] == "";
    }
  }

  // ---------------------------------------------------------------------------
  // Fixed-width numbers
  // ---------------------------------------------------------------------------

  lemma {:induction false} ZerosRead(n: int, s: string)
    requires AllDigits(s)
    ensures AllDigits(Zeros(n) + s) && ReadDecimal(Zeros(n) + s) == ReadDecimal(s)
    ensures |Zeros(n)| == if n < 0 then 0 else n
    decreases n, |s|
  {
    if n <= 0 {
      assert Zeros(n) + s == s;
    } else {
      ZerosRead(n - 1, s);
      var t := Zeros(n - 1) + s;
      assert Zeros(n) + s == "0" + t;
      LeadingZero(t);
    }
  }

  lemma {:induction false} LeadingZero(s: string)
    requires AllDigits(s)
    ensures AllDigits("0" + s) && ReadDecimal("0" + s) == ReadDecimal(s)
  {
    var z := "0" + s;
    if s == "" {
      assert z[..0] == "";
    } else {
      LeadingZero(s[..|s| - 1]);
      assert z[..|z| - 1] == "0" + s[..|s| - 1];
    }
  }

  lemma DecimalWidth(n: nat)
    ensures n < 100 ==> |Decimal(n)| <= 2
    ensures n < 10_000 ==> |Decimal(n)| <= 4
  {
    if 10 <= n < 10_000 {
      assert |Decimal(n)| == |Decimal(n / 10)| + 1;
      if n / 10 >= 10 {
        assert |Decimal(n / 10)| == |Decimal(n / 10 / 10)| + 1;
        if n / 10 / 10 >= 10 {
          assert |Decimal(n / 10 / 10)| == |Decimal(n / 10 / 10 / 10)| + 1;
        }
      }
    }
  }

  predicate FitsWidth(n: int, width: nat) {
    (width == 2 && 0 <= n < 100) || (width == 4 && 0 <= n < 10_000)
  }

  lemma PaddedReads(n: int, width: nat)
    requires FitsWidth(n, width)
    ensures |Padded(n, width)| == width && AllDigits(Padded(n, width)) && ReadDecimal(Padded(n, width)) == n
  {
    DecimalReadsBack(n);
    DecimalWidth(n);
    ZerosRead(width - |Decimal(n)|, Decimal(n));
  }

  /** Two texts that start with a number of the same width compare by the number
      first and then by what follows. */
  lemma FieldsCompare(m: int, n: int, width: nat, end: char, x: string, y: string)
    requires FitsWidth(m, width) && FitsWidth(n, width)
    ensures LexLess(Field(m, width, end) + x, Field(n, width, end) + y) <==> m < n || (m == n && LexLess(x, y))
  {
    PaddedReads(m, width);
    PaddedReads(n, width);
    LexOfDigits(Padded(m, width), Padded(n, width));
    LexOfConcat(Padded(m, width), Padded(n, width), [end], [end]);
    assert [end][1..] == "" && !LexLess("", "");
    LexOfConcat(Field(m, width, end), Field(n, width, end), x, y);
    assert Field(m, width, end) == Field(n, width, end) <==> Padded(m, width) == Padded(n, width) by {
      assert Field(m, width, end)[..width] == Padded(m, width);
      assert Field(n, width, end)[..width] == Padded(n, width);
    }
  }

  // ---------------------------------------------------------------------------
  // Order
  // ---------------------------------------------------------------------------

  predicate FourDigitYear(date: Date) {
    0 <= date.year < 10_000 && 1 <= date.month <= 12 && 1 <= date.day <= 31
  }

  predicate TimeLess(a: int, b: int)
  {
    var (ha, hb) := (a / 3_600, b / 3_600);
    var (ma, mb) := (a % 3_600 / 60, b % 3_600 / 60);
    ha < hb || (ha == hb && (ma < mb || (ma == mb && a % 60 < b % 60)))
  }

  lemma TimesCompare(a: int, b: int)
    requires 0 <= a < 86_400 && 0 <= b < 86_400
    ensures TimeLess(a, b) <==> a < b
  {
    var (ha, hb) := (a / 3_600, b / 3_600);
    var (ra, rb) := (a % 3_600, b % 3_600);
    assert a == 3_600 * ha + ra && b == 3_600 * hb + rb;
    assert a % 60 == ra % 60 && b % 60 == rb % 60 by {
      assert a == 60 * (60 * ha) + ra && b == 60 * (60 * hb) + rb;
    }
    assert ra == 60 * (ra / 60) + ra % 60 && rb == 60 * (rb / 60) + rb % 60;
  }

  lemma TimeTextsCompare(a: int, b: int)
    requires 0 <= a < 86_400 && 0 <= b < 86_400
    ensures LexLess(TimeText(a), TimeText(b)) <==> a < b
  {
    var (sa, sb) := (a % 60, b % 60);
    var (ma, mb) := (a % 3_600 / 60, b % 3_600 / 60);
    var ta, tb := Field(sa, 2, 'Z') + "", Field(sb, 2, 'Z') + "";
    FieldsCompare(sa, sb, 2, 'Z', "", "");
    FieldsCompare(ma, mb, 2, ':', ta, tb);
    FieldsCompare(a / 3_600, b / 3_600, 2, ':', Field(ma, 2, ':') + ta, Field(mb, 2, ':') + tb);
    TimesCompare(a, b);
  }

  /** Texts of four-digit years compare by date and then by time of day. */
  lemma TextsCompare(a: Date, s: int, b: Date, t: int)
    requires FourDigitYear(a) && FourDigitYear(b) && 0 <= s < 86_400 && 0 <= t < 86_400
    ensures LexLess(Text(a, s), Text(b, t)) <==> DateLess(a, b) || (a == b && s < t)
  {
    var x3, y3 := Field(a.day, 2, 'T') + TimeText(s), Field(b.day, 2, 'T') + TimeText(t);
    var x2, y2 := Field(a.month, 2, '-') + x3, Field(b.month, 2, '-') + y3;
    assert Text(a, s) == Field(a.year, 4, '-') + x2;
    assert Text(b, t) == Field(b.year, 4, '-') + y2;
    TimeTextsCompare(s, t);
    FieldsCompare(a.day, b.day, 2, 'T', TimeText(s), TimeText(t));
    FieldsCompare(a.month, b.month, 2, '-', x3, y3);
    FieldsCompare(a.year, b.year, 4, '-', x2, y2);
  }

  lemma YearOfDayNumber(d: Date, days: nat)
    requires ValidDate(d) && DayNumber(d) == days
    ensures 1970 <= d.year
    ensures d.year <= 9_999 <==> days <= LAST_SECOND / 86_400
  {
    WithinYear(d);
    YearsClosed(10_000);
    assert LAST_SECOND / 86_400 == 2_932_896;
    if d.year < 1970 {
      YearsAscend(d.year, 1970);
    }
    if d.year < 10_000 {
      YearsAscend(d.year, 10_000);
    } else if d.year > 10_000 {
      YearsAscend(10_000, d.year);
    }
  }

  /** Days up to the end of 9999 have years of four digits, later days do not. */
  lemma YearsOfDays(days: nat)
    ensures 1970 <= DaysToCivil(days).year
    ensures DaysToCivil(days).year <= 9_999 <==> days <= LAST_SECOND / 86_400
  {
    CivilDateCounts(days);
    YearOfDayNumber(DaysToCivil(days), days);
  }

  lemma TimestampOrderUpTo9999(s: nat, t: nat)
    requires s <= LAST_SECOND && t <= LAST_SECOND
    ensures LexLess(CancelTimestamp(s), CancelTimestamp(t)) <==> s < t
  {
    var (da, db) := (s / 86_400, t / 86_400);
    YearsOfDays(da);
    YearsOfDays(db);
    CivilDateCounts(da);
    CivilDateCounts(db);
    CivilDatesAscend(da, db);
    CivilDatesAscend(db, da);
    TextsCompare(DaysToCivil(da), s % 86_400, DaysToCivil(db), t % 86_400);
  }

  lemma FirstDigits()
    ensures Padded(9_999, 4)[0] == '9' && Padded(10_000, 4)[0] == '1'
    ensures |Padded(9_999, 4)| == 4 && |Padded(10_000, 4)| == 5
  {
    assert Decimal(9) == "9" && Decimal(99) == Decimal(9) + "9" && Decimal(999) == Decimal(99) + "9";
    assert Decimal(9_999) == Decimal(999) + "9";
    assert Decimal(1) == "1" && Decimal(10) == Decimal(1) + "0" && Decimal(100) == Decimal(10) + "0";
    assert Decimal(1_000) == Decimal(100) + "0" && Decimal(10_000) == Decimal(1_000) + "0";
    assert Zeros(0) == "" && Zeros(-1) == "";
  }

  /** The closed-form day numbers around the turn of the year 10000. */
  lemma DaysBeforeYear10000()
    ensures DaysBeforeYear(10_000) == 2_932_897
    ensures DaysBeforeYear(9_999) == 2_932_897 - 365
  {
    YearsClosed(10_000);
    YearsClosed(9_999);
  }

  lemma LastDayOf9999(last: Date)
    requires last == Date(9_999, 12, 31)
    ensures ValidDate(last) && DayNumber(last) == 2_932_896
  {
    DaysBeforeYear10000();
    MonthStarts(9_999);
  }

  lemma FirstDayOf10000(first: Date)
    requires first == Date(10_000, 1, 1)
    ensures ValidDate(first) && DayNumber(first) == 2_932_897
  {
    DaysBeforeYear10000();
  }

  lemma LastSecondIsLast()
    ensures LAST_SECOND / 86_400 == 2_932_896 && (LAST_SECOND + 1) / 86_400 == 2_932_897
  {
  }

  lemma TurnOfTheYear10000()
    ensures DaysToCivil(LAST_SECOND / 86_400) == Date(9_999, 12, 31)
    ensures DaysToCivil((LAST_SECOND + 1) / 86_400) == Date(10_000, 1, 1)
  {
    var last, first := Date(9_999, 12, 31), Date(10_000, 1, 1);
    LastSecondIsLast();
    LastDayOf9999(last);
    FirstDayOf10000(first);
    CivilDateUnique(last, LAST_SECOND / 86_400);
    CivilDateUnique(first, (LAST_SECOND + 1) / 86_400);
  }

  lemma StartsWithYear(date: Date, secs: int)
    requires Padded(date.year, 4) != ""
    ensures Text(date, secs) != "" && Text(date, secs)[0] == Padded(date.year, 4)[0]
  {
  }

  /** The first second of the year 10000 sorts before the second it follows. */
  lemma OrderBreaksAfter9999()
    ensures LexLess(CancelTimestamp(LAST_SECOND + 1), CancelTimestamp(LAST_SECOND))
  {
    TurnOfTheYear10000();
    FirstDigits();
    StartsWithYear(Date(9_999, 12, 31), LAST_SECOND % 86_400);
    StartsWithYear(Date(10_000, 1, 1), (LAST_SECOND + 1) % 86_400);
  }

  /** Text order is time order for all instants up to `bound`, exactly if `bound`
      lies before the year 10000. */
  lemma OrderHoldsExactlyUpTo9999(bound: nat)
    ensures bound <= LAST_SECOND
            <==> forall s: nat, t: nat | s <= bound && t <= bound ::
                   LexLess(CancelTimestamp(s), CancelTimestamp(t)) <==> s < t
  {
    if bound <= LAST_SECOND {
      forall s: nat, t: nat | s <= bound && t <= bound
        ensures LexLess(CancelTimestamp(s), CancelTimestamp(t)) <==> s < t
      {
        TimestampOrderUpTo9999(s, t);
      }
    } else {
      OrderBreaksAfter9999();
    }
  }

  /** A number is padded with zeros to its width, and never cut. */
  lemma PaddedDigits(n: nat, width: nat)
    ensures Padded(n, width) != "" && AllDigits(Padded(n, width)) && ReadDecimal(Padded(n, width)) == n
    ensures |Padded(n, width)| == if width <= |Decimal(n)| then |Decimal(n)| else width
  {
    DecimalReadsBack(n);
    ZerosRead(width - |Decimal(n)|, Decimal(n));
  }

  /** The sign of a negative number comes first and counts for its width. */
  lemma NegativePadded(n: int, width: nat)
    requires n < 0
    ensures var text := Padded(n, width);
            && text != "" && text[0] == '-' && !AllDigits(text)
            && AllDigits(text[1..]) && ReadDecimal(text[1..]) == -n
            && |text| == if width <= |Decimal(-n)| then |Decimal(-n)| + 1 else width
  {
    var digits := Decimal(-n);
    var zeros := Zeros(width - 1 - |digits|);
    DecimalReadsBack(-n);
    ZerosRead(width - 1 - |digits|, digits);
    SignInFront(zeros, digits, Padded(n, width));
  }

  lemma SignInFront(zeros: string, digits: string, text: string)
    requires text == "-" + zeros + digits
    ensures text[0] == '-' && text[1..] == zeros + digits && !AllDigits(text)
  {
    assert text[0] == '-';
    assert !IsDigit(text[0]);
  }

  /** Padded numbers differ when the numbers do, with or without a sign. */
  lemma PaddedInjective(m: nat, n: int, width: nat)
    requires Padded(m, width) == Padded(n, width)
    ensures m == n
  {
    PaddedDigits(m, width);
    if n >= 0 {
      PaddedDigits(n, width);
    } else {
      NegativePadded(n, width);
    }
  }

  lemma YearDecides(m: nat, n: int, month: int, day: int, secs: int)
    requires Text(Date(m, month, day), secs) == Text(Date(n, month, day), secs)
    ensures m == n
  {
    var rest := Field(month, 2, '-') + (Field(day, 2, 'T') + TimeText(secs));
    var a, b := Padded(m, 4), Padded(n, 4);
    assert Text(Date(m, month, day), secs) == (a + ['-']) + rest;
    assert Text(Date(n, month, day), secs) == (b + ['-']) + rest;
    Regroup(a, ['-'], rest);
    Regroup(b, ['-'], rest);
    SameFront(a, b, ['-'] + rest);
    PaddedInjective(m, n, 4);
  }

  lemma SameFront(a: string, b: string, rest: string)
    requires a + rest == b + rest
    ensures a == b
  {
    assert |a| == |b|;
    assert a == (a + rest)[..|a|] && b == (b + rest)[..|b|];
  }

  /** Both commands write the same text for an instant exactly when its day comes before
      the first year that does not fit 32 bits. */
  lemma CommandsAgreeExactlyWhen(secs: nat)
    ensures RecoverTimestamp(secs) == CancelTimestamp(secs) <==> secs / 86_400 < END_I32_DAYS
  {
    var days := secs / 86_400;
    ConversionsAgree(days);
    ConversionsRelate(days);
    YearFitsExactlyWhen(days);
    YearsOfDays(days);
    var date := DaysToCivil(days);
    if RecoverTimestamp(secs) == CancelTimestamp(secs) {
      YearDecides(date.year, WrapI32(date.year), date.month, date.day, secs % 86_400);
      WrapFits(date.year);
    }
  }

  /** From that day on, as before it, the texts differ in nothing but the year, which
      `recover` writes reduced to 32 bits. */
  lemma RecoverDiffersInYear(secs: nat) returns (rest: string)
    ensures var year := DaysToCivil(secs / 86_400).year;
            && CancelTimestamp(secs) == Padded(year, 4) + rest
            && RecoverTimestamp(secs) == Padded(WrapI32(year), 4) + rest
  {
    var date := DaysToCivil(secs / 86_400);
    ConversionsRelate(secs / 86_400);
    var after := Field(date.month, 2, '-') + (Field(date.day, 2, 'T') + TimeText(secs % 86_400));
    rest := ['-'] + after;
    Regroup(Padded(date.year, 4), ['-'], after);
    Regroup(Padded(WrapI32(date.year), 4), ['-'], after);
  }

  // ---------------------------------------------------------------------------
  // Reading a timestamp back
  // ---------------------------------------------------------------------------

  /** A number of `width` digits and the character after it, taken off the front. */
  function TakeField(text: string, width: nat, end: char): Option<(nat, string)> {
    if width < |text| && AllDigits(text[..width]) && text[width] == end
    then Some((ReadDecimal(text[..width]), text[width + 1..])) else None
  }

  function ReadTime(text: string): Option<int> {
    match TakeField(text, 2, ':') case None => None case Some((h, afterHour)) =>
    match TakeField(afterHour, 2, ':') case None => None case Some((mi, afterMinute)) =>
    match TakeField(afterMinute, 2, 'Z') case None => None case Some((s, rest)) =>
    if h > 23 || mi > 59 || s > 59 || rest != "" then None else Some(h * 3_600 + mi * 60 + s)
  }

  function ReadDate(text: string): Option<(Date, string)> {
    match TakeField(text, 4, '-') case None => None case Some((y, afterYear)) =>
    match TakeField(afterYear, 2, '-') case None => None case Some((m, afterMonth)) =>
    match TakeField(afterMonth, 2, 'T') case None => None case Some((d, afterDay)) =>
    Some((Date(y, m, d), afterDay))
  }

  /** The instant a timestamp of four-digit year denotes, by the calendar alone. */
  function ReadTimestamp(text: string): Option<int> {
    match ReadDate(text) case None => None case Some((date, afterDay)) =>
    match ReadTime(afterDay) case None => None case Some(time) =>
    if ValidDate(date) then Some(DayNumber(date) * 86_400 + time) else None
  }

  lemma FieldReads(n: int, width: nat, end: char, rest: string)
    requires FitsWidth(n, width)
    ensures TakeField(Field(n, width, end) + rest, width, end) == Some((n, rest))
  {
    PaddedReads(n, width);
    var text := Field(n, width, end) + rest;
    assert text[..width] == Padded(n, width);
    assert text[width + 1..] == rest;
  }

  lemma TimeReads(secs: int)
    requires 0 <= secs < 86_400
    ensures ReadTime(TimeText(secs)) == Some(secs)
  {
    var (h, mi, s) := (secs / 3_600, secs % 3_600 / 60, secs % 60);
    FieldReads(s, 2, 'Z', "");
    FieldReads(mi, 2, ':', Field(s, 2, 'Z') + "");
    FieldReads(h, 2, ':', Field(mi, 2, ':') + (Field(s, 2, 'Z') + ""));
    TimeOfParts(secs);
  }

  lemma TimeOfParts(secs: int)
    requires 0 <= secs < 86_400
    ensures secs == secs / 3_600 * 3_600 + secs % 3_600 / 60 * 60 + secs % 60
  {
    var r := secs % 3_600;
    assert secs == 60 * (60 * (secs / 3_600)) + r;
    assert secs % 60 == r % 60;
  }

  lemma DateReads(date: Date, secs: int)
    requires FourDigitYear(date)
    ensures ReadDate(Text(date, secs)) == Some((date, TimeText(secs)))
  {
    var afterMonth := Field(date.day, 2, 'T') + TimeText(secs);
    var afterYear := Field(date.month, 2, '-') + afterMonth;
    assert Text(date, secs) == Field(date.year, 4, '-') + afterYear;
    FieldReads(date.year, 4, '-', afterYear);
    FieldReads(date.month, 2, '-', afterMonth);
    FieldReads(date.day, 2, 'T', TimeText(secs));
    assert Date(date.year, date.month, date.day) == date;
  }

  lemma TextReads(date: Date, secs: int)
    requires FourDigitYear(date) && ValidDate(date) && 0 <= secs < 86_400
    ensures ReadTimestamp(Text(date, secs)) == Some(DayNumber(date) * 86_400 + secs)
  {
    DateReads(date, secs);
    TimeReads(secs);
    ReadCombines(Text(date, secs), date, TimeText(secs), secs);
  }

  lemma ReadCombines(text: string, date: Date, time: string, secs: int)
    requires ReadDate(text) == Some((date, time)) && ReadTime(time) == Some(secs) && ValidDate(date)
    ensures ReadTimestamp(text) == Some(DayNumber(date) * 86_400 + secs)
  {
  }

  lemma DateOfDay(days: nat) returns (date: Date)
    requires days <= 2_932_896
    ensures date == DaysToCivil(days) && FourDigitYear(date) && ValidDate(date) && DayNumber(date) == days
  {
    date := DaysToCivil(days);
    YearsOfDays(days);
    CivilDateCounts(days);
  }

  lemma InstantReads(secs: nat, date: Date)
    requires FourDigitYear(date) && ValidDate(date) && DayNumber(date) == secs / 86_400
    ensures ReadTimestamp(Text(date, secs % 86_400)) == Some(secs)
  {
    var sod := secs % 86_400;
    assert secs == secs / 86_400 * 86_400 + sod;
    TextReads(date, sod);
  }

  lemma {:induction false} DecimalOfMore(n: nat, k: nat)
    requires n >= PowerOfTen(k)
    ensures |Decimal(n)| > k
    decreases k
  {
    if k > 0 {
      DecimalOfMore(n / 10, k - 1);
    }
  }

  function PowerOfTen(k: nat): (p: nat)
    ensures p >= 1
  {
    if k == 0 then 1 else 10 * PowerOfTen(k - 1)
  }

  /** A year of five digits or more has a digit where the dash is expected. */
  lemma LongYearUnread(date: Date, secs: int)
    requires date.year >= 10_000
    ensures ReadDate(Text(date, secs)) == None
  {
    assert PowerOfTen(4) == 10_000;
    DecimalOfMore(date.year, 4);
    PaddedDigits(date.year, 4);
    var year := Padded(date.year, 4);
    assert |year| > 4 && IsDigit(year[4]);
    assert Text(date, secs)[4] == year[4];
  }

  lemma LaterInstantUnread(secs: nat)
    requires secs > LAST_SECOND
    ensures ReadTimestamp(CancelTimestamp(secs)) == None
  {
    YearsOfDays(secs / 86_400);
    LongYearUnread(DaysToCivil(secs / 86_400), secs % 86_400);
  }

  /** Parsing a written timestamp recovers the second it was written for, exactly up
      to the end of the year 9999. */
  lemma TimestampReadsBack(secs: nat)
    ensures ReadTimestamp(CancelTimestamp(secs)) == Some(secs) <==> secs <= LAST_SECOND
  {
    if secs <= LAST_SECOND {
      var date := DateOfDay(secs / 86_400);
      InstantReads(secs, date);
    } else {
      LaterInstantUnread(secs);
    }
  }
}
