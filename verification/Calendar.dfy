/**
 * `unix_to_utc`: a division-only Gregorian conversion, proved against a calendar that is
 * advanced one day at a time.
 */
module Calendar {
  import opened Arithmetic

  const TWO32: nat := 0x1_0000_0000
  const TWO64: nat := 0x1_0000_0000_0000_0000
  const SECONDS_PER_DAY: nat := 86_400
  /** Days from 0000-03-01 to 1970-01-01. */
  const EPOCH_DAY: nat := 719_468
  /** Days from 1970-01-01 to the first day of the year 2^32. */
  const DAYS_LIMIT: nat := 1_568_703_873_082
  const SECS_LIMIT: nat := DAYS_LIMIT * SECONDS_PER_DAY

  datatype Date = Date(year: nat, month: int, day: int)

  datatype Utc = Utc(date: Date, hour: nat, min: nat, sec: nat)

  // ---- The calendar, day by day ----

  predicate Leap(year: nat) {
    year % 4 == 0 && (year % 100 != 0 || year % 400 == 0)
  }

  function MonthLength(year: nat, month: int): nat {
    if month == 2 then (if Leap(year) then 29 else 28)
    else if month in {4, 6, 9, 11} then 30
    else 31
  }

  predicate ValidDate(d: Date) {
    d.year >= 1 && 1 <= d.month <= 12 && 1 <= d.day <= MonthLength(d.year, d.month)
  }

  function NextDay(d: Date): Date {
    if d.day < MonthLength(d.year, d.month) then Date(d.year, d.month, d.day + 1)
    else if d.month < 12 then Date(d.year, d.month + 1, 1)
    else Date(d.year + 1, 1, 1)
  }

  /** The date reached from 1970-01-01 by `n` applications of NextDay. */
  function DateAfter(n: nat): Date {
    if n == 0 then Date(1970, 1, 1) else NextDay(DateAfter(n - 1))
  }

  // ---- The conversion ----

  /** The year that starts in March, with the civil month and day, before the source narrows the year. */
  function MarchDate(days: nat): Date {
    var z := days + 719_468;
    var era := z / 146_097;
    var doe := z - era * 146_097;
    DateInEra(era, doe)
  }

  /** Day `doe` of the 400 years of an era. */
  function DateInEra(era: nat, doe: nat): Date {
    var yoe := (doe - doe / 1460 + doe / 36524 - doe / 146_096) / 365;
    var doy := doe - (365 * yoe + yoe / 4 - yoe / 100);
    DateInMarchYear(yoe + era * 400, doy)
  }

  /** Day `doy` of a March year. */
  function DateInMarchYear(y: nat, doy: int): Date {
    var mp := (5 * doy + 2) / 153;
    var day := doy - (153 * mp + 2) / 5 + 1;
    Date(y, if mp < 10 then mp + 3 else mp - 9, day)
  }

  function UnixToUtc(secs: nat): Utc {
    var rem := secs % 86_400;
    var d := MarchDate(secs / 86_400);
    var y := d.year % TWO32;
    var year := (y + if d.month <= 2 then 1 else 0) % TWO32;
    Utc(Date(year, d.month, d.day), rem / 3600, rem % 3600 / 60, rem % 60)
  }

  // ---- Counting days: the explicit inverse ----

  /** Days from 0000-03-01 to the first of March of year `y`. */
  function DaysBeforeMarchYear(y: nat): nat {
    365 * y + y / 4 - y / 100 + y / 400
  }

  function DayOfMarchYear(month: int, day: int): nat
    requires 1 <= month && 1 <= day
  {
    (153 * ((month + 9) % 12) + 2) / 5 + day - 1
  }

  function MarchYear(d: Date): nat
    requires ValidDate(d)
  {
    if d.month <= 2 then d.year - 1 else d.year
  }

  /** Days from 0000-03-01 to `d`. */
  function DayNumber(d: Date): nat
    requires ValidDate(d)
  {
    DaysBeforeMarchYear(MarchYear(d)) + DayOfMarchYear(d.month, d.day)
  }

  lemma MarchYearLength(y: nat)
    ensures DaysBeforeMarchYear(y + 1) == DaysBeforeMarchYear(y) + 365 + if Leap(y + 1) then 1 else 0
  {
    StepsOfDivision(y, 4);
    StepsOfDivision(y, 100);
    StepsOfDivision(y, 400);
    HundredsAreFours(y + 1);
  }

  lemma StepsOfDivision(y: nat, k: nat)
    requires k in {4, 100, 400}
    ensures (y + 1) / k == y / k + if (y + 1) % k == 0 then 1 else 0
  {
  }

  lemma HundredsAreFours(y: nat)
    ensures y % 400 == 0 ==> y % 100 == 0
    ensures y % 100 == 0 ==> y % 4 == 0
  {
    if y % 400 == 0 {
      Quotient(y, 100, 4 * (y / 400), 0);
    }
    if y % 100 == 0 {
      Quotient(y, 4, 25 * (y / 100), 0);
    }
  }

  /** The last day of a month other than February and the first of the next one are neighbours. */
  lemma MonthsFollow(month: int)
    requires 1 <= month <= 12 && month != 2
    ensures
      DayOfMarchYear(if month == 12 then 1 else month + 1, 1)
        == DayOfMarchYear(month, if month in {4, 6, 9, 11} then 30 else 31) + 1
  {
  }

  lemma NextDayIsOneDayLater(d: Date)
    requires ValidDate(d)
    ensures ValidDate(NextDay(d)) && DayNumber(NextDay(d)) == DayNumber(d) + 1
  {
    var next := NextDay(d);
    if d.day < MonthLength(d.year, d.month) {
      assert MarchYear(next) == MarchYear(d);
      assert DayOfMarchYear(d.month, d.day + 1) == DayOfMarchYear(d.month, d.day) + 1;
    } else if d.month == 2 {
      MarchYearLength(d.year - 1);
      assert DayOfMarchYear(3, 1) == 0;
      assert DayOfMarchYear(2, d.day) == 336 + d.day;
    } else {
      MonthsFollow(d.month);
      assert MarchYear(next) == MarchYear(d);
    }
  }

  lemma {:induction false} DateAfterIsValid(n: nat)
    ensures ValidDate(DateAfter(n)) && DayNumber(DateAfter(n)) == EPOCH_DAY + n
  {
    if n > 0 {
      DateAfterIsValid(n - 1);
      NextDayIsOneDayLater(DateAfter(n - 1));
    }
  }

  /**
   * The division that finds the year of the era, on year 100c + 4a + b of it and the day `d`
   * of that year. A year has a day 365 only when the February at its end is a leap one.
   */
  lemma YearOfEra(c: nat, a: nat, b: nat, d: nat)
    requires c < 4 && a < 25 && b < 4 && d <= 365
    requires d == 365 ==> b == 3 && (a != 24 || c == 3)
    ensures
      var doe := 36524 * c + 1461 * a + 365 * b + d;
      doe < 146_097 && (doe - doe / 1460 + doe / 36524 - doe / 146_096) / 365 == 100 * c + 4 * a + b
  {
    var doe := 36524 * c + 1461 * a + 365 * b + d;
    var e1 := (24 * c + a + 365 * b + d) / 1460;
    var e2 := (1461 * a + 365 * b + d) / 36524;
    assert doe / 1460 == 25 * c + a + e1;
    assert doe / 36524 == c + e2;
    assert 0 <= e1 <= 1 && 0 <= e2 <= 1;
    assert 0 <= d - e1 + e2 - doe / 146_096 < 365;
    assert doe - doe / 1460 + doe / 36524 - doe / 146_096
        == 365 * (100 * c + 4 * a + b) + (d - e1 + e2 - doe / 146_096);
  }

  lemma MonthOfMarchYear(month: int, day: int)
    requires 1 <= month <= 12 && 1 <= day <= (if month == 2 then 29 else if month in {4, 6, 9, 11} then 30 else 31)
    ensures
      var doy := DayOfMarchYear(month, day);
      doy <= 365 && (doy == 365 ==> month == 2 && day == 29)
      && forall y :: DateInMarchYear(y, doy) == Date(y, month, day)
  {
    var doy := DayOfMarchYear(month, day);
    var mp := (month + 9) % 12;
    assert 153 * mp <= 5 * doy + 2 < 153 * (mp + 1);
    Quotient(5 * doy + 2, 153, mp, 5 * doy + 2 - 153 * mp);
  }

  lemma EraOfYear(y: nat) returns (e: nat, c: nat, a: nat, b: nat)
    ensures y == 400 * e + 100 * c + 4 * a + b && c < 4 && a < 25 && b < 4
    ensures DaysBeforeMarchYear(y) == 146_097 * e + 36524 * c + 1461 * a + 365 * b
  {
    e := y / 400;
    var inEra := y % 400;
    c := inEra / 100;
    var inCentury := inEra % 100;
    a := inCentury / 4;
    b := inCentury % 4;
    Quotient(y, 4, 100 * e + 25 * c + a, b);
    Quotient(y, 100, 4 * e + c, inCentury);
  }

  lemma LeapOfParts(e: nat, c: nat, a: nat, b: nat)
    requires c < 4 && a < 25 && b < 4 && Leap(400 * e + 100 * c + 4 * a + b + 1)
    ensures b == 3 && (a != 24 || c == 3)
  {
    var y := 400 * e + 100 * c + 4 * a + b + 1;
    if b < 3 {
      Quotient(y, 4, 100 * e + 25 * c + a, b + 1);
    } else if a == 24 && c < 3 {
      Quotient(y, 100, 4 * e + c + 1, 0);
      Quotient(y, 400, e, 100 * (c + 1));
    }
  }

  /** The arithmetic of DateInEra: it finds the year of the era and the day of the year. */
  lemma DateInEraOfParts(e: nat, c: nat, a: nat, b: nat, doy: nat)
    requires c < 4 && a < 25 && b < 4 && doy <= 365
    requires doy == 365 ==> b == 3 && (a != 24 || c == 3)
    ensures DateInEra(e, 36524 * c + 1461 * a + 365 * b + doy) == DateInMarchYear(400 * e + 100 * c + 4 * a + b, doy)
  {
    hide DateInMarchYear;
    YearOfEra(c, a, b, doy);
    var yoe := 100 * c + 4 * a + b;
    Quotient(yoe, 4, 25 * c + a, b);
    Quotient(yoe, 100, c, 4 * a + b);
  }

  /** The conversion undoes the day count on every valid date. */
  lemma MarchDateInvertsDayNumber(d: Date, days: nat)
    requires ValidDate(d) && DayNumber(d) == EPOCH_DAY + days
    ensures MarchDate(days) == Date(MarchYear(d), d.month, d.day)
  {
    hide DateInEra, DaysBeforeMarchYear, DayOfMarchYear;
    var doy := DayOfMarchYear(d.month, d.day);
    MonthOfMarchYear(d.month, d.day);
    var e, c, a, b := EraOfYear(MarchYear(d));
    if doy == 365 {
      LeapOfParts(e, c, a, b);
    }
    DateInEraOfParts(e, c, a, b, doy);
    Quotient(EPOCH_DAY + days, 146_097, e, 36524 * c + 1461 * a + 365 * b + doy);
  }

  // ---- The conversion is the calendar ----

  predicate ValidUtc(u: Utc) {
    ValidDate(u.date) && u.hour < 24 && u.min < 60 && u.sec < 60
  }

  /** Seconds since 1970-01-01 00:00:00 of a date and time not before it. */
  function SecsOf(u: Utc): nat
    requires ValidUtc(u) && u.date.year >= 1970
  {
    DayNumberFromEpoch(u.date);
    (DayNumber(u.date) - EPOCH_DAY) * SECONDS_PER_DAY + u.hour * 3600 + u.min * 60 + u.sec
  }

  lemma DayNumberFromEpoch(d: Date)
    requires ValidDate(d) && d.year >= 1970
    ensures DayNumber(d) >= EPOCH_DAY
  {
    var y := MarchYear(d);
    assert y >= 1969;
    assert y >= 1970 ==> y / 4 - y / 100 + y / 400 >= 477;
  }

  /**
   * For every second count the month, day and time of day are those of the calendar, and the
   * year is the calendar's year modulo 2^32.
   */
  lemma UnixToUtcIsCalendar(secs: nat)
    ensures
      var u, d := UnixToUtc(secs), DateAfter(secs / SECONDS_PER_DAY);
      && u.date == Date(d.year % TWO32, d.month, d.day)
      && u.hour < 24 && u.min < 60 && u.sec < 60
      && u.hour * 3600 + u.min * 60 + u.sec == secs % SECONDS_PER_DAY
  {
    hide MarchDate, DayNumber;
    var days := secs / 86_400;
    DateAfterIsValid(days);
    MarchDateInvertsDayNumber(DateAfter(days), days);
    var rem := secs % 86_400;
    assert rem == rem / 3600 * 3600 + rem % 3600;
  }

  predicate DateLess(a: Date, b: Date) {
    a.year < b.year || (a.year == b.year && (a.month < b.month || (a.month == b.month && a.day < b.day)))
  }

  predicate UtcLess(a: Utc, b: Utc) {
    DateLess(a.date, b.date)
    || (a.date == b.date && a.hour * 3600 + a.min * 60 + a.sec < b.hour * 3600 + b.min * 60 + b.sec)
  }

  lemma {:induction false} DatesIncrease(m: nat, n: nat)
    requires m < n
    ensures DateLess(DateAfter(m), DateAfter(n))
  {
    DateAfterIsValid(n - 1);
    if m < n - 1 {
      DatesIncrease(m, n - 1);
    }
  }

  /** DAYS_LIMIT is where the year reaches 2^32. */
  lemma YearFitsIffBelowLimit(n: nat)
    ensures DateAfter(n).year < TWO32 <==> n < DAYS_LIMIT
  {
    var first := Date(TWO32, 1, 1);
    assert DayNumber(first) == EPOCH_DAY + DAYS_LIMIT;
    DateAfterIsValid(DAYS_LIMIT);
    MarchDateInvertsDayNumber(first, DAYS_LIMIT);
    MarchDateInvertsDayNumber(DateAfter(DAYS_LIMIT), DAYS_LIMIT);
    assert DateAfter(DAYS_LIMIT).year == TWO32;
    if n < DAYS_LIMIT {
      DatesIncrease(n, DAYS_LIMIT);
      assert DateAfter(n).month >= 1 && DateAfter(n).day >= 1 by { DateAfterIsValid(n); }
    } else if n > DAYS_LIMIT {
      DatesIncrease(DAYS_LIMIT, n);
    }
  }

  /** The conversion gives the calendar's date exactly below SECS_LIMIT. */
  lemma ExactIffBelowLimit(secs: nat)
    ensures UnixToUtc(secs).date == DateAfter(secs / SECONDS_PER_DAY) <==> secs < SECS_LIMIT
  {
    hide UnixToUtc;
    UnixToUtcIsCalendar(secs);
    YearFitsIffBelowLimit(secs / SECONDS_PER_DAY);
  }

  lemma SecsOfBelowLimit(secs: nat)
    requires secs < SECS_LIMIT
    ensures ValidUtc(UnixToUtc(secs)) && UnixToUtc(secs).date.year >= 1970 && SecsOf(UnixToUtc(secs)) == secs
  {
    hide UnixToUtc, DayNumber, MonthLength;
    var days := secs / SECONDS_PER_DAY;
    UnixToUtcIsCalendar(secs);
    YearFitsIffBelowLimit(days);
    DateAfterIsValid(days);
    if days > 0 {
      DatesIncrease(0, days);
    }
  }

  /** Every valid date and time from 1970 on whose year fits 32 bits is produced, by its SecsOf. */
  lemma UnixToUtcOfSecsOf(u: Utc)
    requires ValidUtc(u) && 1970 <= u.date.year < TWO32
    ensures SecsOf(u) < SECS_LIMIT && UnixToUtc(SecsOf(u)) == u
  {
    hide MarchDate, DaysBeforeMarchYear, DayOfMarchYear;
    DayNumberFromEpoch(u.date);
    var days := DayNumber(u.date) - EPOCH_DAY;
    var rem := u.hour * 3600 + u.min * 60 + u.sec;
    Quotient(SecsOf(u), 86_400, days, rem);
    Quotient(rem, 3600, u.hour, u.min * 60 + u.sec);
    Quotient(rem, 60, u.hour * 60 + u.min, u.sec);
    DateAfterIsValid(days);
    MarchDateInvertsDayNumber(u.date, days);
    MarchDateInvertsDayNumber(DateAfter(days), days);
    assert DateAfter(days) == u.date;
    YearFitsIffBelowLimit(days);
  }

  /** The conversion gives a valid date and time from 1970 on, and SecsOf undoes it, exactly below the limit. */
  lemma SecsOfUnixToUtc(secs: nat)
    ensures
      var u := UnixToUtc(secs);
      (ValidUtc(u) && u.date.year >= 1970 && SecsOf(u) == secs) <==> secs < SECS_LIMIT
  {
    hide UnixToUtc, SecsOf, ValidUtc;
    var u := UnixToUtc(secs);
    UnixToUtcIsCalendar(secs);
    if secs < SECS_LIMIT {
      SecsOfBelowLimit(secs);
    } else if ValidUtc(u) && u.date.year >= 1970 {
      UnixToUtcOfSecsOf(u);
    }
  }

  lemma UnixToUtcIncreases(s: nat, t: nat)
    requires s < t < SECS_LIMIT
    ensures UtcLess(UnixToUtc(s), UnixToUtc(t))
  {
    hide UnixToUtc;
    UnixToUtcIsCalendar(s);
    UnixToUtcIsCalendar(t);
    YearFitsIffBelowLimit(s / SECONDS_PER_DAY);
    YearFitsIffBelowLimit(t / SECONDS_PER_DAY);
    if s / SECONDS_PER_DAY < t / SECONDS_PER_DAY {
      DatesIncrease(s / SECONDS_PER_DAY, t / SECONDS_PER_DAY);
    }
  }

  /** Beyond the limit, but within 64 bits, two different seconds get the same date and time. */
  lemma UnixToUtcRepeats()
    ensures
      var later := 0x1000_0000 * 146_097 * SECONDS_PER_DAY;
      SECS_LIMIT < later < TWO64 && UnixToUtc(later) == UnixToUtc(0) == Utc(Date(1970, 1, 1), 0, 0, 0)
  {
    hide MarchDate;
    var later := 0x1000_0000 * 146_097 * SECONDS_PER_DAY;
    var d := Date(1970 + 0x1000_0000 * 400, 1, 1);
    assert DayNumber(d) == EPOCH_DAY + 0x1000_0000 * 146_097;
    MarchDateInvertsDayNumber(d, later / 86_400);
    MarchDateInvertsDayNumber(Date(1970, 1, 1), 0);
  }
}
