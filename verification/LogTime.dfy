/** The access log's time stamp, and a reader that recovers the second it was printed for. */
module LogTime {
  import opened Wrappers
  import opened Arithmetic
  import opened Decimal
  import opened Calendar

  const MONTHS: seq<string> :=
    ["Jan", "Feb", "Mar", "Apr", "May", "Jun", "Jul", "Aug", "Sep", "Oct", "Nov", "Dec"]

  /** Conversion of every second count has a month that MONTHS has a name for. */
  lemma MonthInRange(secs: nat)
    ensures 1 <= UnixToUtc(secs).date.month <= 12 && 1 <= UnixToUtc(secs).date.day <= 31
  {
    hide UnixToUtc;
    UnixToUtcIsCalendar(secs);
    DateAfterIsValid(secs / SECONDS_PER_DAY);
  }

  function StampOf(u: Utc): string
    requires 1 <= u.date.month <= 12 && 1 <= u.date.day
  {
    "[" + TwoDigits(u.date.day) + "/" + MONTHS[u.date.month - 1] + "/" + Digits(u.date.year)
    + ":" + TwoDigits(u.hour) + ":" + TwoDigits(u.min) + ":" + TwoDigits(u.sec) + " +0000]"
  }

  /** `format_log_time` on a whole number of seconds since 1970. */
  function FormatLogTime(secs: nat): string {
    MonthInRange(secs);
    StampOf(UnixToUtc(secs))
  }

  function ReadNumber(s: string): Option<nat> {
    if s != [] && AllDigits(s) then Some(Value(s)) else None
  }

  function IndexOfMonth(name: string, from: nat): nat
    requires 1 <= from <= 13
    decreases 13 - from
  {
    if from == 13 || MONTHS[from - 1] == name then from else IndexOfMonth(name, from + 1)
  }

  /** Reads a stamp: fixed columns around a year of any width. */
  function ReadStamp(s: string): Option<Utc> {
    if |s| < 25 then None else
    var y := |s| - 16;
    match (ReadNumber(s[1..3]), ReadNumber(s[8..y]), ReadNumber(s[y + 1..y + 3]),
           ReadNumber(s[y + 4..y + 6]), ReadNumber(s[y + 7..y + 9]))
    case (Some(day), Some(year), Some(hour), Some(min), Some(sec)) =>
      Some(Utc(Date(year, IndexOfMonth(s[4..7], 1), day), hour, min, sec))
    case _ => None
  }

  function ReadLogTime(s: string): Option<nat> {
    match ReadStamp(s)
    case Some(u) => if ValidUtc(u) && u.date.year >= 1970 then Some(SecsOf(u)) else None
    case None => None
  }

  lemma MonthNames(m: nat)
    requires 1 <= m <= 12
    ensures |MONTHS[m - 1]| == 3 && IndexOfMonth(MONTHS[m - 1], 1) == m
  {
    MonthNameFoundFrom(m, 1);
  }

  lemma {:induction false} MonthNameFoundFrom(m: nat, from: nat)
    requires 1 <= from <= m <= 12
    ensures IndexOfMonth(MONTHS[m - 1], from) == m
    decreases m - from
  {
    if from < m {
      assert MONTHS[from - 1] != MONTHS[m - 1] by { MonthNamesDiffer(from, m); }
      MonthNameFoundFrom(m, from + 1);
    }
  }

  lemma MonthNamesDiffer(k: nat, m: nat)
    requires 1 <= k < m <= 12
    ensures MONTHS[k - 1] != MONTHS[m - 1]
  {
    var a, b := MONTHS[k - 1], MONTHS[m - 1];
    assert a[0] != b[0] || a[1] != b[1] || a[2] != b[2];
  }

  /** Reading a printed stamp gives back what was printed. */
  lemma ReadPrintedStamp(u: Utc)
    requires 1 <= u.date.month <= 12 && 1 <= u.date.day < 100 && u.hour < 100 && u.min < 100 && u.sec < 100
    ensures ReadStamp(StampOf(u)) == Some(u)
  {
    hide TwoDigits, Digits, Value, AllDigits;
    var s := StampOf(u);
    var d, m, y := TwoDigits(u.date.day), MONTHS[u.date.month - 1], Digits(u.date.year);
    var h, mi, se := TwoDigits(u.hour), TwoDigits(u.min), TwoDigits(u.sec);
    TwoDigitsDenote(u.date.day);
    DigitsDenote(u.date.year);
    TwoDigitsDenote(u.hour);
    TwoDigitsDenote(u.min);
    TwoDigitsDenote(u.sec);
    MonthNames(u.date.month);
    var n := |y|;
    assert |s| == 24 + n;
    assert s[1..3] == d;
    assert s[4..7] == m;
    assert s[8..8 + n] == y;
    assert s[9 + n..11 + n] == h;
    assert s[12 + n..14 + n] == mi;
    assert s[15 + n..17 + n] == se;
  }

  /** The three letters of a month. */
  function MonthLetters(m: int): string
    requires 1 <= m <= 12
  {
    match m
    case 1 => "Jan" case 2 => "Feb" case 3 => "Mar" case 4 => "Apr"
    case 5 => "May" case 6 => "Jun" case 7 => "Jul" case 8 => "Aug"
    case 9 => "Sep" case 10 => "Oct" case 11 => "Nov" case _ => "Dec"
  }

  lemma MonthSpelled(m: nat)
    requires 1 <= m <= 12
    ensures MONTHS[m - 1] == MonthLetters(m)
  {
  }

  predicate IsTwoDigits(s: string, n: int) {
    |s| == 2 && AllDigits(s) && Value(s) == n
  }

  /** The text of a stamp: day, month and year of the calendar, the year modulo 2^32, and the time of day. */
  lemma StampText(secs: nat) returns (day: string, hour: string, min: string, sec: string)
    ensures
      var d := DateAfter(secs / SECONDS_PER_DAY);
      && 1 <= d.month <= 12 && IsTwoDigits(day, d.day)
      && IsTwoDigits(hour, secs / 3600 % 24) && IsTwoDigits(min, secs / 60 % 60) && IsTwoDigits(sec, secs % 60)
      && FormatLogTime(secs) == "[" + day + "/" + MonthLetters(d.month) + "/" + Digits(d.year % 4_294_967_296)
                                + ":" + hour + ":" + min + ":" + sec + " +0000]"
  {
    hide UnixToUtc, TwoDigits, Digits, Value, AllDigits, MonthLetters, DateAfter;
    var u := UnixToUtc(secs);
    UnixToUtcIsCalendar(secs);
    MonthInRange(secs);
    TimeOfDay(secs, u.hour, u.min, u.sec);
    MonthSpelled(u.date.month);
    TwoDigitsDenote(u.date.day);
    TwoDigitsDenote(u.hour);
    TwoDigitsDenote(u.min);
    TwoDigitsDenote(u.sec);
    day, hour, min, sec := TwoDigits(u.date.day), TwoDigits(u.hour), TwoDigits(u.min), TwoDigits(u.sec);
  }

  lemma TimeOfDay(secs: nat, hour: nat, min: nat, sec: nat)
    requires hour < 24 && min < 60 && sec < 60 && hour * 3600 + min * 60 + sec == secs % 86_400
    ensures hour == secs / 3600 % 24 && min == secs / 60 % 60 && sec == secs % 60
  {
    var days := secs / 86_400;
    assert secs == days * 86_400 + hour * 3600 + min * 60 + sec;
    Quotient(secs, 3600, days * 24 + hour, min * 60 + sec);
    Quotient(secs, 60, days * 1440 + hour * 60 + min, sec);
    Quotient(days * 24 + hour, 24, days, hour);
    Quotient(days * 1440 + hour * 60 + min, 60, days * 24 + hour, min);
  }

  /** The stamp gives the second back exactly below the limit of Calendar. */
  lemma ReadPrintedLogTime(secs: nat)
    ensures ReadLogTime(FormatLogTime(secs)) == Some(secs) <==> secs < SECS_LIMIT
  {
    hide UnixToUtc, SecsOf, StampOf, ReadStamp;
    MonthInRange(secs);
    UnixToUtcIsCalendar(secs);
    SecsOfUnixToUtc(secs);
    ReadPrintedStamp(UnixToUtc(secs));
  }

  /**
   * Two seconds print alike exactly when they have the same time of day, month and day of the
   * month, and years that are the same modulo 2^32; below the limit only equal seconds do.
   */
  lemma EqualStampsIff(s: nat, t: nat)
    ensures
      var c, d := DateAfter(s / SECONDS_PER_DAY), DateAfter(t / SECONDS_PER_DAY);
      FormatLogTime(s) == FormatLogTime(t) <==>
      s % SECONDS_PER_DAY == t % SECONDS_PER_DAY && c.month == d.month && c.day == d.day && c.year % TWO32 == d.year % TWO32
    ensures s < SECS_LIMIT && t < SECS_LIMIT ==> (FormatLogTime(s) == FormatLogTime(t) <==> s == t)
  {
    hide UnixToUtc, StampOf, ReadStamp, DateAfter, ReadLogTime;
    MonthInRange(s);
    MonthInRange(t);
    UnixToUtcIsCalendar(s);
    UnixToUtcIsCalendar(t);
    ReadPrintedStamp(UnixToUtc(s));
    ReadPrintedStamp(UnixToUtc(t));
    ReadPrintedLogTime(s);
    ReadPrintedLogTime(t);
  }

  /** Beyond the limit two different seconds, both within 64 bits, print alike. */
  lemma FormatLogTimeRepeats()
    ensures
      var later := 0x1000_0000 * 146_097 * SECONDS_PER_DAY;
      0 < later < TWO64 && FormatLogTime(later) == FormatLogTime(0)
  {
    hide UnixToUtc, StampOf;
    UnixToUtcRepeats();
  }
}
