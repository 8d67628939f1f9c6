/**
 * Timestamps without an offset (chrono's `NaiveDateTime`), at second
 * precision, and the two textual forms the journey data uses: the RFC 3339
 * `full-date "T" partial-time` form and the bare `full-date` form (section 5.6
 * of RFC 3339), the latter standing for midnight of that day.
 */
module Timestamps {
  import opened Wrappers
  import opened Digits

  datatype Timestamp = Timestamp(year: nat, month: nat, day: nat, hour: nat, minute: nat, second: nat)

  predicate IsLeapYear(y: nat) {
    y % 4 == 0 && (y % 100 != 0 || y % 400 == 0)
  }

  function DaysInMonth(y: nat, m: nat): nat
    requires 1 <= m <= 12
  {
    if m == 2 then (if IsLeapYear(y) then 29 else 28)
    else if m == 4 || m == 6 || m == 9 || m == 11 then 30
    else 31
  }

  /** A calendar date whose year fits the four-digit `date-fullyear` of RFC 3339. */
  predicate ValidDate(y: nat, m: nat, d: nat) {
    y <= 9999 && 1 <= m <= 12 && 1 <= d <= DaysInMonth(y, m)
  }

  /** A time of day without leap seconds. */
  predicate ValidTime(h: nat, mi: nat, s: nat) {
    h <= 23 && mi <= 59 && s <= 59
  }

  predicate Valid(t: Timestamp) {
    ValidDate(t.year, t.month, t.day) && ValidTime(t.hour, t.minute, t.second)
  }

  predicate IsMidnight(t: Timestamp) {
    t.hour == 0 && t.minute == 0 && t.second == 0
  }

  /** Strict chronological order: lexicographic on (year, month, day, hour, minute, second). */
  predicate Before(a: Timestamp, b: Timestamp) {
    || a.year < b.year
    || (a.year == b.year && a.month < b.month)
    || (a.year == b.year && a.month == b.month && a.day < b.day)
    || (a.year == b.year && a.month == b.month && a.day == b.day && a.hour < b.hour)
    || (a.year == b.year && a.month == b.month && a.day == b.day && a.hour == b.hour && a.minute < b.minute)
    || (a.year == b.year && a.month == b.month && a.day == b.day && a.hour == b.hour && a.minute == b.minute
        && a.second < b.second)
  }

  /** `Before` is a strict total order, so "not before" means "at the same instant or later". */
  lemma BeforeIsStrictTotalOrder(a: Timestamp, b: Timestamp, c: Timestamp)
    ensures !Before(a, a)
    ensures Before(a, b) && Before(b, c) ==> Before(a, c)
    ensures a == b || Before(a, b) || Before(b, a)
    ensures !(Before(a, b) && Before(b, a))
  {
  }

  // ---------------------------------------------------------------------------
  // Writing timestamps

  /** `YYYY-MM-DD` */
  function FormatDate(t: Timestamp): (s: string)
    ensures |s| == 10
  {
    Pad(t.year, 4) + "-" + Pad(t.month, 2) + "-" + Pad(t.day, 2)
  }

  /** `hh:mm:ss` */
  function FormatTime(t: Timestamp): (s: string)
    ensures |s| == 8
  {
    Pad(t.hour, 2) + ":" + Pad(t.minute, 2) + ":" + Pad(t.second, 2)
  }

  /** `YYYY-MM-DDThh:mm:ss` */
  function FormatDateTime(t: Timestamp): (s: string)
    ensures |s| == 19
  {
    FormatDate(t) + "T" + FormatTime(t)
  }

  // ---------------------------------------------------------------------------
  // Reading timestamps

  /** `full-date`, read as midnight of that day; `None` unless it is a real calendar date. */
  function ParseDate(s: string): (r: Option<Timestamp>)
    ensures r.Some? ==> Valid(r.value) && IsMidnight(r.value)
  {
    if |s| == 10 && s[4] == '-' && s[7] == '-' && AllDigits(s[..4]) && AllDigits(s[5..7]) && AllDigits(s[8..]) then
      var t := Timestamp(DigitsValue(s[..4]), DigitsValue(s[5..7]), DigitsValue(s[8..]), 0, 0, 0);
      if ValidDate(t.year, t.month, t.day) then Some(t) else None
    else
      None
  }

  /** `partial-time` without fraction: hour, minute and second. */
  function ParseTime(s: string): (r: Option<(nat, nat, nat)>)
    ensures r.Some? ==> ValidTime(r.value.0, r.value.1, r.value.2)
  {
    if |s| == 8 && s[2] == ':' && s[5] == ':' && AllDigits(s[..2]) && AllDigits(s[3..5]) && AllDigits(s[6..]) then
      var (h, mi, sec) := (DigitsValue(s[..2]), DigitsValue(s[3..5]), DigitsValue(s[6..]));
      if ValidTime(h, mi, sec) then Some((h, mi, sec)) else None
    else
      None
  }

  /** `full-date "T" partial-time` */
  function ParseDateTime(s: string): (r: Option<Timestamp>)
    ensures r.Some? ==> Valid(r.value)
  {
    if |s| == 19 && s[10] == 'T' then
      match (ParseDate(s[..10]), ParseTime(s[11..]))
      case (Some(d), Some((h, mi, sec))) => Some(d.(hour := h, minute := mi, second := sec))
      case _ => None
    else
      None
  }

  /**
   * A full date-time, or failing that a bare date completed to midnight
   * (`NaiveTime::default()`); anything else is rejected.
   */
  function ParseNaiveDateTime(s: string): (r: Option<Timestamp>)
    ensures r.Some? ==> Valid(r.value)
  {
    match ParseDateTime(s)
    case Some(t) => Some(t)
    case None => ParseDate(s)
  }

  // ---------------------------------------------------------------------------
  // Round trips

  lemma {:induction false} ParseFormattedDate(t: Timestamp)
    requires ValidDate(t.year, t.month, t.day)
    ensures ParseDate(FormatDate(t)) == Some(Timestamp(t.year, t.month, t.day, 0, 0, 0))
  {
    var s := FormatDate(t);
    assert s[..4] == Pad(t.year, 4);
    assert s[5..7] == Pad(t.month, 2);
    assert s[8..] == Pad(t.day, 2);
    DigitsValueOfPad(t.year, 4);
    DigitsValueOfPad(t.month, 2);
    DigitsValueOfPad(t.day, 2);
  }

  lemma {:induction false} ParseFormattedTime(t: Timestamp)
    requires ValidTime(t.hour, t.minute, t.second)
    ensures ParseTime(FormatTime(t)) == Some((t.hour, t.minute, t.second))
  {
    var s := FormatTime(t);
    assert s[..2] == Pad(t.hour, 2);
    assert s[3..5] == Pad(t.minute, 2);
    assert s[6..] == Pad(t.second, 2);
    DigitsValueOfPad(t.hour, 2);
    DigitsValueOfPad(t.minute, 2);
    DigitsValueOfPad(t.second, 2);
  }

  lemma {:induction false} ParsedDateIsFormatted(s: string)
    requires ParseDate(s).Some?
    ensures s == FormatDate(ParseDate(s).value)
  {
    var t := ParseDate(s).value;
    PadOfDigitsValue(s[..4]);
    PadOfDigitsValue(s[5..7]);
    PadOfDigitsValue(s[8..]);
    assert s == s[..4] + "-" + s[5..7] + "-" + s[8..];
  }

  lemma {:induction false} ParsedTimeIsFormatted(s: string, t: Timestamp)
    requires ParseTime(s) == Some((t.hour, t.minute, t.second))
    ensures s == FormatTime(t)
  {
    PadOfDigitsValue(s[..2]);
    PadOfDigitsValue(s[3..5]);
    PadOfDigitsValue(s[6..]);
    assert s == s[..2] + ":" + s[3..5] + ":" + s[6..];
  }

  /** A full date-time reads back as exactly the instant it was written from. */
  lemma {:induction false} ParseFormattedDateTime(t: Timestamp)
    requires Valid(t)
    ensures ParseNaiveDateTime(FormatDateTime(t)) == Some(t)
  {
    var s := FormatDateTime(t);
    assert s[..10] == FormatDate(t);
    assert s[11..] == FormatTime(t);
    ParseFormattedDate(t);
    ParseFormattedTime(t);
  }

  /** A bare date reads back as midnight of that date. */
  lemma {:induction false} ParseFormattedDateOnly(t: Timestamp)
    requires ValidDate(t.year, t.month, t.day)
    ensures ParseNaiveDateTime(FormatDate(t)) == Some(Timestamp(t.year, t.month, t.day, 0, 0, 0))
  {
    ParseFormattedDate(t);
  }

  /** Every accepted string is one of the two written forms of what it was read as. */
  lemma {:induction false} ParsedIsFormatted(s: string)
    requires ParseNaiveDateTime(s).Some?
    ensures var t := ParseNaiveDateTime(s).value;
            s == FormatDateTime(t) || (IsMidnight(t) && s == FormatDate(t))
  {
    var t := ParseNaiveDateTime(s).value;
    if ParseDateTime(s).Some? {
      ParsedDateIsFormatted(s[..10]);
      ParsedTimeIsFormatted(s[11..], t);
      assert s == s[..10] + "T" + s[11..];
    } else {
      ParsedDateIsFormatted(s);
    }
  }

  /**
   * What `parse_naive_date_time` accepts, both directions: a string reads as
   * `t` exactly when `t` is a real instant and the string is its full
   * date-time form, or `t` is a midnight and the string is its bare date.
   */
  lemma ParseNaiveDateTimeExactly(s: string, t: Timestamp)
    ensures ParseNaiveDateTime(s) == Some(t)
        <==> Valid(t) && (s == FormatDateTime(t) || (IsMidnight(t) && s == FormatDate(t)))
  {
    if ParseNaiveDateTime(s) == Some(t) {
      ParsedIsFormatted(s);
    }
    if Valid(t) && s == FormatDateTime(t) {
      ParseFormattedDateTime(t);
    }
    if Valid(t) && IsMidnight(t) && s == FormatDate(t) {
      ParseFormattedDateOnly(t);
    }
  }

  /** The date-only example of the integration tests: 2021-05-31 is read as 2021-05-31T00:00:00. */
  lemma DateOnlyExample()
    ensures ParseNaiveDateTime("2021-05-31") == Some(Timestamp(2021, 5, 31, 0, 0, 0))
  {
    var t := Timestamp(2021, 5, 31, 0, 0, 0);
    FormatDateExample();
    ParseFormattedDateOnly(t);
  }

  lemma FormatDateExample()
    ensures FormatDate(Timestamp(2021, 5, 31, 0, 0, 0)) == "2021-05-31"
  {
    Year2021();
    assert Pad(5, 2) == "05" && Pad(31, 2) == "31";
  }

  /** The departure of the tests' first row, written out. */
  lemma DepartureExampleFormatted()
    ensures FormatDateTime(Timestamp(2021, 5, 31, 23, 57, 25)) == "2021-05-31T23:57:25"
  {
    FormatDateExample();
    DepartureTimeExample();
  }

  lemma DepartureTimeExample()
    ensures FormatTime(Timestamp(2021, 5, 31, 23, 57, 25)) == "23:57:25"
  {
    assert Pad(23, 2) == "23" && Pad(57, 2) == "57" && Pad(25, 2) == "25";
  }

  /** The return of the tests' first row, written out. */
  lemma ReturnExampleFormatted()
    ensures FormatDateTime(Timestamp(2021, 6, 1, 0, 5, 46)) == "2021-06-01T00:05:46"
  {
    ReturnDateExample();
    ReturnTimeExample();
  }

  lemma ReturnDateExample()
    ensures FormatDate(Timestamp(2021, 6, 1, 0, 5, 46)) == "2021-06-01"
  {
    Year2021();
    assert Pad(6, 2) == "06" && Pad(1, 2) == "01";
  }

  lemma ReturnTimeExample()
    ensures FormatTime(Timestamp(2021, 6, 1, 0, 5, 46)) == "00:05:46"
  {
    assert Pad(0, 2) == "00" && Pad(5, 2) == "05" && Pad(46, 2) == "46";
  }

  lemma Year2021()
    ensures Pad(2021, 4) == "2021"
  {
    assert Pad(2, 1) == "2" && Pad(20, 2) == "20" && Pad(202, 3) == "202";
  }

  /** A date that does not exist is rejected: 2021 is not a leap year. */
  lemma NonexistentDateExample()
    ensures ParseNaiveDateTime("2021-02-29") == None
  {
    var s := "2021-02-29";
    assert |s| == 10;
    assert ParseDateTime(s) == None;
    LeapDayFields();
    assert !ValidDate(2021, 2, 29);
  }

  /** The three fields of "2021-02-29" are digits reading 2021, 2 and 29. */
  lemma LeapDayFields()
    ensures var s := "2021-02-29";
      && s[4] == '-' && s[7] == '-'
      && AllDigits(s[..4]) && AllDigits(s[5..7]) && AllDigits(s[8..])
      && DigitsValue(s[..4]) == 2021 && DigitsValue(s[5..7]) == 2 && DigitsValue(s[8..]) == 29
  {
    var s := "2021-02-29";
    Year2021();
    assert s[..4] == Pad(2021, 4);
    assert s[5..7] == Pad(2, 2);
    assert s[8..] == Pad(29, 2);
    DigitsValueOfPad(2021, 4);
    DigitsValueOfPad(2, 2);
    DigitsValueOfPad(29, 2);
  }

  /** Other shapes are rejected: a space for the `T`, an offset, an empty field. */
  lemma MalformedExamples()
    ensures ParseNaiveDateTime("2021-05-31 23:57:25") == None
    ensures ParseNaiveDateTime("2021-05-31T23:57:25Z") == None
    ensures ParseNaiveDateTime("") == None
  {
  }
}
