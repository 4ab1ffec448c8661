/** The ISO 8601 extended calendar-date text of a date, as
    LocalDate.format(DateTimeFormatter.ISO_DATE) writes it (ISO 8601:2004
    section 4.1.2.2, with the expanded-year form of section 4.1.2.4 beyond
    9999 and before year 0), and the parse back. */
module IsoDate {
  import opened Wrappers
  import opened Gregorian
  import opened Decimal

  /** The year field: at least four digits, a '+' only when the year needs
      more than four, a '-' for every negative year. */
  function YearText(y: int): (s: string)
  {
    if y > 9999 then "+" + Digits(y)
    else if y < 0 then "-" + ZeroPad(Digits(-y), 4)
    else ZeroPad(Digits(y), 4)
  }

  function TwoDigits(v: int): (s: string)
    requires 0 <= v < 100
    ensures |s| == 2 && AllDigits(s) && Value(s) == v
  {
    PaddedDigits(v, 2);
    DigitsLength(v, 2);
    ZeroPad(Digits(v), 2)
  }

  /** YYYY-MM-DD, with month and day zero-padded to two digits: the text
      ends with '-', the month's two digits, '-' and the day's two digits. */
  function FormatIsoDate(d: Date): (s: string)
    requires Valid(d)
    ensures |s| > 6 && s[|s| - 6] == '-' && s[|s| - 3] == '-'
    ensures AllDigits(s[|s| - 5..|s| - 3]) && Value(s[|s| - 5..|s| - 3]) == d.month
    ensures AllDigits(s[|s| - 2..]) && Value(s[|s| - 2..]) == d.day
  {
    var year, mm, dd := YearText(d.year), TwoDigits(d.month), TwoDigits(d.day);
    var s := year + "-" + mm + "-" + dd;
    assert s[|s| - 5..|s| - 3] == mm && s[|s| - 2..] == dd;
    s
  }

  /** Years 0..9999 give the ten-character form YYYY-MM-DD. */
  lemma FormatIsoDateFourDigitYear(d: Date)
    requires Valid(d) && 0 <= d.year <= 9999
    ensures |FormatIsoDate(d)| == 10
    ensures AllDigits(FormatIsoDate(d)[..4]) && Value(FormatIsoDate(d)[..4]) == d.year
    ensures FormatIsoDate(d)[4] == '-' && FormatIsoDate(d)[7] == '-'
    ensures Value(FormatIsoDate(d)[5..7]) == d.month && Value(FormatIsoDate(d)[8..10]) == d.day
  {
    PaddedDigits(d.year, 4);
    DigitsLength(d.year, 4);
    DashedFields(YearText(d.year), TwoDigits(d.month), TwoDigits(d.day));
  }

  /** Where each field sits in year-mm-dd when the year takes four characters. */
  lemma DashedFields(year: string, mm: string, dd: string)
    requires |year| == 4 && |mm| == 2 && |dd| == 2
    ensures var s := year + "-" + mm + "-" + dd;
      |s| == 10 && s[..4] == year && s[4] == '-' && s[5..7] == mm && s[7] == '-' && s[8..10] == dd
  {
    var s := year + "-" + mm + "-" + dd;
    assert s[..4] == year;
    assert s[5..7] == mm;
    assert s[8..10] == dd;
  }

  /** Reads an optional sign and one or more digits at the start of s.
      Gives the year and the number of characters read. */
  function ParseYearPrefix(s: string): (r: Option<(int, nat)>)
    ensures r.Some? ==> 1 <= r.value.1 <= |s|
  {
    var signLen := if |s| > 0 && (s[0] == '+' || s[0] == '-') then 1 else 0;
    var run := s[signLen..];
    var k := LeadingDigits(run);
    if k == 0 then None
    else
      var magnitude := Value(run[..k]);
      Some((if signLen == 1 && s[0] == '-' then -(magnitude as int) else magnitude, signLen + k))
  }

  /** Reads an ISO date at the start of s: the year, then -MM-DD. Gives the
      date and the number of characters read. */
  function ParseIsoDatePrefix(s: string): (r: Option<(Date, nat)>)
    ensures r.Some? ==> Valid(r.value.0) && r.value.1 <= |s|
  {
    match ParseYearPrefix(s)
    case None => None
    case Some((year, e)) =>
      if |s| < e + 6 || s[e] != '-' || !AllDigits(s[e + 1..e + 3]) || s[e + 3] != '-' || !AllDigits(s[e + 4..e + 6]) then None
      else
        var d := Date(year, Value(s[e + 1..e + 3]), Value(s[e + 4..e + 6]));
        if Valid(d) then Some((d, e + 6)) else None
  }

  /** Reads a whole string as an ISO date. */
  function ParseIsoDate(s: string): (r: Option<Date>)
    ensures r.Some? ==> Valid(r.value)
  {
    match ParseIsoDatePrefix(s)
    case Some((d, n)) => if n == |s| then Some(d) else None
    case None => None
  }

  /** A digit run that starts at position signLen of s and is followed by a
      non-digit is read exactly to its end. */
  lemma DigitRunAt(s: string, signLen: nat, digits: string, tail: string)
    requires signLen <= |s| && s[signLen..] == digits + tail
    requires AllDigits(digits) && |tail| > 0 && !IsDigit(tail[0])
    ensures LeadingDigits(s[signLen..]) == |digits|
    ensures s[signLen..][..|digits|] == digits
  {
    LeadingDigitsOfRun(digits, tail);
  }

  /** A sign and a digit run followed by a non-digit are read back exactly. */
  lemma SignedYearPrefix(s: string, negative: bool, digits: string, tail: string)
    requires |s| > 0 && s[0] == (if negative then '-' else '+') && s[1..] == digits + tail
    requires |digits| > 0 && AllDigits(digits) && |tail| > 0 && !IsDigit(tail[0])
    ensures ParseYearPrefix(s) == Some((if negative then -(Value(digits) as int) else Value(digits), 1 + |digits|))
  {
    DigitRunAt(s, 1, digits, tail);
    var r := ParseYearPrefix(s);
    assert r.Some? && r.value.1 == 1 + |digits|;
    assert r.value.0 == if negative then -(Value(digits) as int) else Value(digits);
  }

  /** A digit run followed by a non-digit is read back exactly. */
  lemma UnsignedYearPrefix(s: string, digits: string, tail: string)
    requires s == digits + tail
    requires |digits| > 0 && AllDigits(digits) && |tail| > 0 && !IsDigit(tail[0])
    ensures ParseYearPrefix(s) == Some((Value(digits) as int, |digits|))
  {
    assert IsDigit(s[0]);
    DigitRunAt(s, 0, digits, tail);
  }

  /** The year field is a sign (none for years 0..9999) and a run of digits
      that denotes the year's magnitude. */
  lemma YearTextParts(y: int) returns (sign: string, digits: string)
    ensures YearText(y) == sign + digits
    ensures sign == if y < 0 then "-" else if y > 9999 then "+" else ""
    ensures |digits| > 0 && AllDigits(digits) && Value(digits) == Abs(y)
  {
    if y > 9999 {
      sign, digits := "+", Digits(y);
      ValueOfDigits(y);
    } else if y < 0 {
      sign, digits := "-", ZeroPad(Digits(-y), 4);
      PaddedDigits(-y, 4);
    } else {
      sign, digits := "", ZeroPad(Digits(y), 4);
      PaddedDigits(y, 4);
    }
  }

  lemma SignedYearRoundTrip(y: int, tail: string)
    requires |tail| > 0 && !IsDigit(tail[0]) && (y < 0 || y > 9999)
    ensures ParseYearPrefix(YearText(y) + tail) == Some((y, |YearText(y)|))
  {
    var sign, digits := YearTextParts(y);
    var s := YearText(y) + tail;
    assert s == sign + (digits + tail);
    SignedYearPrefix(s, y < 0, digits, tail);
  }

  lemma UnsignedYearRoundTrip(y: int, tail: string)
    requires |tail| > 0 && !IsDigit(tail[0]) && 0 <= y <= 9999
    ensures ParseYearPrefix(YearText(y) + tail) == Some((y, |YearText(y)|))
  {
    var sign, digits := YearTextParts(y);
    UnsignedYearPrefix(YearText(y) + tail, digits, tail);
  }

  /** The year field is read back exactly when a non-digit follows it. */
  lemma YearPrefixRoundTrip(y: int, tail: string)
    requires |tail| > 0 && !IsDigit(tail[0])
    ensures ParseYearPrefix(YearText(y) + tail) == Some((y, |YearText(y)|))
  {
    if y < 0 || y > 9999 {
      SignedYearRoundTrip(y, tail);
    } else {
      UnsignedYearRoundTrip(y, tail);
    }
  }

  /** Whatever follows it, a formatted date is read back exactly, up to its
      last character. */
  lemma IsoDatePrefixRoundTrip(d: Date, rest: string)
    requires Valid(d)
    ensures ParseIsoDatePrefix(FormatIsoDate(d) + rest) == Some((d, |FormatIsoDate(d)|))
  {
    var mm, dd := TwoDigits(d.month), TwoDigits(d.day);
    var tail := "-" + mm + "-" + dd + rest;
    var s := FormatIsoDate(d) + rest;
    var e := |YearText(d.year)|;
    assert s == YearText(d.year) + tail;
    YearPrefixRoundTrip(d.year, tail);
    assert s[e..] == tail;
    DashFieldsAt(s, e, mm, dd, rest);
    MonthDayAfterYear(s, d, e, mm, dd);
  }

  /** Where s continues with -MM-DD, the two fields sit at fixed offsets. */
  lemma DashFieldsAt(s: string, e: nat, mm: string, dd: string, rest: string)
    requires e <= |s| && |mm| == 2 && |dd| == 2 && s[e..] == "-" + mm + "-" + dd + rest
    ensures |s| >= e + 6 && s[e] == '-' && s[e + 1..e + 3] == mm && s[e + 3] == '-' && s[e + 4..e + 6] == dd
  {
    var tail := s[e..];
    assert tail[1..3] == mm && tail[4..6] == dd;
  }

  /** Once the year is read, the fixed-width -MM-DD part completes the date. */
  lemma MonthDayAfterYear(s: string, d: Date, e: nat, mm: string, dd: string)
    requires Valid(d) && ParseYearPrefix(s) == Some((d.year, e))
    requires |s| >= e + 6 && s[e] == '-' && s[e + 1..e + 3] == mm && s[e + 3] == '-' && s[e + 4..e + 6] == dd
    requires AllDigits(mm) && Value(mm) == d.month && AllDigits(dd) && Value(dd) == d.day
    ensures ParseIsoDatePrefix(s) == Some((d, e + 6))
  {
  }

  /** Reading the text of a date gives back the date. */
  lemma IsoDateRoundTrip(d: Date)
    requires Valid(d)
    ensures ParseIsoDate(FormatIsoDate(d)) == Some(d)
  {
    IsoDatePrefixRoundTrip(d, "");
    assert FormatIsoDate(d) + "" == FormatIsoDate(d);
  }

  /** Different dates have different texts. */
  lemma FormatIsoDateInjective(d1: Date, d2: Date)
    requires Valid(d1) && Valid(d2) && FormatIsoDate(d1) == FormatIsoDate(d2)
    ensures d1 == d2
  {
    IsoDateRoundTrip(d1);
    IsoDateRoundTrip(d2);
  }
}
