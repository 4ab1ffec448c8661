/** Durations in the dur-value form of section 3.3.6 of RFC 5545, the form
    of the alarm's TRIGGER (section 3.8.6.3): an optional sign, "P", then
    either weeks ("nW"), or days ("nD") optionally followed by a time, or a
    time alone, where a time is "T" then hours, minutes, seconds ("nH",
    "nM", "nS") with no gap between the fields present. */
module Duration {
  import opened Wrappers
  import opened Decimal

  datatype Duration = Duration(
    negative: bool,
    weeks: Option<nat>,
    days: Option<nat>,
    hours: Option<nat>,
    minutes: Option<nat>,
    seconds: Option<nat>)

  predicate HasTime(d: Duration) {
    d.hours.Some? || d.minutes.Some? || d.seconds.Some?
  }

  /** The shapes the grammar allows. */
  predicate WellFormed(d: Duration) {
    if d.weeks.Some? then d.days.None? && !HasTime(d)
    else
      (d.days.Some? || HasTime(d)) &&
      (d.hours.Some? && d.seconds.Some? ==> d.minutes.Some?)
  }

  /** Signed length in seconds (a day taken as 86400 seconds). */
  function Seconds(d: Duration): int {
    var total := 604800 * Get(d.weeks) + 86400 * Get(d.days) + 3600 * Get(d.hours)
      + 60 * Get(d.minutes) + Get(d.seconds);
    if d.negative then -total else total
  }

  function Get(v: Option<nat>): nat {
    if v.Some? then v.value else 0
  }

  function Field(v: Option<nat>, designator: char): string {
    if v.Some? then Digits(v.value) + [designator] else ""
  }

  function TimeText(d: Duration): string {
    Field(d.hours, 'H') + Field(d.minutes, 'M') + Field(d.seconds, 'S')
  }

  /** The dur-value text of d; a positive duration is written without sign. */
  function DurationText(d: Duration): string {
    (if d.negative then "-" else "") + "P" + BodyText(d)
  }

  /** The text after "P": weeks, or days and an optional "T" and time. */
  function BodyText(d: Duration): string {
    if d.weeks.Some? then Field(d.weeks, 'W')
    else Field(d.days, 'D') + (if HasTime(d) then "T" + TimeText(d) else "")
  }

  /** One or more digits and the character after them. */
  function ReadField(s: string): (r: Option<(nat, char, string)>)
    ensures r.Some? ==> |r.value.2| < |s|
  {
    var k := LeadingDigits(s);
    if k == 0 || k == |s| then None
    else Some((Value(s[..k]), s[k], s[k + 1..]))
  }

  function TimeRank(c: char): int {
    if c == 'H' then 0 else if c == 'M' then 1 else if c == 'S' then 2 else -1
  }

  function SetTime(t: (Option<nat>, Option<nat>, Option<nat>), rank: int, n: nat): (Option<nat>, Option<nat>, Option<nat>) {
    if rank == 0 then (Some(n), t.1, t.2)
    else if rank == 1 then (t.0, Some(n), t.2)
    else (t.0, t.1, Some(n))
  }

  /** Reads the time fields after "T": each field's designator must come
      right after the previous one's in the order H, M, S. */
  function ParseTime(s: string, previous: int): (r: Option<(Option<nat>, Option<nat>, Option<nat>)>)
    ensures r.Some? && |s| > 0 ==> r.value.0.Some? || r.value.1.Some? || r.value.2.Some?
    ensures r.Some? && previous >= 0 ==> r.value.0.None?
    ensures r.Some? && previous == 0 && r.value.2.Some? ==> r.value.1.Some?
    ensures r.Some? && r.value.0.Some? && r.value.2.Some? ==> r.value.1.Some?
    decreases |s|
  {
    if |s| == 0 then Some((None, None, None))
    else match ReadField(s)
      case None => None
      case Some((n, c, rest)) =>
        var rank := TimeRank(c);
        if rank < 0 || (previous >= 0 && rank != previous + 1) then None
        else match ParseTime(rest, rank)
          case None => None
          case Some(t) => Some(SetTime(t, rank, n))
  }

  /** "T" and at least one time field, or nothing. */
  function ParseOptionalTime(s: string): (r: Option<(Option<nat>, Option<nat>, Option<nat>)>)
    ensures r.Some? && |s| > 0 ==> r.value.0.Some? || r.value.1.Some? || r.value.2.Some?
    ensures r.Some? && r.value.0.Some? && r.value.2.Some? ==> r.value.1.Some?
  {
    if |s| == 0 then Some((None, None, None))
    else if s[0] == 'T' && |s| > 1 then ParseTime(s[1..], -1)
    else None
  }

  /** new Dur(text): reads a dur-value; None when the text does not follow
      the grammar. Whatever it accepts is well formed, and negative exactly
      when the text starts with '-'. */
  function ParseDuration(s: string): (r: Option<Duration>)
    ensures r.Some? ==> |s| > 0 && WellFormed(r.value) && (r.value.negative <==> s[0] == '-')
  {
    var signLen := if |s| > 0 && (s[0] == '+' || s[0] == '-') then 1 else 0;
    if |s| < signLen + 2 || s[signLen] != 'P' then None
    else ParseBody(s[signLen + 1..], signLen == 1 && s[0] == '-')
  }

  /** Reads the text after "P". */
  function ParseBody(body: string, negative: bool): (r: Option<Duration>)
    ensures r.Some? ==> WellFormed(r.value) && r.value.negative == negative
  {
    if |body| == 0 then None
    else if body[0] == 'T' then
      match ParseOptionalTime(body)
      case None => None
      case Some(t) => Some(Duration(negative, None, None, t.0, t.1, t.2))
    else match ReadField(body)
      case None => None
      case Some((n, c, rest)) =>
        if c == 'W' then (if rest == "" then Some(Duration(negative, Some(n), None, None, None, None)) else None)
        else if c == 'D' then
          match ParseOptionalTime(rest)
          case None => None
          case Some(t) => Some(Duration(negative, None, Some(n), t.0, t.1, t.2))
        else None
  }

  /** A field's text is read back, whatever follows its designator. */
  lemma FieldRoundTrip(n: nat, c: char, rest: string)
    requires !IsDigit(c)
    ensures ReadField(Field(Some(n), c) + rest) == Some((n, c, rest))
  {
    var digits := Digits(n);
    var s := Field(Some(n), c) + rest;
    assert s == digits + ([c] + rest);
    LeadingDigitsOfRun(digits, [c] + rest);
    assert s[..|digits|] == digits;
    ValueOfDigits(n);
    assert s[|digits| + 1..] == rest;
  }

  /** One time field in front of text that reads back as t. */
  lemma TimeFieldStep(n: nat, c: char, rest: string, previous: int, t: (Option<nat>, Option<nat>, Option<nat>))
    requires TimeRank(c) >= 0 && (previous < 0 || TimeRank(c) == previous + 1)
    requires ParseTime(rest, TimeRank(c)) == Some(t)
    ensures ParseTime(Field(Some(n), c) + rest, previous) == Some(SetTime(t, TimeRank(c), n))
  {
    FieldRoundTrip(n, c, rest);
  }

  /** The seconds field, if any, after a field of rank previous. */
  lemma SecondsRoundTrip(sec: Option<nat>, previous: int)
    requires sec.Some? ==> previous < 0 || previous == 1
    ensures ParseTime(Field(sec, 'S'), previous) == Some((None, None, sec))
  {
    if sec.Some? {
      assert Field(sec, 'S') == Field(Some(sec.value), 'S') + "";
      TimeFieldStep(sec.value, 'S', "", previous, (None, None, None));
    }
  }

  /** The minutes and seconds fields after a field of rank previous. */
  lemma MinutesRoundTrip(m: Option<nat>, sec: Option<nat>, previous: int)
    requires m.Some? ==> previous < 0 || previous == 0
    requires m.None? && sec.Some? ==> previous < 0 || previous == 1
    ensures ParseTime(Field(m, 'M') + Field(sec, 'S'), previous) == Some((None, m, sec))
  {
    if m.Some? {
      SecondsRoundTrip(sec, 1);
      TimeFieldStep(m.value, 'M', Field(sec, 'S'), previous, (None, None, sec));
    } else {
      assert Field(m, 'M') + Field(sec, 'S') == Field(sec, 'S');
      SecondsRoundTrip(sec, previous);
    }
  }

  /** The hours field followed by the minutes and seconds fields. */
  lemma HoursRoundTrip(h: nat, m: Option<nat>, sec: Option<nat>)
    requires sec.Some? ==> m.Some?
    ensures ParseTime(Field(Some(h), 'H') + (Field(m, 'M') + Field(sec, 'S')), -1) == Some((Some(h), m, sec))
  {
    MinutesRoundTrip(m, sec, 0);
    TimeFieldStep(h, 'H', Field(m, 'M') + Field(sec, 'S'), -1, (None, m, sec));
  }

  /** The time fields present, written in order H, M, S, are read back. */
  lemma TimeRoundTrip(h: Option<nat>, m: Option<nat>, sec: Option<nat>)
    requires h.Some? && sec.Some? ==> m.Some?
    ensures ParseTime(Field(h, 'H') + Field(m, 'M') + Field(sec, 'S'), -1) == Some((h, m, sec))
  {
    var rest := Field(m, 'M') + Field(sec, 'S');
    if h.Some? {
      var text := Field(Some(h.value), 'H') + rest;
      assert Field(h, 'H') + Field(m, 'M') + Field(sec, 'S') == text;
      HoursRoundTrip(h.value, m, sec);
    } else {
      assert Field(h, 'H') + Field(m, 'M') + Field(sec, 'S') == rest;
      MinutesRoundTrip(m, sec, -1);
    }
  }

  lemma OptionalTimeRoundTrip(d: Duration)
    requires WellFormed(d) && d.weeks.None?
    ensures ParseOptionalTime(if HasTime(d) then "T" + TimeText(d) else "") == Some((d.hours, d.minutes, d.seconds))
  {
    if HasTime(d) {
      TimeRoundTrip(d.hours, d.minutes, d.seconds);
      assert ("T" + TimeText(d))[1..] == TimeText(d);
    }
  }

  /** The body of a duration in weeks. */
  lemma WeeksRoundTrip(d: Duration)
    requires WellFormed(d) && d.weeks.Some?
    ensures ParseBody(BodyText(d), d.negative) == Some(d)
  {
    assert BodyText(d) == Field(Some(d.weeks.value), 'W') + "";
    FieldRoundTrip(d.weeks.value, 'W', "");
  }

  /** The body of a duration in days and an optional time. */
  lemma DaysRoundTrip(d: Duration)
    requires WellFormed(d) && d.weeks.None? && d.days.Some?
    ensures ParseBody(BodyText(d), d.negative) == Some(d)
  {
    var rest := if HasTime(d) then "T" + TimeText(d) else "";
    var body := BodyText(d);
    assert body == Field(Some(d.days.value), 'D') + rest;
    assert IsDigit(body[0]) by {
      assert body[0] == Digits(d.days.value)[0];
    }
    FieldRoundTrip(d.days.value, 'D', rest);
    OptionalTimeRoundTrip(d);
  }

  /** The body of a duration that is a time alone. */
  lemma TimeOnlyRoundTrip(d: Duration)
    requires WellFormed(d) && d.weeks.None? && d.days.None?
    ensures ParseBody(BodyText(d), d.negative) == Some(d)
  {
    assert BodyText(d) == "T" + TimeText(d);
    OptionalTimeRoundTrip(d);
  }

  /** The sign and "P" are read, and the rest is left to ParseBody. */
  lemma SignRoundTrip(d: Duration)
    requires |BodyText(d)| > 0
    ensures ParseDuration(DurationText(d)) == ParseBody(BodyText(d), d.negative)
  {
    var sign := if d.negative then "-" else "";
    assert DurationText(d)[|sign| + 1..] == BodyText(d);
  }

  /** Every well-formed duration is read back from its text. */
  lemma DurationRoundTrip(d: Duration)
    requires WellFormed(d)
    ensures ParseDuration(DurationText(d)) == Some(d)
  {
    if d.weeks.Some? {
      WeeksRoundTrip(d);
    } else if d.days.Some? {
      DaysRoundTrip(d);
    } else {
      TimeOnlyRoundTrip(d);
    }
    SignRoundTrip(d);
  }
}
