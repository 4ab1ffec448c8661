/** The spaced-repetition schedule builder: from a subject and a start date,
    a calendar with one review event per review interval, each at 18:10 on
    the review day, with an alarm one hour before, and the path of the file
    the calendar is written to. The current date, the subject line read
    from the console and the random event identifiers are parameters. */
module SpacedRepetition {
  import opened Wrappers
  import opened Gregorian
  import opened Decimal
  import opened IsoDate
  import opened Template
  import opened Duration
  import opened ICal

  const ProdIdText: string := "-//HAN//iCal4j 1.0//EN"
  /** "{} 복습" */
  const AlarmDescriptionTemplate: string := Placeholder + DescriptionTail
  /** "{} 복습 일정: D+" */
  const EventSummaryTemplate: string := Placeholder + SummaryTail
  const AlarmTriggerDuration: string := "-PT1H"
  /** Days after the start date on which a review falls. */
  const ReviewIntervals: seq<int> := [1, 7, 14, 28, 56, 84, 168, 365]
  const DirectoryName: string := "iCal"

  /** The wall-clock time of every review. */
  const ReviewHour := 18
  const ReviewMinute := 10

  /** The text of each template after its placeholder. */
  const DescriptionTail: string := " 복습"
  const SummaryTail: string := " 복습 일정: D+"

  // ---------------------------------------------------------------------
  // Reading the subject

  predicate IsBlank(c: char) {
    c <= ' '
  }

  /** String.trim, as getSubjectFromUser applies it to the line read from
      the console: drops every character at or below U+0020 from both ends. */
  function Trim(s: string): (r: string)
    ensures |r| <= |s|
    ensures |r| > 0 ==> !IsBlank(r[0]) && !IsBlank(r[|r| - 1])
    decreases |s|
  {
    if |s| > 0 && IsBlank(s[0]) then Trim(s[1..])
    else if |s| > 0 && IsBlank(s[|s| - 1]) then Trim(s[..|s| - 1])
    else s
  }

  /** The trimmed text is a slice of s, and only blanks were cut on either side. */
  lemma {:induction false} TrimSlice(s: string) returns (i: nat, j: nat)
    ensures i <= j <= |s| && Trim(s) == s[i..j]
    ensures forall k :: 0 <= k < i ==> IsBlank(s[k])
    ensures forall k :: j <= k < |s| ==> IsBlank(s[k])
    decreases |s|
  {
    if |s| > 0 && IsBlank(s[0]) {
      var i', j' := TrimSlice(s[1..]);
      i, j := i' + 1, j' + 1;
      assert s[1..][i'..j'] == s[i..j];
      forall k | 0 <= k < i ensures IsBlank(s[k]) {
        if k > 0 {
          assert s[k] == s[1..][k - 1];
        }
      }
      forall k | j <= k < |s| ensures IsBlank(s[k]) {
        assert s[k] == s[1..][k - 1];
      }
    } else if |s| > 0 && IsBlank(s[|s| - 1]) {
      var i', j' := TrimSlice(s[..|s| - 1]);
      i, j := i', j';
      assert s[..|s| - 1][i'..j'] == s[i..j];
      forall k | j <= k < |s| ensures IsBlank(s[k]) {
        if k < |s| - 1 {
          assert s[k] == s[..|s| - 1][k];
        }
      }
    } else {
      i, j := 0, |s|;
    }
  }

  /** Trimming twice is trimming once. */
  lemma TrimIdempotent(s: string)
    ensures Trim(Trim(s)) == Trim(s)
  {
    var t := Trim(s);
    if |t| > 0 {
      assert !IsBlank(t[0]) && !IsBlank(t[|t| - 1]);
    }
  }

  // ---------------------------------------------------------------------
  // The calendar header

  /** The three header properties; each is found under its own name. */
  function Header(): (h: seq<Property>)
    ensures |h| == 3
    ensures GetProperty(h, PRODID) == Some(ProdId("-//HAN//iCal4j 1.0//EN"))
    ensures GetProperty(h, VERSION) == Some(Version("2.0"))
    ensures GetProperty(h, CALSCALE) == Some(CalScale("GREGORIAN"))
  {
    GetPropertyOfThree(ProdId(ProdIdText), Version("2.0"), CalScale("GREGORIAN"));
    [ProdId(ProdIdText), Version("2.0"), CalScale("GREGORIAN")]
  }

  /** createCalendar: a new calendar with PRODID, VERSION 2.0 and CALSCALE
      GREGORIAN, in that order, and no components. */
  method CreateCalendar() returns (calendar: Calendar)
    ensures fresh(calendar)
    ensures calendar.properties == Header() && calendar.components == []
  {
    calendar := new Calendar();
    calendar.AddProperty(ProdId(ProdIdText));
    calendar.AddProperty(Version("2.0"));
    calendar.AddProperty(CalScale("GREGORIAN"));
  }

  // ---------------------------------------------------------------------
  // The alarm

  /** new Dur("-PT1H"): the trigger text read as a duration. */
  function AlarmTrigger(): (d: Duration)
    ensures WellFormed(d) && DurationText(d) == AlarmTriggerDuration
    ensures d.negative && Seconds(d) == -3600
  {
    TriggerParses();
    ParseDuration(AlarmTriggerDuration).value
  }

  /** The trigger text is one hour, negative: before the event's start. */
  lemma TriggerParses()
    ensures ParseDuration(AlarmTriggerDuration) == Some(Duration(true, None, None, Some(1), None, None))
  {
    var d := Duration(true, None, None, Some(1), None, None);
    DurationRoundTrip(d);
    assert DurationText(d) == AlarmTriggerDuration;
  }

  /** createAlarm: TRIGGER one hour before, ACTION:DISPLAY, and the
      description with the subject in place of the template's placeholder. */
  function CreateAlarm(subject: string): (a: Alarm)
    ensures |a.properties| == 3
    ensures GetProperty(a.properties, TRIGGER) == Some(Trigger(Duration(true, None, None, Some(1), None, None)))
    ensures GetProperty(a.properties, ACTION) == Some(Action("DISPLAY"))
    ensures GetProperty(a.properties, DESCRIPTION) == Some(Description(subject + DescriptionTail))
  {
    TriggerParses();
    DescriptionText(subject);
    GetPropertyOfThree(Trigger(AlarmTrigger()), Action("DISPLAY"), Description(Substitute(AlarmDescriptionTemplate, subject)));
    Alarm([
      Trigger(AlarmTrigger()),
      Action("DISPLAY"),
      Description(Substitute(AlarmDescriptionTemplate, subject))])
  }

  /** The text after each template's placeholder holds no other placeholder. */
  lemma TailsWithoutPlaceholder()
    ensures !HasPlaceholder(DescriptionTail) && !HasPlaceholder(SummaryTail)
  {
    NoBraceNoPlaceholder(DescriptionTail);
    NoBraceNoPlaceholder(SummaryTail);
  }

  /** The alarm says "<subject> 복습", whatever the subject contains. */
  lemma DescriptionText(subject: string)
    ensures Substitute(AlarmDescriptionTemplate, subject) == subject + DescriptionTail
  {
    TailsWithoutPlaceholder();
    SubstituteLeading(DescriptionTail, subject);
  }

  /** The alarm of a review at 18:10 goes off at 17:10 the same day. */
  lemma AlarmFiresOneHourBefore(reviewDate: Date)
    requires Valid(reviewDate)
    ensures AddSeconds(DateTime(reviewDate, ReviewHour, ReviewMinute, 0), Seconds(AlarmTrigger()))
      == DateTime(reviewDate, 17, 10, 0)
  {
    var start := DateTime(reviewDate, ReviewHour, ReviewMinute, 0);
    assert SecondOfDay(start) + Seconds(AlarmTrigger()) == 61800;
    assert PlusDays(reviewDate, 61800 / SecondsPerDay) == reviewDate;
  }

  // ---------------------------------------------------------------------
  // A review event

  /** The summary: the template with the subject in place of its
      placeholder, then the day count in decimal. It reads
      "<subject> 복습 일정: D+<dayCount>"; a placeholder inside the subject
      is kept as it is. */
  function SummaryText(subject: string, dayCount: int): (r: string)
    ensures r == subject + SummaryTail + DecimalString(dayCount)
  {
    TailsWithoutPlaceholder();
    SubstituteLeading(SummaryTail, subject);
    Substitute(EventSummaryTemplate, subject) + DecimalString(dayCount)
  }

  /** The day count is read back from the end of the summary. */
  lemma SummaryDayCount(subject: string, dayCount: int)
    ensures var s := SummaryText(subject, dayCount);
      |s| > |subject| + |SummaryTail| &&
      ParseDecimal(s[|subject| + |SummaryTail|..]) == Some(dayCount)
  {
    var s := SummaryText(subject, dayCount);
    assert s[|subject| + |SummaryTail|..] == DecimalString(dayCount);
    DecimalRoundTrip(dayCount);
  }

  /** For one subject, different day counts give different summaries. */
  lemma SummaryInjective(subject: string, a: int, b: int)
    requires SummaryText(subject, a) == SummaryText(subject, b)
    ensures a == b
  {
    SummaryDayCount(subject, a);
    SummaryDayCount(subject, b);
  }

  /** createReviewEvent: DTSTART at 18:10:00 on the review date, the summary,
      the identifier, and one alarm, the subject's. */
  function CreateReviewEvent(reviewDate: Date, dayCount: int, subject: string, uid: string): (e: Event)
    requires Valid(reviewDate)
    ensures StartOf(e) == Some(DateTime(reviewDate, 18, 10, 0))
    ensures GetProperty(e.properties, SUMMARY) == Some(Summary(SummaryText(subject, dayCount)))
    ensures GetProperty(e.properties, UID) == Some(Uid(uid))
    ensures |e.alarms| == 1 && e.alarms[0] == CreateAlarm(subject)
  {
    var start := DateTime(reviewDate, ReviewHour, ReviewMinute, 0);
    var summary := SummaryText(subject, dayCount);
    var alarms := [CreateAlarm(subject)];
    EventProperties(start, summary, uid, alarms);
    Event([DtStart(start), Summary(summary), Uid(uid)], alarms)
  }

  /** In an event holding DTSTART, SUMMARY and UID, each is found by its name. */
  lemma EventProperties(start: DateTime, summary: string, uid: string, alarms: seq<Alarm>)
    ensures var e := Event([DtStart(start), Summary(summary), Uid(uid)], alarms);
      StartOf(e) == Some(start) &&
      GetProperty(e.properties, SUMMARY) == Some(Summary(summary)) &&
      GetProperty(e.properties, UID) == Some(Uid(uid))
  {
    GetPropertyOfThree(DtStart(start), Summary(summary), Uid(uid));
  }

  /** The start of an event, if it has one. */
  function StartOf(e: Event): Option<DateTime> {
    match GetProperty(e.properties, DTSTART)
    case Some(DtStart(t)) => Some(t)
    case _ => None
  }

  // ---------------------------------------------------------------------
  // The schedule

  /** The events of the schedule, in the order of the intervals: the i-th
      falls intervals[i] days after startDate and carries the i-th identifier. */
  function ReviewEvents(startDate: Date, intervals: seq<int>, subject: string, uids: seq<string>): (r: seq<Event>)
    requires Valid(startDate) && |uids| == |intervals|
    ensures |r| == |intervals|
  {
    seq(|intervals|, i requires 0 <= i < |intervals| =>
      CreateReviewEvent(PlusDays(startDate, intervals[i]), intervals[i], subject, uids[i]))
  }

  /** Every event of the schedule: its start, summary, identifier and single alarm. */
  lemma ReviewSchedule(startDate: Date, intervals: seq<int>, subject: string, uids: seq<string>, i: nat)
    requires Valid(startDate) && |uids| == |intervals| && i < |intervals|
    ensures var e := ReviewEvents(startDate, intervals, subject, uids)[i];
      StartOf(e) == Some(DateTime(PlusDays(startDate, intervals[i]), 18, 10, 0)) &&
      GetProperty(e.properties, SUMMARY) == Some(Summary(subject + " 복습 일정: D+" + DecimalString(intervals[i]))) &&
      GetProperty(e.properties, UID) == Some(Uid(uids[i])) &&
      |e.alarms| == 1 && e.alarms[0] == CreateAlarm(subject)
  {
    var r := ReviewEvents(startDate, intervals, subject, uids);
    assert r[i] == CreateReviewEvent(PlusDays(startDate, intervals[i]), intervals[i], subject, uids[i]);
  }

  predicate StrictlyIncreasing(s: seq<int>) {
    forall a, b :: 0 <= a < b < |s| ==> s[a] < s[b]
  }

  /** With increasing intervals, each review starts on a later day than the one before. */
  lemma StartsIncrease(startDate: Date, intervals: seq<int>, subject: string, uids: seq<string>, i: nat, j: nat)
    requires Valid(startDate) && |uids| == |intervals| && StrictlyIncreasing(intervals)
    requires i < j < |intervals|
    ensures var r := ReviewEvents(startDate, intervals, subject, uids);
      StartOf(r[i]).Some? && StartOf(r[j]).Some? &&
      Before(StartOf(r[i]).value.date, StartOf(r[j]).value.date)
  {
    ReviewSchedule(startDate, intervals, subject, uids, i);
    ReviewSchedule(startDate, intervals, subject, uids, j);
    PlusDaysStrictlyMonotonic(startDate, intervals[i], intervals[j]);
  }

  /** The review day of each event is the start date plus its interval, counted one day at a time. */
  lemma ReviewDayIsDayCount(startDate: Date, intervals: seq<int>, subject: string, uids: seq<string>, i: nat)
    requires Valid(startDate) && |uids| == |intervals| && i < |intervals|
    ensures StartOf(ReviewEvents(startDate, intervals, subject, uids)[i]) == Some(DateTime(Step(startDate, intervals[i]), 18, 10, 0))
  {
    ReviewSchedule(startDate, intervals, subject, uids, i);
    PlusDaysIsStep(startDate, intervals[i]);
  }

  /** Distinct identifiers give events with distinct UID properties. */
  lemma DistinctUids(startDate: Date, intervals: seq<int>, subject: string, uids: seq<string>, i: nat, j: nat)
    requires Valid(startDate) && |uids| == |intervals|
    requires forall a, b :: 0 <= a < b < |uids| ==> uids[a] != uids[b]
    requires i < |intervals| && j < |intervals| && i != j
    ensures var r := ReviewEvents(startDate, intervals, subject, uids);
      GetProperty(r[i].properties, UID) != GetProperty(r[j].properties, UID)
  {
    ReviewSchedule(startDate, intervals, subject, uids, i);
    ReviewSchedule(startDate, intervals, subject, uids, j);
  }

  /** The fixed review intervals increase, so the reviews fall on ever later days. */
  lemma ReviewIntervalsIncrease()
    ensures |ReviewIntervals| == 8 && StrictlyIncreasing(ReviewIntervals)
  {
  }

  /** The review days of a schedule started on 2024-01-01, a leap year. */
  lemma NewYear2024Dates()
    ensures var start := Date(2024, 1, 1);
      PlusDays(start, 1) == Date(2024, 1, 2) && PlusDays(start, 7) == Date(2024, 1, 8) &&
      PlusDays(start, 14) == Date(2024, 1, 15) && PlusDays(start, 28) == Date(2024, 1, 29) &&
      PlusDays(start, 56) == Date(2024, 2, 26) && PlusDays(start, 84) == Date(2024, 3, 25) &&
      PlusDays(start, 168) == Date(2024, 6, 17) && PlusDays(start, 365) == Date(2024, 12, 31)
  {
    // Each step moves to the first of the next month, consuming the rest of this one.
    assert PlusDays(Date(2024, 2, 1), 25) == Date(2024, 2, 26);
    assert PlusDays(Date(2024, 3, 1), 24) == Date(2024, 3, 25);
    assert PlusDays(Date(2024, 2, 1), 53) == Date(2024, 3, 25);
    assert PlusDays(Date(2024, 6, 1), 16) == Date(2024, 6, 17);
    assert PlusDays(Date(2024, 5, 1), 47) == Date(2024, 6, 17);
    assert PlusDays(Date(2024, 4, 1), 77) == Date(2024, 6, 17);
    assert PlusDays(Date(2024, 3, 1), 108) == Date(2024, 6, 17);
    assert PlusDays(Date(2024, 2, 1), 137) == Date(2024, 6, 17);
    assert PlusDays(Date(2024, 12, 1), 30) == Date(2024, 12, 31);
    assert PlusDays(Date(2024, 11, 1), 60) == Date(2024, 12, 31);
    assert PlusDays(Date(2024, 10, 1), 91) == Date(2024, 12, 31);
    assert PlusDays(Date(2024, 9, 1), 121) == Date(2024, 12, 31);
    assert PlusDays(Date(2024, 8, 1), 152) == Date(2024, 12, 31);
    assert PlusDays(Date(2024, 7, 1), 183) == Date(2024, 12, 31);
    assert PlusDays(Date(2024, 6, 1), 213) == Date(2024, 12, 31);
    assert PlusDays(Date(2024, 5, 1), 244) == Date(2024, 12, 31);
    assert PlusDays(Date(2024, 4, 1), 274) == Date(2024, 12, 31);
    assert PlusDays(Date(2024, 3, 1), 305) == Date(2024, 12, 31);
    assert PlusDays(Date(2024, 2, 1), 334) == Date(2024, 12, 31);
  }

  /** A schedule started on 2024-01-01. */
  lemma NewYear2024(subject: string, uids: seq<string>, i: nat)
    requires |uids| == |ReviewIntervals| && i < |ReviewIntervals|
    ensures var expected := [
        Date(2024, 1, 2), Date(2024, 1, 8), Date(2024, 1, 15), Date(2024, 1, 29),
        Date(2024, 2, 26), Date(2024, 3, 25), Date(2024, 6, 17), Date(2024, 12, 31)];
      StartOf(ReviewEvents(Date(2024, 1, 1), ReviewIntervals, subject, uids)[i]) == Some(DateTime(expected[i], 18, 10, 0))
  {
    NewYear2024Dates();
    var expected := [
        Date(2024, 1, 2), Date(2024, 1, 8), Date(2024, 1, 15), Date(2024, 1, 29),
        Date(2024, 2, 26), Date(2024, 3, 25), Date(2024, 6, 17), Date(2024, 12, 31)];
    assert PlusDays(Date(2024, 1, 1), ReviewIntervals[i]) == expected[i];
    ReviewSchedule(Date(2024, 1, 1), ReviewIntervals, subject, uids, i);
  }

  /** buildSpacedRepetitionCalendar: the header, then one event per interval,
      appended in the order of the intervals. */
  method BuildSpacedRepetitionCalendar(startDate: Date, intervals: seq<int>, subject: string, uids: seq<string>)
    returns (calendar: Calendar)
    requires Valid(startDate) && |uids| == |intervals|
    ensures fresh(calendar)
    ensures calendar.properties == Header()
    ensures calendar.components == ReviewEvents(startDate, intervals, subject, uids)
  {
    calendar := CreateCalendar();
    ghost var events := ReviewEvents(startDate, intervals, subject, uids);
    for i := 0 to |intervals|
      invariant calendar.properties == Header()
      invariant calendar.components == events[..i]
    {
      var daysAfterStart := intervals[i];
      var reviewDate := PlusDays(startDate, daysAfterStart);
      var event := CreateReviewEvent(reviewDate, daysAfterStart, subject, uids[i]);
      assert event == events[i];
      calendar.AddComponent(event);
      PrefixGrows(events, i);
    }
    assert events[..|intervals|] == events;
  }

  /** One more element of s extends its prefix by that element. */
  lemma PrefixGrows<T>(s: seq<T>, i: nat)
    requires i < |s|
    ensures s[..i + 1] == s[..i] + [s[i]]
  {
  }

  // ---------------------------------------------------------------------
  // The output file

  /** The path the calendar is written to: the directory, the ISO date of
      the day it is written, a dash, and the file name. */
  function OutputPath(today: Date, fileName: string): (path: string)
    requires Valid(today)
    ensures |path| > 5 + |fileName| && path[..5] == "iCal/"
    ensures path[|path| - |fileName| - 1..] == "-" + fileName
  {
    DirectoryName + "/" + FormatIsoDate(today) + "-" + fileName
  }

  /** Reads a path of that form back into the date and the file name. */
  function ParseOutputPath(path: string): Option<(Date, string)> {
    if |path| < 5 || path[..5] != DirectoryName + "/" then None
    else match ParseIsoDatePrefix(path[5..])
      case None => None
      case Some((date, n)) =>
        if 5 + n < |path| && path[5 + n] == '-' then Some((date, path[5 + n + 1..])) else None
  }

  /** The date and the file name are recovered from the path. */
  lemma OutputPathRoundTrip(today: Date, fileName: string)
    requires Valid(today)
    ensures ParseOutputPath(OutputPath(today, fileName)) == Some((today, fileName))
  {
    var path := OutputPath(today, fileName);
    var iso := FormatIsoDate(today);
    assert path[..5] == DirectoryName + "/";
    assert path[5..] == iso + ("-" + fileName);
    IsoDatePrefixRoundTrip(today, "-" + fileName);
    assert path[5 + |iso|] == '-';
    assert path[5 + |iso| + 1..] == fileName;
  }

  /** For years 0 to 9999 the path is "iCal/YYYY-MM-DD-<subject>.ics",
      20 characters around the subject. */
  lemma OutputPathFourDigitYear(today: Date, subject: string)
    requires Valid(today) && 0 <= today.year <= 9999
    ensures var path := OutputPath(today, subject + ".ics");
      |path| == 20 + |subject| &&
      path[..5] == "iCal/" && path[5..15] == FormatIsoDate(today) && path[15] == '-' &&
      path[16..] == subject + ".ics"
  {
    FormatIsoDateFourDigitYear(today);
    var path := OutputPath(today, subject + ".ics");
    assert path == "iCal/" + FormatIsoDate(today) + ("-" + (subject + ".ics"));
  }

  // ---------------------------------------------------------------------
  // The whole run

  /** main, without the console and the file: the subject from the line,
      the calendar for the fixed intervals, and the path for the file
      named after the subject. */
  method Generate(line: string, startDate: Date, today: Date, uids: seq<string>)
    returns (path: string, calendar: Calendar)
    requires Valid(startDate) && Valid(today) && |uids| == |ReviewIntervals|
    ensures fresh(calendar)
    ensures calendar.properties == Header()
    ensures calendar.components == ReviewEvents(startDate, ReviewIntervals, Trim(line), uids)
    ensures path == OutputPath(today, Trim(line) + ".ics")
  {
    var subject := Trim(line);
    calendar := BuildSpacedRepetitionCalendar(startDate, ReviewIntervals, subject, uids);
    path := OutputPath(today, subject + ".ics");
  }
}
