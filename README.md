# RepeatWise spaced-repetition calendar, modelled in Dafny

RepeatWise asks for a subject to review. It then writes an iCalendar file
holding one review event per fixed interval (1, 7, 14, 28, 56, 84, 168 and 365
days after today). Each event starts at 18:10 on its review day. Its summary is
"<subject> 복습 일정: D+<days>", it has a random UID, and it carries one alarm.
The alarm fires one hour before the start (`-PT1H`), is a DISPLAY alarm, and
reads "<subject> 복습". The file is written to
`iCal/<today as YYYY-MM-DD>-<subject>.ics`.

The model follows `Main.java` member by member:

- `SpacedRepetition` (Schedule.dfy) holds the program's constants and
  `createCalendar`, `createAlarm`, `createReviewEvent`,
  `buildSpacedRepetitionCalendar` and the path computation of
  `writeCalendarToFile`. It also has `Trim` (the `String.trim` of
  `getSubjectFromUser`) and `Generate` (what `main` computes).
- The calendar object is a class whose property and component lists are
  appended to in place (`ICal.Calendar`). Events and alarms are values: they
  are built once and never changed afterwards.
- `buildSpacedRepetitionCalendar` is a method with a loop. It is proved
  against the specification function `ReviewEvents`, and the lemmas state what
  the schedule promises about that function.
- The libraries the builder relies on are modelled as far as the builder uses
  them, each in its own module with a reference definition or an inverse:
  - `LocalDate.plusDays` (Gregorian.dfy): proved equal to counting one day
    at a time.
  - `Integer.toString` (Decimal.dfy): parsed back.
  - `DateTimeFormatter.ISO_DATE` (IsoDate.dfy): parsed back.
  - `String.replace("{}", …)` (Template.dfy).
  - The RFC 5545 duration text read by `new Dur(…)` (Duration.dfy): parsed
    back from its text.
  - The iCalendar properties and components (ICal.dfy).

The schedule's start date, the date used in the file name, the console line
and the UIDs are parameters:
`Generate(line, startDate, today, uids)`.

From 2024-01-01, `LocalDate.plusDays` reaches 2024-03-25 after 84 days and
2024-12-31 after 365 days, because 2024 has 366 days; `NewYear2024Dates`
states all eight review dates.

## Model

| member | source | states |
|---|---|---|
| `SpacedRepetition.Generate` | src/main/java/Main.java:34-40 | the calendar holds the header and the review events for the fixed intervals and the trimmed line as subject; the path is built from today's date and "<subject>.ics" |
| `SpacedRepetition.Trim` | src/main/java/Main.java:45 | the trimmed subject is no longer than the line, and it neither starts nor ends with a character at or below U+0020 |
| `SpacedRepetition.TrimSlice` | src/main/java/Main.java:45 | the trimmed subject is a contiguous slice of the line, and everything cut on either side is a character at or below U+0020 |
| `SpacedRepetition.TrimIdempotent` | src/main/java/Main.java:45 | trimming an already trimmed subject changes nothing |
| `SpacedRepetition.BuildSpacedRepetitionCalendar` | src/main/java/Main.java:49-60 | returns a new calendar with the three header properties, whose components are exactly the review events, one per interval, in the order of the intervals |
| `SpacedRepetition.ReviewEvents` | src/main/java/Main.java:53-57 | one event per interval; `ReviewSchedule` states each event's start, summary, UID and alarm, and `StartsIncrease` their order |
| `SpacedRepetition.ReviewSchedule` | src/main/java/Main.java:53-57 | event i starts at 18:10:00 on startDate plus intervals[i] days, its summary is subject + " 복습 일정: D+" + intervals[i] in decimal, its UID is the i-th identifier, and it has exactly one alarm, the subject's |
| `SpacedRepetition.ReviewDayIsDayCount` | src/main/java/Main.java:54 | the review day of event i is the start date advanced one day at a time intervals[i] times |
| `SpacedRepetition.StartsIncrease` | src/main/java/Main.java:53-56 | for strictly increasing intervals, every later event starts on a strictly later day |
| `SpacedRepetition.ReviewIntervalsIncrease` | src/main/java/Main.java:32 | the fixed list has eight intervals and they strictly increase |
| `SpacedRepetition.NewYear2024Dates` | src/main/java/Main.java:32 | from 2024-01-01 the eight intervals reach 2024-01-02, 01-08, 01-15, 01-29, 02-26, 03-25, 06-17 and 12-31 |
| `SpacedRepetition.NewYear2024` | src/main/java/Main.java:53-55 | a schedule started on 2024-01-01 has its i-th event at 18:10 on the i-th of those dates |
| `SpacedRepetition.DistinctUids` | src/main/java/Main.java:91 | when the drawn identifiers are pairwise different, no two events share a UID |
| `SpacedRepetition.CreateCalendar` | src/main/java/Main.java:62-71 | a new calendar whose properties are PRODID "-//HAN//iCal4j 1.0//EN", VERSION "2.0" and CALSCALE "GREGORIAN", in that order, and which has no components |
| `SpacedRepetition.Header` | src/main/java/Main.java:64-70 | the header has three properties, and looking up PRODID, VERSION and CALSCALE finds "-//HAN//iCal4j 1.0//EN", "2.0" and "GREGORIAN" |
| `SpacedRepetition.CreateReviewEvent` | src/main/java/Main.java:74-96 | a review event's DTSTART is 18:10:00 on the review date, its SUMMARY is `SummaryText` of the subject and the day count, its UID is the given identifier, and it has exactly one alarm, the subject's |
| `SpacedRepetition.SummaryText` | src/main/java/Main.java:88 | the summary is the subject, then " 복습 일정: D+" (`SummaryTail`), then the day count in decimal; a "{}" inside the subject is kept as it is |
| `SpacedRepetition.SummaryDayCount` | src/main/java/Main.java:88 | the text after the subject and " 복습 일정: D+" parses back to the day count |
| `SpacedRepetition.SummaryInjective` | src/main/java/Main.java:88 | for one subject, different day counts give different summaries |
| `SpacedRepetition.TriggerParses` | src/main/java/Main.java:31 | the trigger text "-PT1H" reads as a negative duration of one hour and nothing else |
| `SpacedRepetition.AlarmTrigger` | src/main/java/Main.java:100 | the duration built from "-PT1H" is well formed, is written back as "-PT1H", is negative and lasts 3600 seconds |
| `SpacedRepetition.AlarmFiresOneHourBefore` | src/main/java/Main.java:31 | applied to a review starting at 18:10 on a day, the trigger gives 17:10 on the same day |
| `SpacedRepetition.DescriptionText` | src/main/java/Main.java:102 | the alarm description is the subject followed by " 복습", whatever the subject contains |
| `SpacedRepetition.CreateAlarm` | src/main/java/Main.java:98-104 | the alarm has three properties: TRIGGER the negative one-hour duration, ACTION DISPLAY, and DESCRIPTION subject + " 복습" (`DescriptionTail`) |
| `SpacedRepetition.OutputPathRoundTrip` | src/main/java/Main.java:113-114 | the date and the file name are recovered from the output path, so the path determines both |
| `SpacedRepetition.OutputPath` | src/main/java/Main.java:107-114 | the path starts with "iCal/" and ends with "-" and the file name; `OutputPathRoundTrip` states that the date and the file name are recovered from it |
| `SpacedRepetition.OutputPathFourDigitYear` | src/main/java/Main.java:107-114 | for a four-digit year the path is "iCal/", the ten-character ISO date, "-", then subject + ".ics": 20 characters plus the subject |
| `ICal.Calendar.constructor` | src/main/java/Main.java:63 | a new calendar has no properties and no components |
| `ICal.Calendar.AddProperty` | src/main/java/Main.java:64 | appends the property at the end of the property list and leaves the components unchanged |
| `ICal.Calendar.AddComponent` | src/main/java/Main.java:56 | appends the event at the end of the component list and leaves the properties unchanged |
| `ICal.AddSecondsInverse` | src/main/java/Main.java:31 | moving a date-time by a number of seconds and back by the same number returns the original date-time, across day boundaries |
| `Gregorian.PlusDaysIsStep` | src/main/java/Main.java:54 | the date plusDays computes equals stepping one calendar day at a time n times (backward for negative n) |
| `Gregorian.PlusDays` | src/main/java/Main.java:54 | the result is a valid date; `PlusDaysIsStep` states that it is the date n single days away, `PlusDaysAdd` and `PlusDaysInverse` how shifts combine |
| `Gregorian.PlusDaysAdd` | src/main/java/Main.java:54 | adding a days then b days is adding a + b days |
| `Gregorian.PlusDaysInverse` | src/main/java/Main.java:54 | adding n days and then -n days gives back the date |
| `Gregorian.PlusDaysStrictlyMonotonic` | src/main/java/Main.java:54 | adding more days gives a strictly later date |
| `Decimal.DecimalRoundTrip` | src/main/java/Main.java:88 | the decimal text of the day count parses back to the day count, negative ones included |
| `Decimal.DecimalShape` | src/main/java/Main.java:88 | the text has a minus sign exactly for negative numbers, then digits with no superfluous leading zero |
| `Decimal.DecimalString` | src/main/java/Main.java:88 | the text is non-empty and starts with '-' exactly for negative numbers; `DecimalRoundTrip` states that it parses back to the number |
| `Template.SubstituteSingle` | src/main/java/Main.java:88 | replacing "{}" in a template with one placeholder puts the value where the placeholder was and leaves the rest |
| `Template.Substitute` | src/main/java/Main.java:88 | a template without "{}" is left unchanged; `SubstituteSingle` states where the value lands in a one-placeholder template |
| `Duration.DurationRoundTrip` | src/main/java/Main.java:100 | every well-formed duration is read back from its text |
| `Duration.ParseDuration` | src/main/java/Main.java:100 | every text it accepts gives a well-formed dur-value, negative exactly when the text starts with '-'; `DurationRoundTrip` states that it reads back every duration's text |
| `IsoDate.IsoDateRoundTrip` | src/main/java/Main.java:113 | reading the ISO_DATE text of a date gives back the date |
| `IsoDate.FormatIsoDate` | src/main/java/Main.java:113 | the text ends with '-', the month's two digits, '-' and the day's two digits, denoting month and day; `IsoDateRoundTrip` states that it parses back to the date |
| `IsoDate.FormatIsoDateInjective` | src/main/java/Main.java:113 | different dates give different texts |
| `IsoDate.FormatIsoDateFourDigitYear` | src/main/java/Main.java:113 | for years 0 to 9999 the text is ten characters: four year digits, '-', two month digits, '-', two day digits, each denoting its field |
| `IsoDate.IsoDatePrefixRoundTrip` | src/main/java/Main.java:114 | whatever follows it in a path, a date's text is read back exactly up to its last character |

## Left out

- The console prompt and `Scanner` reading (src/main/java/Main.java:43-46). The line read is the parameter `line`; only the trim is modelled. End of input (no line at all) is not modelled.
- `LocalDate.now()` (src/main/java/Main.java:36 and 113). The two reads are the parameters `startDate` and `today`; nothing ties them to each other or to a clock.
- `UUID.randomUUID()` (src/main/java/Main.java:91). The identifiers are the parameter `uids`, one per interval. Their uniqueness is a hypothesis of `DistinctUids`, not a consequence.
- Creating the `iCal` directory, its `IOException`, opening the file, `CalendarOutputter` serialisation and the completion message (src/main/java/Main.java:108-119). Only the path is modelled.
- `java.util.Calendar` (src/main/java/Main.java:77-85): the default time zone, the conversion to an instant, the milliseconds left from the current time, and the Julian calendar before 1582-10-15. The event start is modelled as the local wall-clock time 18:10:00 on the review date, to the second.
- ical4j's own additions: the DTSTAMP that `new VEvent()` puts in every event, and property validation. The property lists hold exactly what `Main.java` adds. Property lookup is by a name enumeration rather than by string.
- `new Dur(…)` is modelled by the RFC 5545 (section 3.3.6) dur-value grammar, not by ical4j's own tokeniser. The only text the program passes, "-PT1H", is read the same way by both.
- The alarm's firing time is computed by calendar clients, not by the program. `AddSeconds` models it in local time; daylight-saving changes are not modelled.
- `LocalDate`'s year range (±999,999,999) and the `DateTimeException` or overflow `plusDays` raises beyond it. Years are unbounded integers.
- The intervals and the day count are Java `int`s. They are unbounded integers here; the fixed intervals are far inside the 32-bit range.
- `BuildSpacedRepetitionCalendar`: requires one identifier per interval, the stand-in for drawing a fresh UUID at each iteration.
