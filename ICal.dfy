/** The part of the iCalendar object model (RFC 5545) the schedule builder
    fills in: local date-times, the properties it sets, VALARM and VEVENT
    components, and the VCALENDAR object whose property and component lists
    are appended to in place. */
module ICal {
  import opened Wrappers
  import opened Gregorian
  import opened Duration

  /** A local date and wall-clock time, to the second. */
  datatype DateTime = DateTime(date: Date, hour: int, minute: int, second: int)

  predicate ValidDateTime(t: DateTime) {
    Valid(t.date) && 0 <= t.hour < 24 && 0 <= t.minute < 60 && 0 <= t.second < 60
  }

  const SecondsPerDay := 86400

  function SecondOfDay(t: DateTime): int {
    3600 * t.hour + 60 * t.minute + t.second
  }

  /** The time on date that lies sod seconds after midnight. */
  function TimeAt(date: Date, sod: int): (t: DateTime)
    requires Valid(date) && 0 <= sod < SecondsPerDay
    ensures ValidDateTime(t) && t.date == date && SecondOfDay(t) == sod
  {
    DateTime(date, sod / 3600, sod % 3600 / 60, sod % 60)
  }

  /** A valid time is the time at its own second of the day. */
  lemma TimeAtSecondOfDay(t: DateTime)
    requires ValidDateTime(t)
    ensures 0 <= SecondOfDay(t) < SecondsPerDay && TimeAt(t.date, SecondOfDay(t)) == t
  {
    var sod := SecondOfDay(t);
    var r := 60 * t.minute + t.second;
    assert sod == 3600 * t.hour + r && 0 <= r < 3600;
    assert sod / 3600 == t.hour && sod % 3600 == r;
    assert r / 60 == t.minute && r % 60 == t.second;
    assert sod % 60 == t.second;
  }

  /** t moved by delta seconds; whole days carry into the date. */
  function AddSeconds(t: DateTime, delta: int): (r: DateTime)
    requires ValidDateTime(t)
    ensures ValidDateTime(r)
  {
    var total := SecondOfDay(t) + delta;
    TimeAt(PlusDays(t.date, total / SecondsPerDay), total % SecondsPerDay)
  }

  /** Moving by delta seconds and back by delta seconds returns to t. */
  lemma AddSecondsInverse(t: DateTime, delta: int)
    requires ValidDateTime(t)
    ensures AddSeconds(AddSeconds(t, delta), -delta) == t
  {
    var sod := SecondOfDay(t);
    TimeAtSecondOfDay(t);
    var total := sod + delta;
    var q, rem := total / SecondsPerDay, total % SecondsPerDay;
    var u := AddSeconds(t, delta);
    assert u == TimeAt(PlusDays(t.date, q), rem);
    var back := rem - delta;
    assert back == sod - SecondsPerDay * q;
    assert back / SecondsPerDay == -q && back % SecondsPerDay == sod by {
      DivOfShift(sod, -q);
    }
    PlusDaysInverse(t.date, q);
  }

  lemma DivOfShift(r: int, q: int)
    requires 0 <= r < SecondsPerDay
    ensures (r + SecondsPerDay * q) / SecondsPerDay == q && (r + SecondsPerDay * q) % SecondsPerDay == r
  {
  }

  /** The properties the builder sets (RFC 5545 sections 3.7 and 3.8). */
  datatype Property =
    | ProdId(text: string)
    | Version(text: string)
    | CalScale(text: string)
    | DtStart(start: DateTime)
    | Summary(text: string)
    | Uid(text: string)
    | Trigger(offset: Duration)
    | Action(text: string)
    | Description(text: string)

  /** The names of those properties. */
  datatype PropertyName = PRODID | VERSION | CALSCALE | DTSTART | SUMMARY | UID | TRIGGER | ACTION | DESCRIPTION

  /** The property name under which p is written. */
  function Name(p: Property): PropertyName {
    match p
    case ProdId(_) => PRODID
    case Version(_) => VERSION
    case CalScale(_) => CALSCALE
    case DtStart(_) => DTSTART
    case Summary(_) => SUMMARY
    case Uid(_) => UID
    case Trigger(_) => TRIGGER
    case Action(_) => ACTION
    case Description(_) => DESCRIPTION
  }

  /** The first property in props with the given name, as a property list's
      getProperty(name) returns it. */
  function GetProperty(props: seq<Property>, name: PropertyName): (r: Option<Property>)
    ensures r.Some? ==> r.value in props && Name(r.value) == name
  {
    if |props| == 0 then None
    else if Name(props[0]) == name then Some(props[0])
    else GetProperty(props[1..], name)
  }

  /** A property preceded only by properties of other names is the one found. */
  lemma {:induction false} GetPropertyAt(props: seq<Property>, i: nat)
    requires i < |props|
    requires forall j :: 0 <= j < i ==> Name(props[j]) != Name(props[i])
    ensures GetProperty(props, Name(props[i])) == Some(props[i])
  {
    if i > 0 {
      GetPropertyAt(props[1..], i - 1);
    }
  }

  /** In a list of three properties with different names, each is found by its name. */
  lemma GetPropertyOfThree(a: Property, b: Property, c: Property)
    requires Name(a) != Name(b) && Name(a) != Name(c) && Name(b) != Name(c)
    ensures GetProperty([a, b, c], Name(a)) == Some(a)
    ensures GetProperty([a, b, c], Name(b)) == Some(b)
    ensures GetProperty([a, b, c], Name(c)) == Some(c)
  {
    GetPropertyAt([a, b, c], 0);
    GetPropertyAt([a, b, c], 1);
    GetPropertyAt([a, b, c], 2);
  }

  /** A VALARM component. */
  datatype Alarm = Alarm(properties: seq<Property>)

  /** A VEVENT component with its nested alarms. */
  datatype Event = Event(properties: seq<Property>, alarms: seq<Alarm>)

  /** A VCALENDAR object: its property list and its component list grow in
      place as the builder adds to them. */
  class Calendar {
    var properties: seq<Property>
    var components: seq<Event>

    /** new Calendar(): both lists empty. */
    constructor ()
      ensures properties == [] && components == []
    {
      properties := [];
      components := [];
    }

    /** getProperties().add(p) */
    method AddProperty(p: Property)
      modifies this
      ensures properties == old(properties) + [p]
      ensures components == old(components)
    {
      properties := properties + [p];
    }

    /** getComponents().add(e) */
    method AddComponent(e: Event)
      modifies this
      ensures components == old(components) + [e]
      ensures properties == old(properties)
    {
      components := components + [e];
    }
  }
}
