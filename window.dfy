/**
 * The retrieval window of a climatological cycle (`get_dynamic_dates_for_yesterday`):
 * yesterday from midnight, up to 05:59:59 when the cycle runs before 11:30 UTC and
 * up to 23:59:59 otherwise, both written as ISO-8601 to the second with a trailing "Z".
 */
module RetrievalWindow {
  import opened Effects

  type Hour = h: nat | h < 24
  type Minute = m: nat | m < 60
  type Second = s: nat | s < 60

  datatype Date = Date(year: nat, month: nat, day: nat)

  predicate IsLeapYear(y: nat) {
    y % 4 == 0 && (y % 100 != 0 || y % 400 == 0)
  }

  function DaysInMonth(y: nat, m: nat): nat {
    if m == 2 then (if IsLeapYear(y) then 29 else 28)
    else if m == 4 || m == 6 || m == 9 || m == 11 then 30
    else 31
  }

  /** The dates Python's `datetime` can hold (years 1 to 9999). */
  predicate ValidDate(d: Date) {
    1 <= d.year <= 9999 && 1 <= d.month <= 12 && 1 <= d.day <= DaysInMonth(d.year, d.month)
  }

  type CivilDate = d: Date | ValidDate(d) witness Date(1, 1, 1)

  /**
   * The UTC clock when the window is computed: the time of day, and the date of
   * `now - timedelta(days=1)`.
   */
  datatype Clock = Clock(hour: Hour, minute: Minute, yesterday: CivilDate)

  datatype DateTime = DateTime(date: CivilDate, hour: Hour, minute: Minute, second: Second)

  const CutoffHour: nat := 11
  const CutoffMinute: nat := 30

  predicate BeforeCutoff(c: Clock) {
    c.hour < CutoffHour || (c.hour == CutoffHour && c.minute < CutoffMinute)
  }

  /** The first and the last second of the window. */
  function WindowBounds(c: Clock): (DateTime, DateTime)
  {
    if BeforeCutoff(c) then
      (DateTime(c.yesterday, 0, 0, 0), DateTime(c.yesterday, 5, 59, 59))
    else
      (DateTime(c.yesterday, 0, 0, 0), DateTime(c.yesterday, 23, 59, 59))
  }

  function SecondOfDay(t: DateTime): nat {
    t.hour * 3600 + t.minute * 60 + t.second
  }

  // ---------------------------------------------------------------------------
  // isoformat(timespec="seconds") and its inverse
  // ---------------------------------------------------------------------------

  function DigitChar(d: nat): char
    requires d < 10
  {
    ('0' as int + d) as char
  }

  function Pad2(n: nat): string
    requires n < 100
  {
    [DigitChar(n / 10), DigitChar(n % 10)]
  }

  function Pad4(n: nat): string
    requires n < 10000
  {
    Pad2(n / 100) + Pad2(n % 100)
  }

  /** `YYYY-MM-DDTHH:MM:SS` */
  function IsoSeconds(t: DateTime): string
  {
    Pad4(t.date.year) + "-" + Pad2(t.date.month) + "-" + Pad2(t.date.day) + "T"
      + Pad2(t.hour) + ":" + Pad2(t.minute) + ":" + Pad2(t.second)
  }

  /** The pair of strings `get_dynamic_dates_for_yesterday` returns. */
  function GetDynamicDates(c: Clock): (string, string)
  {
    var (start, end) := WindowBounds(c);
    (IsoSeconds(start) + "Z", IsoSeconds(end) + "Z")
  }

  function DigitValue(c: char): Option<nat>
  {
    if '0' <= c <= '9' then Some(c as int - '0' as int) else None
  }

  function Parse2(s: string): Option<nat>
    requires |s| == 2
  {
    match (DigitValue(s[0]), DigitValue(s[1]))
    case (Some(a), Some(b)) => Some(10 * a + b)
    case _ => None
  }

  function Parse4(s: string): Option<nat>
    requires |s| == 4
  {
    match (Parse2(s[..2]), Parse2(s[2..]))
    case (Some(a), Some(b)) => Some(100 * a + b)
    case _ => None
  }

  /** Reads back a `YYYY-MM-DDTHH:MM:SSZ` timestamp; `None` for anything else. */
  function ParseIsoZ(s: string): Option<DateTime>
  {
    if |s| != 20 || s[4] != '-' || s[7] != '-' || s[10] != 'T' || s[13] != ':' || s[16] != ':' || s[19] != 'Z'
    then None
    else
      var y, mo, d := Parse4(s[..4]), Parse2(s[5..7]), Parse2(s[8..10]);
      var h, mi, se := Parse2(s[11..13]), Parse2(s[14..16]), Parse2(s[17..19]);
      if y.None? || mo.None? || d.None? || h.None? || mi.None? || se.None? then None
      else if !ValidDate(Date(y.value, mo.value, d.value)) || h.value >= 24 || mi.value >= 60 || se.value >= 60 then None
      else Some(DateTime(Date(y.value, mo.value, d.value), h.value, mi.value, se.value))
  }

  lemma Pad2RoundTrip(n: nat)
    requires n < 100
    ensures |Pad2(n)| == 2 && Parse2(Pad2(n)) == Some(n)
  {
    assert DigitValue(DigitChar(n / 10)) == Some(n / 10);
    assert DigitValue(DigitChar(n % 10)) == Some(n % 10);
  }

  lemma Pad4RoundTrip(n: nat)
    requires n < 10000
    ensures |Pad4(n)| == 4 && Parse4(Pad4(n)) == Some(n)
  {
    Pad2RoundTrip(n / 100);
    Pad2RoundTrip(n % 100);
    assert Pad4(n)[..2] == Pad2(n / 100);
    assert Pad4(n)[2..] == Pad2(n % 100);
  }

  /** Formatting a timestamp and reading it back gives the timestamp again. */
  lemma IsoRoundTrip(t: DateTime)
    ensures |IsoSeconds(t) + "Z"| == 20
    ensures ParseIsoZ(IsoSeconds(t) + "Z") == Some(t)
  {
    var s := IsoSeconds(t) + "Z";
    Pad4RoundTrip(t.date.year);
    Pad2RoundTrip(t.date.month);
    Pad2RoundTrip(t.date.day);
    Pad2RoundTrip(t.hour);
    Pad2RoundTrip(t.minute);
    Pad2RoundTrip(t.second);
    assert s[..4] == Pad4(t.date.year);
    assert s[5..7] == Pad2(t.date.month);
    assert s[8..10] == Pad2(t.date.day);
    assert s[11..13] == Pad2(t.hour);
    assert s[14..16] == Pad2(t.minute);
    assert s[17..19] == Pad2(t.second);
  }

  /** Two timestamps that format alike are equal: the written window determines its bounds. */
  lemma IsoInjective(t: DateTime, u: DateTime)
    requires IsoSeconds(t) + "Z" == IsoSeconds(u) + "Z"
    ensures t == u
  {
    IsoRoundTrip(t);
    IsoRoundTrip(u);
  }

  /**
   * The window by time of day: read back, the start is yesterday 00:00:00 and the end
   * yesterday 05:59:59 before 11:30 and 23:59:59 from 11:30 on; the start comes
   * strictly before the end, both share the date part, and both end with "Z".
   */
  lemma WindowByTimeOfDay(c: Clock)
    ensures var (s, e) := GetDynamicDates(c);
      && ParseIsoZ(s) == Some(DateTime(c.yesterday, 0, 0, 0))
      && (c.hour * 60 + c.minute < 11 * 60 + 30 ==> ParseIsoZ(e) == Some(DateTime(c.yesterday, 5, 59, 59)))
      && (c.hour * 60 + c.minute >= 11 * 60 + 30 ==> ParseIsoZ(e) == Some(DateTime(c.yesterday, 23, 59, 59)))
      && |s| == 20 && |e| == 20 && s[19] == 'Z' && e[19] == 'Z'
      && s[..11] == e[..11]
    ensures SecondOfDay(WindowBounds(c).0) < SecondOfDay(WindowBounds(c).1)
    ensures WindowBounds(c).0.date == WindowBounds(c).1.date == c.yesterday
  {
    var (start, end) := WindowBounds(c);
    IsoRoundTrip(start);
    IsoRoundTrip(end);
    assert (IsoSeconds(start) + "Z")[..11] == Pad4(c.yesterday.year) + "-" + Pad2(c.yesterday.month) + "-" + Pad2(c.yesterday.day) + "T";
    assert (IsoSeconds(end) + "Z")[..11] == Pad4(c.yesterday.year) + "-" + Pad2(c.yesterday.month) + "-" + Pad2(c.yesterday.day) + "T";
  }
}
