/** Clock times as read by `DateTimeFormatter.ofPattern("H:mm")` and
    `LocalTime.parse`, the day-wrap flight duration, and its split into
    hours and minutes. A clock time is a minute of the day in [0, 1440). */
module ClockTime {
  import opened Wrappers
  import opened Tickets

  const MinutesPerHour: nat := 60
  const MinutesPerDay: nat := 1440

  /** The longest digit run the "H" field reads (a variable-width number field). */
  const MaxHourDigits: nat := 19

  predicate IsDigit(c: char) {
    '0' <= c <= '9'
  }

  predicate AllDigits(s: string) {
    forall i :: 0 <= i < |s| ==> IsDigit(s[i])
  }

  function DigitValue(c: char): (d: nat)
    requires IsDigit(c)
    ensures d <= 9
  {
    (c as int) - ('0' as int)
  }

  /** `LocalTime.parse(s, ofPattern("H:mm"))` as a minute of the day.
      The hour is a run of 1 to 19 digits, then a colon, then exactly two
      minute digits, and nothing may follow. The minute must be 0..59 and the
      hour 0..23; the default SMART resolver also takes hour 24 with minute
      00 as midnight. Every other string is rejected. */
  function ParseClock(s: string): (r: Option<nat>)
    ensures r.Some? ==> r.value < MinutesPerDay
  {
    ScanHour(s, 0, 0)
  }

  /** The hour field: digits from position `i` on, `hour` being the value of
      the digits before `i`. At the first non-digit the rest must be the
      colon and the two minute digits. */
  function ScanHour(s: string, i: nat, hour: nat): (r: Option<nat>)
    requires i <= |s|
    ensures r.Some? ==> r.value < MinutesPerDay
    decreases |s| - i
  {
    if i < |s| && IsDigit(s[i]) then
      if i == MaxHourDigits then None  // the field stops after 19 digits; a colon cannot follow
      else ScanHour(s, i + 1, 10 * hour + DigitValue(s[i]))
    else if i == 0 || |s| != i + 3 || s[i] != ':' || !IsDigit(s[i + 1]) || !IsDigit(s[i + 2]) then None
    else ResolveClock(hour, 10 * DigitValue(s[i + 1]) + DigitValue(s[i + 2]))
  }

  /** The SMART resolver's check of hour-of-day and minute-of-hour. */
  function ResolveClock(hour: nat, minute: nat): (r: Option<nat>)
    ensures r.Some? ==> r.value < MinutesPerDay
    ensures r.Some? <==> minute < MinutesPerHour && (hour < 24 || (hour == 24 && minute == 0))
    ensures r.Some? && hour < 24 ==> r.value == hour * MinutesPerHour + minute
    ensures r.Some? && hour == 24 ==> r.value == 0
  {
    if minute >= MinutesPerHour then None
    else if hour < 24 then Some(hour * MinutesPerHour + minute)
    else if hour == 24 && minute == 0 then Some(0)
    else None
  }

  /** The value of a run of decimal digits, most significant first. */
  function NumValue(s: string): nat
    requires AllDigits(s)
  {
    if s == [] then 0 else 10 * NumValue(s[..|s| - 1]) + DigitValue(s[|s| - 1])
  }

  /** The shape the "H:mm" pattern accepts, independently of the scanner:
      `k` hour digits (1 to 19), a colon, two minute digits, and nothing more. */
  predicate ClockForm(s: string, k: nat) {
    && 1 <= k <= MaxHourDigits
    && |s| == k + 3
    && AllDigits(s[..k])
    && s[k] == ':'
    && IsDigit(s[k + 1]) && IsDigit(s[k + 2])
  }

  /** The minute field of a string of that shape. */
  function MinuteField(s: string, k: nat): nat
    requires ClockForm(s, k)
  {
    10 * DigitValue(s[k + 1]) + DigitValue(s[k + 2])
  }

  /** For every string: one of the accepted shape resolves its hour and
      minute fields, and any other string is rejected. */
  lemma ParseClockSpec(s: string)
    ensures forall k: nat :: ClockForm(s, k) ==>
      ParseClock(s) == ResolveClock(NumValue(s[..k]), MinuteField(s, k))
    ensures (forall k: nat :: !ClockForm(s, k)) ==> ParseClock(s) == None
  {
    assert s[..0] == [];
    ScanHourSpec(s, 0, 0);
  }

  /** The scanner from position `i`, with the digits before `i` already
      read into `hour`, agrees with the shape description. */
  lemma {:induction false} ScanHourSpec(s: string, i: nat, hour: nat)
    requires i <= |s| && i <= MaxHourDigits
    requires AllDigits(s[..i]) && hour == NumValue(s[..i])
    ensures forall k: nat :: ClockForm(s, k) ==>
      ScanHour(s, i, hour) == ResolveClock(NumValue(s[..k]), MinuteField(s, k))
    ensures (forall k: nat :: !ClockForm(s, k)) ==> ScanHour(s, i, hour) == None
    decreases |s| - i
  {
    if i < |s| && IsDigit(s[i]) {
      if i < MaxHourDigits {
        var next := s[..i + 1];
        assert next[..i] == s[..i];
        ScanHourSpec(s, i + 1, 10 * hour + DigitValue(s[i]));
      }
    } else {
      ScanHourStop(s, i, hour);
    }
  }

  /** At the first non-digit the scanner decides, and the only position a
      string of the accepted shape can have its colon at is that one. */
  lemma ScanHourStop(s: string, i: nat, hour: nat)
    requires i <= |s| && i <= MaxHourDigits
    requires AllDigits(s[..i]) && hour == NumValue(s[..i])
    requires !(i < |s| && IsDigit(s[i]))
    ensures forall k: nat :: ClockForm(s, k) ==> k == i
    ensures ScanHour(s, i, hour) == if ClockForm(s, i) then ResolveClock(hour, MinuteField(s, i)) else None
  {
    if i != 0 && |s| == i + 3 && s[i] == ':' && IsDigit(s[i + 1]) && IsDigit(s[i + 2]) {
      assert ClockForm(s, i);
    }
  }

  function DigitChar(d: nat): (c: char)
    requires d <= 9
    ensures IsDigit(c) && DigitValue(c) == d
  {
    (('0' as int) + d) as char
  }

  /** The canonical "H:mm" text of a minute of the day: the hour without
      leading zero, the minute in two digits. */
  function FormatClock(m: nat): (s: string)
    requires m < MinutesPerDay
    ensures 4 <= |s| <= 5
  {
    var hour := m / MinutesPerHour;
    var minute := m % MinutesPerHour;
    (if hour < 10 then [DigitChar(hour)] else [DigitChar(hour / 10), DigitChar(hour % 10)])
    + [':', DigitChar(minute / 10), DigitChar(minute % 10)]
  }

  /** Every clock time written in the canonical form parses back to itself. */
  lemma ParseFormatClock(m: nat)
    requires m < MinutesPerDay
    ensures ParseClock(FormatClock(m)) == Some(m)
  {
    var s := FormatClock(m);
    var hour := m / MinutesPerHour;
    if hour < 10 {
      assert ScanHour(s, 1, hour) == Some(m);
    } else {
      assert ScanHour(s, 2, hour) == Some(m);
      assert ScanHour(s, 1, hour / 10) == Some(m);
    }
  }

  /** The edges of the accepted format: a leading zero in the hour is
      allowed, 24:00 resolves to midnight, while a one-digit minute, a
      minute of 60, 24 with a non-zero minute, a missing hour and trailing
      text are all rejected. */
  lemma ParseClockEdges()
    ensures ParseClock("07:05") == Some(425)
    ensures ParseClock("24:00") == Some(0)
    ensures ParseClock("24:01") == None
    ensures ParseClock("12:60") == None
    ensures ParseClock("7:5") == None
    ensures ParseClock(":30") == None
    ensures ParseClock("9:30 ") == None
  {
    assert ScanHour("07:05", 2, 7) == ResolveClock(7, 5);
    assert ScanHour("24:00", 2, 24) == ResolveClock(24, 0);
    assert ScanHour("24:01", 2, 24) == ResolveClock(24, 1);
    assert ScanHour("12:60", 2, 12) == ResolveClock(12, 60);
    assert ScanHour("7:5", 1, 7) == None;
    assert ScanHour("9:30 ", 1, 9) == None;
  }

  /** The day-wrap rule: arrival minus departure, plus 24 hours when that is
      negative. The result is the forward gap on the 24-hour clock: the
      unique duration below one day that, started at `dep`, ends at `arr`. */
  function FlightDuration(dep: nat, arr: nat): (d: nat)
    requires dep < MinutesPerDay && arr < MinutesPerDay
    ensures d < MinutesPerDay
    ensures (dep + d) % MinutesPerDay == arr
  {
    var raw := arr - dep;
    if raw < 0 then raw + MinutesPerDay else raw
  }

  /** No other duration below one day takes the clock from `dep` to `arr`;
      in particular equal times give 0, never 24 hours. */
  lemma FlightDurationUnique(dep: nat, arr: nat, d: nat)
    requires dep < MinutesPerDay && arr < MinutesPerDay
    requires d < MinutesPerDay && (dep + d) % MinutesPerDay == arr
    ensures d == FlightDuration(dep, arr)
  {
    var e := FlightDuration(dep, arr);
    assert dep + d == arr || dep + d == arr + MinutesPerDay;
    assert dep + e == arr || dep + e == arr + MinutesPerDay;
  }

  /** Parse both times of a ticket (departure first, as the loop does) and
      apply the day-wrap rule; a rejected string aborts with that string. */
  function TicketDuration(t: Ticket): (r: Result<nat, Error>)
    ensures r.Success? <==> ParseClock(t.departureTime).Some? && ParseClock(t.arrivalTime).Some?
    ensures r.Success? ==>
      r.value < MinutesPerDay &&
      (ParseClock(t.departureTime).value + r.value) % MinutesPerDay == ParseClock(t.arrivalTime).value
    ensures r.Failure? ==> r.error == TimeParseError(
      if ParseClock(t.departureTime).None? then t.departureTime else t.arrivalTime)
  {
    match ParseClock(t.departureTime)
    case None => Failure(TimeParseError(t.departureTime))
    case Some(dep) =>
      match ParseClock(t.arrivalTime)
      case None => Failure(TimeParseError(t.arrivalTime))
      case Some(arr) => Success(FlightDuration(dep, arr))
  }

  /** A duration reported as whole hours and remainder minutes. */
  datatype HoursMinutes = HoursMinutes(hours: nat, minutes: nat)

  function TotalMinutes(hm: HoursMinutes): nat {
    hm.hours * MinutesPerHour + hm.minutes
  }

  /** `toHours()` and `toMinutes() % 60` of a non-negative duration. */
  function Split(d: nat): (hm: HoursMinutes)
    ensures TotalMinutes(hm) == d && hm.minutes < MinutesPerHour
  {
    HoursMinutes(d / MinutesPerHour, d % MinutesPerHour)
  }

  /** The split is the only one with minutes below 60. */
  lemma SplitUnique(d: nat, hm: HoursMinutes)
    requires TotalMinutes(hm) == d && hm.minutes < MinutesPerHour
    ensures hm == Split(d)
  {
  }
}
