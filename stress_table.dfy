/**
 * The stress-test table: reading "h:mm AM/PM" times, the elapsed duration of
 * a test, the Pass/Fail policy with its write-back of `result` to the store,
 * the status badge colour and the search box.
 *
 * Instants are milliseconds from today's midnight; "now" is a parameter.
 */
module StressTable {
  import opened Options
  import opened Text
  import opened Seqs
  import opened Records

  const MsPerMinute: nat := 60000
  const MsPerHour: nat := 3600000

  /** A `Date` on today's calendar day, or an Invalid Date (which is still
      an object, hence truthy). */
  datatype Instant = At(ms: int) | InvalidDate

  // ---------------------------------------------------------------------
  // parseTime
  // ---------------------------------------------------------------------

  /** The first space-separated token, "h:mm". */
  function TimeToken(s: string): string { Piece(s, ' ', 0) }

  /** The second space-separated token, "AM" or "PM"; "" when there is none. */
  function Meridiem(s: string): string { Piece(s, ' ', 1) }

  /** The text before the first ':' of the time token. */
  function HourText(s: string): string { Piece(TimeToken(s), ':', 0) }

  /** The text between the first and second ':' of the time token, if any. */
  function MinuteText(s: string): Option<string> {
    var hm := Split(TimeToken(s), ':');
    if |hm| > 1 then Some(hm[1]) else None
  }

  /** The times whose hour and minute texts `Number` is modelled on. */
  predicate TimeTextModelled(s: string) {
    || TimeToken(s) == ""
    || Meridiem(s) == ""
    || (&& NumberModelled(HourText(s))
        && (MinuteText(s).Some? ==> NumberModelled(MinuteText(s).value)))
  }

  predicate RecordTimesModelled(r: Record) {
    TimeTextModelled(r.timeIn) && TimeTextModelled(r.timeOut)
  }

  /** The hour of the day for a 12-hour clock reading: "12 AM" is 0, a PM
      hour below 12 gains 12, and every other hour (12 PM, 13 and above,
      an unknown modifier, NaN) is kept as it is. */
  function HourOfDay(h: Num, modifier: string): (r: Num)
    ensures r.NaN? <==> h.NaN?
    ensures h.Val? && 1 <= h.n <= 12 && (modifier == "AM" || modifier == "PM") ==>
              r.Val? && r.n < 24 && (r.n >= 12 <==> modifier == "PM")
    ensures modifier != "AM" && modifier != "PM" ==> r == h
    ensures modifier == "PM" && h.Val? && h.n >= 12 ==> r == h
  {
    if modifier == "PM" && h.Val? && h.n < 12 then Val(h.n + 12)
    else if modifier == "AM" && h == Val(12) then Val(0)
    else h
  }

  /** Missing, zero or non-numeric minutes all become 0 (`minutes || 0`). */
  function MinutesOf(s: string): (m: nat)
    requires MinuteText(s).Some? ==> NumberModelled(MinuteText(s).value)
    ensures MinuteText(s).None? ==> m == 0
    ensures MinuteText(s).Some? && !IsDigits(MinuteText(s).value) ==> m == 0
    ensures MinuteText(s).Some? && IsDigits(MinuteText(s).value) ==> m == DigitsValue(MinuteText(s).value)
  {
    match MinuteText(s)
    case None => 0
    case Some(t) => match JsNumber(t) case Val(m) => m case NaN => 0
  }

  /** `parseTime`: null for an empty string or when either token is
      missing; otherwise today's date at the hour and minute read, which is
      an Invalid Date when the hour text is not a number. `setHours(h, m)`
      advances linearly past 23 hours and 59 minutes. */
  function ParseTime(s: string): (r: Option<Instant>)
    requires TimeTextModelled(s)
    ensures s == "" ==> r.None?
    ensures r.None? <==> TimeToken(s) == "" || Meridiem(s) == ""
    ensures r == Some(InvalidDate) <==> r.Some? && JsNumber(HourText(s)).NaN?
    ensures r.Some? && r.value.At? ==> r.value.ms >= 0 && r.value.ms % MsPerMinute == 0
  {
    if s == "" then None
    else if TimeToken(s) == "" || Meridiem(s) == "" then None
    else
      match HourOfDay(JsNumber(HourText(s)), Meridiem(s))
      case Val(h) => Some(At((h * 60 + MinutesOf(s)) * MsPerMinute))
      case NaN => Some(InvalidDate)
  }

  /** The canonical 12-hour text "h:mm AM" for an hour, a minute and a modifier. */
  function ClockText(h: nat, m: nat, modifier: string): string {
    NatToString(h) + ":" + Pad2(NatToString(m)) + " " + modifier
  }

  /** How a time text built from an hour text, a minute text and a modifier
      splits into the pieces parseTime reads. */
  lemma TimePieces(hourText: string, minuteText: string, modifier: string)
    requires ' ' !in hourText && ':' !in hourText
    requires ' ' !in minuteText && ':' !in minuteText
    requires ' ' !in modifier
    ensures var s := hourText + ":" + minuteText + " " + modifier;
      && TimeToken(s) == hourText + ":" + minuteText
      && Meridiem(s) == modifier
      && HourText(s) == hourText
      && MinuteText(s) == Some(minuteText)
  {
    var token := hourText + ":" + minuteText;
    var s := hourText + ":" + minuteText + " " + modifier;
    assert ' ' !in token;
    assert s == token + [' '] + modifier;
    SplitAround(token, ' ', modifier);
    SplitWithoutSeparator(token, ' ');
    SplitWithoutSeparator(modifier, ' ');
    assert token == hourText + [':'] + minuteText;
    SplitAround(hourText, ':', minuteText);
    SplitWithoutSeparator(hourText, ':');
    SplitWithoutSeparator(minuteText, ':');
  }

  /** Reading a canonical 12-hour text gives the minute of the day that the
      hour mapping assigns to it. */
  lemma ParseClockText(h: nat, m: nat, modifier: string)
    requires modifier != "" && ' ' !in modifier
    ensures TimeTextModelled(ClockText(h, m, modifier))
    ensures ParseTime(ClockText(h, m, modifier))
         == Some(At((HourOfDay(Val(h), modifier).n * 60 + m) * MsPerMinute))
  {
    ParseClockTextAt(h, m, modifier, HourOfDay(Val(h), modifier).n);
  }

  /** ParseClockText for a reading whose hour of the day is already known. */
  lemma ParseClockTextAt(h: nat, m: nat, modifier: string, hourOfDay: nat)
    requires modifier != "" && ' ' !in modifier
    requires HourOfDay(Val(h), modifier) == Val(hourOfDay)
    ensures TimeTextModelled(ClockText(h, m, modifier))
    ensures ParseTime(ClockText(h, m, modifier)) == Some(At((hourOfDay * 60 + m) * MsPerMinute))
  {
    var s := ClockText(h, m, modifier);
    ClockTextRead(s, h, m, modifier);
    assert HourOfDay(JsNumber(HourText(s)), Meridiem(s)) == Val(hourOfDay);
  }

  /** The pieces parseTime reads from a canonical 12-hour text, and the
      numbers it reads from them. */
  lemma ClockTextRead(s: string, h: nat, m: nat, modifier: string)
    requires modifier != "" && ' ' !in modifier
    requires s == ClockText(h, m, modifier)
    ensures s != "" && TimeToken(s) != "" && Meridiem(s) == modifier
    ensures TimeTextModelled(s)
    ensures JsNumber(HourText(s)) == Val(h) && MinutesOf(s) == m
  {
    var hourText, minuteText := NatToString(h), Pad2(NatToString(m));
    assert s == hourText + ":" + minuteText + " " + modifier;
    assert ':' !in hourText && ' ' !in hourText by {
      assert IsDigits(hourText);
    }
    assert ':' !in minuteText && ' ' !in minuteText by {
      PaddedValue(m);
    }
    TimePieces(hourText, minuteText, modifier);
    JsNumberOfPrinted(h);
    JsNumberOfPrinted(m);
  }

  /** A time without ':' has no minutes: "h M" reads as minute 0 of its
      hour (`minutes || 0` with `minutes` undefined). */
  lemma ParseHourOnly(s: string, h: nat, modifier: string)
    requires modifier != "" && ' ' !in modifier
    requires s == NatToString(h) + " " + modifier
    ensures TimeTextModelled(s) && MinuteText(s).None?
    ensures ParseTime(s) == Some(At(HourOfDay(Val(h), modifier).n * 60 * MsPerMinute))
  {
    var hourText := NatToString(h);
    assert IsDigits(hourText);
    assert ' ' !in hourText && ':' !in hourText;
    assert s == hourText + [' '] + modifier;
    SplitAround(hourText, ' ', modifier);
    SplitWithoutSeparator(hourText, ' ');
    SplitWithoutSeparator(modifier, ' ');
    assert TimeToken(s) == hourText && Meridiem(s) == modifier;
    SplitWithoutSeparator(hourText, ':');
    assert HourText(s) == hourText && MinuteText(s).None?;
    JsNumberOfPrinted(h);
    assert MinutesOf(s) == 0;
  }

  /** Minutes that are not a number also read as minute 0 of the hour
      (`minutes || 0` with `minutes` NaN). */
  lemma ParseNonNumericMinutes(s: string, h: nat, minuteText: string, modifier: string)
    requires modifier != "" && ' ' !in modifier
    requires ' ' !in minuteText && ':' !in minuteText
    requires exists i :: 0 <= i < |minuteText| && NeverNumeric(minuteText[i])
    requires s == NatToString(h) + ":" + minuteText + " " + modifier
    ensures TimeTextModelled(s) && MinuteText(s) == Some(minuteText)
    ensures JsNumber(minuteText).NaN?
    ensures ParseTime(s) == Some(At(HourOfDay(Val(h), modifier).n * 60 * MsPerMinute))
  {
    var hourText := NatToString(h);
    assert IsDigits(hourText);
    assert ' ' !in hourText && ':' !in hourText;
    var i :| 0 <= i < |minuteText| && NeverNumeric(minuteText[i]);
    assert !IsDigit(minuteText[i]);
    assert !IsDigits(minuteText);
    TimePieces(hourText, minuteText, modifier);
    JsNumberOfPrinted(h);
    assert MinutesOf(s) == 0;
  }

  /** Midnight, "12:00 AM", is the first instant of the day. */
  lemma ParseMidnight(s: string)
    requires s == "12:00 AM"
    ensures TimeTextModelled(s) && ParseTime(s) == Some(At(0))
  {
    assert ClockText(12, 0, "AM") == s;
    ParseClockText(12, 0, "AM");
  }

  /** Noon keeps hour 12. */
  lemma ParseNoon(s: string)
    requires s == "12:00 PM"
    ensures TimeTextModelled(s) && ParseTime(s) == Some(At(12 * MsPerHour))
  {
    assert ClockText(12, 0, "PM") == s;
    ParseClockText(12, 0, "PM");
  }

  /** An afternoon hour gains 12. */
  lemma ParseAfternoon(s: string)
    requires s == "1:30 PM"
    ensures TimeTextModelled(s) && ParseTime(s) == Some(At(13 * MsPerHour + 30 * MsPerMinute))
  {
    AfternoonText(s);
    assert HourOfDay(Val(1), "PM") == Val(13);
    ParseClockTextAt(1, 30, "PM", 13);
  }

  /** "1:30 PM" is the canonical text of 1:30 in the afternoon. */
  lemma AfternoonText(s: string)
    requires s == "1:30 PM"
    ensures s == ClockText(1, 30, "PM")
  {
    assert NatToString(30) == "30" by { assert NatToString(3) == "3"; }
  }

  /** The last minute of the day. */
  lemma ParseLastMinute(s: string)
    requires s == "11:59 PM"
    ensures TimeTextModelled(s) && ParseTime(s) == Some(At(23 * MsPerHour + 59 * MsPerMinute))
  {
    assert NatToString(11) == "11" by { assert NatToString(1) == "1"; }
    assert NatToString(59) == "59" by { assert NatToString(5) == "5"; }
    assert Pad2(NatToString(59)) == "59";
    assert ClockText(11, 59, "PM") == "11" + ":" + "59" + " " + "PM";
    assert ClockText(11, 59, "PM") == s;
    ParseClockText(11, 59, "PM");
  }

  /** A non-numeric hour is not rejected: it reads as an Invalid Date. */
  lemma NonNumericHourIsInvalidDate(s: string)
    requires s == "zz:00 PM"
    ensures TimeTextModelled(s) && ParseTime(s) == Some(InvalidDate)
  {
    TimePieces("zz", "00", "PM");
    assert "zz" + ":" + "00" + " " + "PM" == s;
    assert NeverNumeric("zz"[0]);
  }

  // ---------------------------------------------------------------------
  // getDuration
  // ---------------------------------------------------------------------

  /** The outcome of getDuration: the placeholder "—" (with hours 0), whole
      hours and remaining minutes, or NaN for both when an endpoint is an
      Invalid Date. */
  datatype Duration = Dash | Span(hours: nat, minutes: nat) | NotANumber {

    /** The `label` field. */
    function Label(): string {
      match this
      case Dash => "—"
      case Span(h, m) => NatToString(h) + "h " + NatToString(m) + "m"
      case NotANumber => "NaNh NaNm"
    }

    /** The `hours` field. */
    function Hours(): Num {
      match this
      case Dash => Val(0)
      case Span(h, _) => Val(h)
      case NotANumber => NaN
    }
  }

  /** The elapsed time from `start` to `end`, in whole hours and minutes. */
  function Elapsed(start: Instant, end: Instant): (r: Duration)
    ensures r.NotANumber? <==> start.InvalidDate? || end.InvalidDate?
    ensures r.Dash? <==> start.At? && end.At? && end.ms <= start.ms
    ensures r.Span? ==> r.minutes < 60
    ensures r.Span? ==> r.hours * 60 + r.minutes == (end.ms - start.ms) / MsPerMinute
  {
    if start.InvalidDate? || end.InvalidDate? then NotANumber
    else
      var diff := end.ms - start.ms;
      if diff <= 0 then Dash
      else
        HourMinuteSplit(diff);
        Span(diff / MsPerHour, (diff % MsPerHour) / MsPerMinute)
  }

  lemma HourMinuteSplit(diff: nat)
    ensures (diff % MsPerHour) / MsPerMinute < 60
    ensures (diff / MsPerHour) * 60 + (diff % MsPerHour) / MsPerMinute == diff / MsPerMinute
  {
    var q, rem := diff / MsPerHour, diff % MsPerHour;
    assert diff == q * 60 * MsPerMinute + rem;
    var m, sec := rem / MsPerMinute, rem % MsPerMinute;
    assert rem == m * MsPerMinute + sec;
    assert diff == (q * 60 + m) * MsPerMinute + sec;
  }

  /** `getDuration`: the end is `timeOut` read as a time, or `now` when
      `timeOut` is empty. */
  function GetDuration(timeIn: string, timeOut: string, now: int): (r: Duration)
    requires TimeTextModelled(timeIn) && TimeTextModelled(timeOut)
    ensures ParseTime(timeIn).None? ==> r.Dash?
    ensures timeOut != "" && ParseTime(timeOut).None? ==> r.Dash?
    ensures timeOut == "" && ParseTime(timeIn).Some? ==>
              r == Elapsed(ParseTime(timeIn).value, At(now))
    ensures timeOut != "" && ParseTime(timeIn).Some? && ParseTime(timeOut).Some? ==>
              r == Elapsed(ParseTime(timeIn).value, ParseTime(timeOut).value)
  {
    var start := ParseTime(timeIn);
    var end := if timeOut != "" then ParseTime(timeOut) else Some(At(now));
    if start.None? || end.None? then Dash else Elapsed(start.value, end.value)
  }

  /** Once the test has a time-out, the current instant plays no part. */
  lemma GetDurationIgnoresNow(timeIn: string, timeOut: string, now1: int, now2: int)
    requires TimeTextModelled(timeIn) && TimeTextModelled(timeOut)
    requires timeOut != ""
    ensures GetDuration(timeIn, timeOut, now1) == GetDuration(timeIn, timeOut, now2)
  {
  }

  function TotalMinutes(d: Duration): nat {
    match d
    case Span(h, m) => h * 60 + m
    case _ => 0
  }

  /** Between readings of the clock (whole minutes), consecutive durations
      add up: the test from a to b and from b to c lasts as long as the test
      from a to c. */
  lemma ElapsedAdditive(a: int, b: int, c: int)
    requires a < b < c
    requires a % MsPerMinute == 0 && b % MsPerMinute == 0 && c % MsPerMinute == 0
    ensures Elapsed(At(a), At(b)).Span? && Elapsed(At(b), At(c)).Span?
    ensures TotalMinutes(Elapsed(At(a), At(b))) + TotalMinutes(Elapsed(At(b), At(c)))
         == TotalMinutes(Elapsed(At(a), At(c)))
  {
    var ab, bc, ac := Elapsed(At(a), At(b)), Elapsed(At(b), At(c)), Elapsed(At(a), At(c));
    assert TotalMinutes(ab) == (b - a) / MsPerMinute;
    assert TotalMinutes(bc) == (c - b) / MsPerMinute;
    assert TotalMinutes(ac) == (c - a) / MsPerMinute;
    WholeMinutesAdd(a, b, c);
  }

  /** Spans between whole-minute instants add up in minutes. */
  lemma WholeMinutesAdd(a: int, b: int, c: int)
    requires a % MsPerMinute == 0 && b % MsPerMinute == 0 && c % MsPerMinute == 0
    ensures (b - a) / MsPerMinute + (c - b) / MsPerMinute == (c - a) / MsPerMinute
  {
    var p, q, r := a / MsPerMinute, b / MsPerMinute, c / MsPerMinute;
    assert a == p * MsPerMinute && b == q * MsPerMinute && c == r * MsPerMinute;
    assert b - a == (q - p) * MsPerMinute;
    assert c - b == (r - q) * MsPerMinute;
    assert c - a == (r - p) * MsPerMinute;
  }

  // ---------------------------------------------------------------------
  // getCondition
  // ---------------------------------------------------------------------

  /** The fixed policy: Pass iff at least 6 whole hours and more than 30 left
      in the battery. */
  function Policy(d: Duration, afterBattery: int): (v: Verdict)
    ensures v == Pass <==> d.Span? && d.hours >= 6 && afterBattery > 30
  {
    var longEnough := match d.Hours() case Val(h) => h >= 6 case NaN => false;
    if longEnough && afterBattery > 30 then Pass else Fail
  }

  /** The boundaries of the policy. */
  lemma PolicyBoundaries()
    ensures Policy(Span(6, 0), 31) == Pass
    ensures Policy(Span(5, 59), 100) == Fail
    ensures Policy(Span(6, 1), 30) == Fail
    ensures Policy(Dash, 100) == Fail
    ensures Policy(NotANumber, 100) == Fail
  {
  }

  /** The verdict of `getCondition`: none while `timeOut` is empty, otherwise
      the policy applied to the duration from `timeIn` to `timeOut` (the
      `now` argument is never consulted, see GetDurationIgnoresNow). A test
      with a time-out whose duration is unknown is a Fail. */
  function Condition(r: Record): (v: Option<Verdict>)
    requires RecordTimesModelled(r)
    ensures v.None? <==> r.timeOut == ""
    ensures v == Some(Pass) <==>
              && r.timeOut != ""
              && GetDuration(r.timeIn, r.timeOut, 0).Span?
              && GetDuration(r.timeIn, r.timeOut, 0).hours >= 6
              && r.afterBattery > 30
  {
    if r.timeOut == "" then None
    else Some(Policy(GetDuration(r.timeIn, r.timeOut, 0), r.afterBattery))
  }

  /** A test with a time-out that cannot be read, or that does not end after
      it started, is classified Fail (and not left without a verdict). */
  lemma UnknownDurationFails(r: Record)
    requires RecordTimesModelled(r)
    requires r.timeOut != ""
    requires GetDuration(r.timeIn, r.timeOut, 0).Dash?
    ensures Condition(r) == Some(Fail)
  {
  }

  /** The store after one evaluation of `device`: its `result` field set to
      the verdict, or nothing changed when there is no verdict. */
  function AfterEvaluation(docs: map<string, Record>, device: Device): (r: map<string, Record>)
    requires RecordTimesModelled(device.rec)
    ensures r.Keys == docs.Keys
    ensures forall k :: k in docs && k != device.id ==> r[k] == docs[k]
    ensures device.id in docs ==>
              r[device.id] == Apply(docs[device.id], Condition(device.rec))
  {
    match Condition(device.rec)
    case None => docs
    case Some(v) => WithResult(docs, device.id, v)
  }

  /** A stored record after a verdict, if any, is written to it. */
  function Apply(stored: Record, verdict: Option<Verdict>): Record {
    match verdict
    case None => stored
    case Some(v) => stored.(result := Some(v))
  }

  /** `getCondition`: returns the verdict and, when there is one, writes
      exactly `{ result: verdict }` to the device's document. */
  method EvaluateCondition(store: StressStore, device: Device) returns (v: Option<Verdict>)
    requires RecordTimesModelled(device.rec)
    modifies store
    ensures v == Condition(device.rec)
    ensures store.docs == AfterEvaluation(old(store.docs), device)
  {
    if device.rec.timeOut == "" {
      return None;
    }
    var duration := GetDuration(device.rec.timeIn, device.rec.timeOut, 0);
    var remainingBattery := device.rec.afterBattery;
    if duration.Hours().Val? && duration.Hours().n >= 6 && remainingBattery > 30 {
      store.WriteResult(device.id, Pass);
      return Some(Pass);
    }
    store.WriteResult(device.id, Fail);
    return Some(Fail);
  }

  /** Evaluating the same device again leaves the store as the first
      evaluation left it. */
  lemma {:induction false} EvaluationIdempotent(docs: map<string, Record>, device: Device)
    requires RecordTimesModelled(device.rec)
    ensures AfterEvaluation(AfterEvaluation(docs, device), device) == AfterEvaluation(docs, device)
  {
    match Condition(device.rec)
    case None =>
    case Some(v) => WithResultIdempotent(docs, device.id, v);
  }

  /** A test from `hIn` o'clock in the morning to `hOut` o'clock in the
      afternoon lasts the whole hours between them, and is judged on them. */
  lemma MorningToAfternoon(r: Record, hIn: nat, hOut: nat)
    requires 1 <= hIn <= 11 && 1 <= hOut <= 11
    requires r.timeIn == ClockText(hIn, 0, "AM") && r.timeOut == ClockText(hOut, 0, "PM")
    ensures RecordTimesModelled(r)
    ensures GetDuration(r.timeIn, r.timeOut, 0) == Span(hOut + 12 - hIn, 0)
    ensures Condition(r) == Some(Policy(Span(hOut + 12 - hIn, 0), r.afterBattery))
  {
    MorningToAfternoonDuration(r.timeIn, r.timeOut, hIn, hOut);
  }

  /** The duration part of `MorningToAfternoon`, on the two texts alone. */
  lemma MorningToAfternoonDuration(timeIn: string, timeOut: string, hIn: nat, hOut: nat)
    requires 1 <= hIn <= 11 && 1 <= hOut <= 11
    requires timeIn == ClockText(hIn, 0, "AM") && timeOut == ClockText(hOut, 0, "PM")
    ensures TimeTextModelled(timeIn) && TimeTextModelled(timeOut) && timeOut != ""
    ensures GetDuration(timeIn, timeOut, 0) == Span(hOut + 12 - hIn, 0)
  {
    var span := hOut + 12 - hIn;
    assert "AM"[0] != "PM"[0];
    assert HourOfDay(Val(hIn), "AM") == Val(hIn);
    assert HourOfDay(Val(hOut), "PM") == Val(hOut + 12);
    ParseClockTextAt(hIn, 0, "AM", hIn);
    ParseClockTextAt(hOut, 0, "PM", hOut + 12);
    assert timeOut != "";
    DurationBetween(timeIn, timeOut, hIn * 60, (hOut + 12) * 60);
    var minutes := (hOut + 12) * 60 - hIn * 60;
    assert minutes == span * 60;
    assert minutes / 60 == span && minutes % 60 == 0;
  }

  /** The duration between two readings of the clock that are `start` and
      `end` minutes after midnight, with a time-out. */
  lemma DurationBetween(timeIn: string, timeOut: string, start: nat, end: nat)
    requires TimeTextModelled(timeIn) && TimeTextModelled(timeOut)
    requires timeOut != "" && start < end
    requires ParseTime(timeIn) == Some(At(start * MsPerMinute))
    requires ParseTime(timeOut) == Some(At(end * MsPerMinute))
    ensures GetDuration(timeIn, timeOut, 0) == Span((end - start) / 60, (end - start) % 60)
  {
    var e := Elapsed(At(start * MsPerMinute), At(end * MsPerMinute));
    assert end * MsPerMinute - start * MsPerMinute == (end - start) * MsPerMinute;
    assert ((end - start) * MsPerMinute) / MsPerMinute == end - start;
    assert e.Span? && e.hours * 60 + e.minutes == end - start && e.minutes < 60;
  }

  /** 8:00 AM to 3:00 PM with 40% left is 7h 0m, a Pass. */
  lemma EightToThreePasses(r: Record)
    requires r.timeIn == "8:00 AM" && r.timeOut == "3:00 PM" && r.afterBattery == 40
    ensures RecordTimesModelled(r)
    ensures GetDuration(r.timeIn, r.timeOut, 0) == Span(7, 0)
    ensures GetDuration(r.timeIn, r.timeOut, 0).Label() == "7h 0m"
    ensures Condition(r) == Some(Pass)
  {
    MorningAndAfternoonTexts(r.timeIn, r.timeOut, 3);
    MorningToAfternoon(r, 8, 3);
    WholeHourLabels();
  }

  /** "8:00 AM", "3:00 PM" and "2:00 PM" are canonical readings of the clock. */
  lemma MorningAndAfternoonTexts(timeIn: string, timeOut: string, hOut: nat)
    requires timeIn == "8:00 AM"
    requires (hOut == 3 && timeOut == "3:00 PM") || (hOut == 2 && timeOut == "2:00 PM")
    ensures timeIn == ClockText(8, 0, "AM") && timeOut == ClockText(hOut, 0, "PM")
  {
  }

  /** The labels of 7 and 6 whole hours. */
  lemma WholeHourLabels()
    ensures Span(7, 0).Label() == "7h 0m"
    ensures Span(6, 0).Label() == "6h 0m"
  {
    assert NatToString(7) == "7" && NatToString(6) == "6" && NatToString(0) == "0";
  }

  /** 8:00 AM to 2:00 PM with 20% left is 6h 0m, a Fail: the battery is
      too low. */
  lemma EightToTwoFailsOnBattery(r: Record)
    requires r.timeIn == "8:00 AM" && r.timeOut == "2:00 PM" && r.afterBattery == 20
    ensures RecordTimesModelled(r)
    ensures GetDuration(r.timeIn, r.timeOut, 0).Label() == "6h 0m"
    ensures Condition(r) == Some(Fail)
  {
    MorningAndAfternoonTexts(r.timeIn, r.timeOut, 2);
    MorningToAfternoon(r, 8, 2);
    WholeHourLabels();
  }

  /** A non-numeric hour gives the label "NaNh NaNm" and a Fail. */
  lemma NonNumericHourFails(r: Record)
    requires r.timeIn == "zz:00 PM" && r.timeOut == "3:00 PM"
    ensures RecordTimesModelled(r)
    ensures GetDuration(r.timeIn, r.timeOut, 0).Label() == "NaNh NaNm"
    ensures Condition(r) == Some(Fail)
  {
    NonNumericHourIsInvalidDate(r.timeIn);
    assert ClockText(3, 0, "PM") == "3:00 PM";
    ParseClockText(3, 0, "PM");
  }

  // ---------------------------------------------------------------------
  // The table: status colour, search, one render pass
  // ---------------------------------------------------------------------

  predicate KnownStatus(status: string) {
    status == "Active" || status == "Testing" || status == "Failed" || status == "Completed"
  }

  /** `getStatusColor`: one colour per known status, grey for anything else. */
  function StatusColor(status: string): (c: string)
    ensures c == "bg-gray-100 text-gray-800" <==> !KnownStatus(status)
  {
    match status
    case "Active" => "bg-blue-100 text-blue-800"
    case "Testing" => "bg-purple-100 text-purple-800"
    case "Failed" => "bg-red-100 text-red-800"
    case "Completed" => "bg-green-100 text-green-800"
    case _ => "bg-gray-100 text-gray-800"
  }

  /** Two different known statuses never share a colour. */
  lemma StatusColorsDistinct(a: string, b: string)
    requires KnownStatus(a) && KnownStatus(b) && a != b
    ensures StatusColor(a) != StatusColor(b)
  {
  }

  /** The search box: a case-insensitive substring of the serial number, the
      IMEI, or a non-empty model or assignee. */
  predicate MatchesSearch(r: Record, term: string) {
    var t := Lower(term);
    || Contains(Lower(r.sn), t)
    || Contains(Lower(r.imei), t)
    || (Truthy(r.model) && Contains(Lower(r.model.value), t))
    || (Truthy(r.assignee) && Contains(Lower(r.assignee.value), t))
  }

  /** `filteredDevices`. */
  function FilterDevices(devices: seq<Device>, term: string): (r: seq<Device>)
    ensures forall d :: d in r <==> d in devices && MatchesSearch(d.rec, term)
  {
    Filter(devices, Searching(term))
  }

  /** The filter callback of the search box. */
  function Searching(term: string): Device -> bool {
    (d: Device) => MatchesSearch(d.rec, term)
  }

  /** The search keeps devices in their order and drops only non-matches. */
  lemma SearchIsSubsequence(devices: seq<Device>, term: string)
    ensures IsSubsequence(FilterDevices(devices, term), devices)
  {
    FilterIsSubsequence(devices, Searching(term));
  }

  /** An empty search term keeps every device. */
  lemma EmptySearchKeepsAll(devices: seq<Device>)
    ensures FilterDevices(devices, "") == devices
  {
    forall d | d in devices ensures MatchesSearch(d.rec, "") {
      ContainsEmpty(Lower(d.rec.sn));
    }
    FilterKeepsAll(devices, Searching(""));
  }

  lemma LowerIdempotent(s: string)
    ensures Lower(Lower(s)) == Lower(s)
  {
  }

  /** The search does not depend on the case of the term. */
  lemma SearchIgnoresTermCase(r: Record, term: string)
    ensures MatchesSearch(r, term) <==> MatchesSearch(r, Lower(term))
  {
    LowerIdempotent(term);
  }

  /** One row of the table as displayed. */
  datatype TableRow = TableRow(device: Device, duration: Duration, condition: Option<Verdict>, statusColor: string)

  function RowView(device: Device, now: int): TableRow
    requires RecordTimesModelled(device.rec)
  {
    TableRow(device, GetDuration(device.rec.timeIn, device.rec.timeOut, now),
             Condition(device.rec), StatusColor(device.rec.status))
  }

  /** The store after every device of `shown` has been evaluated in order. */
  function EvaluateAll(docs: map<string, Record>, shown: seq<Device>): map<string, Record>
    requires forall d :: d in shown ==> RecordTimesModelled(d.rec)
    decreases |shown|
  {
    if shown == [] then docs
    else AfterEvaluation(EvaluateAll(docs, shown[..|shown| - 1]), shown[|shown| - 1])
  }

  /** The verdict the last device of `shown` with identifier `id` and a
      time-out gets, if any. */
  function LastVerdict(shown: seq<Device>, id: string): Option<Verdict>
    requires forall d :: d in shown ==> RecordTimesModelled(d.rec)
    decreases |shown|
  {
    if shown == [] then None
    else
      var last := shown[|shown| - 1];
      if last.id == id && Condition(last.rec).Some? then Condition(last.rec)
      else LastVerdict(shown[..|shown| - 1], id)
  }

  /** After a render pass, each stored record carries the verdict of the
      last device shown with its identifier, and nothing else changed. */
  lemma {:induction false} EvaluateAllResult(docs: map<string, Record>, shown: seq<Device>)
    requires forall d :: d in shown ==> RecordTimesModelled(d.rec)
    ensures EvaluateAll(docs, shown).Keys == docs.Keys
    ensures forall k :: k in docs ==> EvaluateAll(docs, shown)[k] == Apply(docs[k], LastVerdict(shown, k))
    decreases |shown|
  {
    if shown != [] {
      var prefix := shown[..|shown| - 1];
      EvaluateAllResult(docs, prefix);
    }
  }

  /** The rows of the table for the devices shown, in order. */
  function RowsView(shown: seq<Device>, now: int): (rows: seq<TableRow>)
    requires forall d :: d in shown ==> RecordTimesModelled(d.rec)
    ensures |rows| == |shown|
    ensures forall i :: 0 <= i < |shown| ==> rows[i] == RowView(shown[i], now)
    decreases |shown|
  {
    if shown == [] then []
    else RowsView(shown[..|shown| - 1], now) + [RowView(shown[|shown| - 1], now)]
  }

  /** Viewing one more device of `shown` appends its row. */
  lemma RowsViewStep(shown: seq<Device>, i: nat, now: int)
    requires forall d :: d in shown ==> RecordTimesModelled(d.rec)
    requires i < |shown|
    ensures RowsView(shown[..i + 1], now) == RowsView(shown[..i], now) + [RowView(shown[i], now)]
  {
    assert shown[..i + 1][..i] == shown[..i];
  }

  /** Evaluating one more device of `shown` extends the evaluated prefix. */
  lemma EvaluateAllStep(docs: map<string, Record>, shown: seq<Device>, i: nat)
    requires forall d :: d in shown ==> RecordTimesModelled(d.rec)
    requires i < |shown|
    ensures EvaluateAll(docs, shown[..i + 1]) == AfterEvaluation(EvaluateAll(docs, shown[..i]), shown[i])
  {
    assert shown[..i + 1][..i] == shown[..i];
  }

  /** Rendering the same devices again leaves the store identical. */
  lemma RenderIdempotent(docs: map<string, Record>, shown: seq<Device>)
    requires forall d :: d in shown ==> RecordTimesModelled(d.rec)
    ensures EvaluateAll(EvaluateAll(docs, shown), shown) == EvaluateAll(docs, shown)
  {
    var once := EvaluateAll(docs, shown);
    var twice := EvaluateAll(once, shown);
    EvaluateAllResult(docs, shown);
    EvaluateAllResult(once, shown);
    forall k | k in once
      ensures twice[k] == once[k]
    {
      var v := LastVerdict(shown, k);
      assert once[k] == Apply(docs[k], v);
      assert twice[k] == Apply(once[k], v);
    }
    assert twice == once;
  }

  /** The row of one device: its duration, its verdict (written to the
      store) and its badge colour. */
  method RenderRow(store: StressStore, device: Device, now: int) returns (row: TableRow)
    requires RecordTimesModelled(device.rec)
    modifies store
    ensures row == RowView(device, now)
    ensures store.docs == AfterEvaluation(old(store.docs), device)
  {
    var duration := GetDuration(device.rec.timeIn, device.rec.timeOut, now);
    var condition := EvaluateCondition(store, device);
    row := TableRow(device, duration, condition, StatusColor(device.rec.status));
  }

  /** One render of the table: the devices that match the search, each with
      its duration, its verdict and its badge colour; every verdict is
      written to the store as the row is built. */
  method Render(store: StressStore, devices: seq<Device>, term: string, now: int)
    returns (rows: seq<TableRow>)
    requires forall d :: d in FilterDevices(devices, term) ==> RecordTimesModelled(d.rec)
    modifies store
    ensures var shown := FilterDevices(devices, term);
      && |rows| == |shown|
      && (forall i :: 0 <= i < |rows| ==> rows[i] == RowView(shown[i], now))
      && store.docs == EvaluateAll(old(store.docs), shown)
  {
    var shown := FilterDevices(devices, term);
    rows := [];
    var i := 0;
    while i < |shown|
      invariant 0 <= i <= |shown|
      invariant forall d :: d in shown ==> RecordTimesModelled(d.rec)
      invariant rows == RowsView(shown[..i], now)
      invariant store.docs == EvaluateAll(old(store.docs), shown[..i])
    {
      var row := RenderRow(store, shown[i], now);
      EvaluateAllStep(old(store.docs), shown, i);
      RowsViewStep(shown, i, now);
      rows := rows + [row];
      i := i + 1;
    }
    assert shown[..i] == shown;
  }
}
