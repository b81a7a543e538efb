/**
 * The add/edit form of the stress-test page: the conversions between the
 * stored 12-hour "h:mm AM" times and the form's 24-hour "HH:MM" inputs, the
 * form state, field edits, and what a submit hands back to the page.
 */
module DeviceForm {
  import opened Options
  import opened Text
  import opened Records
  import StressTable

  // ---------------------------------------------------------------------
  // amPmTo24h: "h:mm AM" -> "HH:MM"
  // ---------------------------------------------------------------------

  /** The stored times `amPmTo24h` can convert: the empty string, or a first
      token with a ':' whose hour and minute texts `Number` is modelled on. A
      token without ':' leaves `minute` undefined and the conversion throws. */
  predicate ConvertibleAmPm(time: string) {
    || time == ""
    || (&& StressTable.MinuteText(time).Some?
        && NumberModelled(StressTable.HourText(time))
        && NumberModelled(StressTable.MinuteText(time).value))
  }

  function Plus12(x: Num): Num {
    match x
    case Val(n) => Val(n + 12)
    case NaN => NaN
  }

  /** `amPmTo24h`: "" stays ""; "12 AM" becomes 0; a PM hour other than 12
      gains 12 (also one above 12); both numbers are padded to two digits. */
  function AmPmTo24h(time: string): (r: string)
    requires ConvertibleAmPm(time)
    ensures time == "" <==> r == ""
  {
    if time == "" then ""
    else
      var hour := JsNumber(StressTable.HourText(time));
      var minute := JsNumber(StressTable.MinuteText(time).value);
      Pad2(NumText(Hour24(hour, StressTable.Meridiem(time)))) + ":" + Pad2(NumText(minute))
  }

  /** The hour `amPmTo24h` computes from the hour it read and the modifier:
      NaN stays NaN, a number is converted as `To24` converts it. */
  function Hour24(hour: Num, period: string): (r: Num)
    ensures hour.NaN? ==> r.NaN?
    ensures hour.Val? ==> r == Val(To24(hour.n, period))
  {
    if period == "PM" && hour != Val(12) then Plus12(hour)
    else if period == "AM" && hour == Val(12) then Val(0)
    else hour
  }

  /** The 24-hour text "HH:MM" an `<input type="time">` holds. */
  function Clock24(h: nat, m: nat): string {
    Pad2(NatToString(h)) + ":" + Pad2(NatToString(m))
  }

  /** The hour `amPmTo24h` gives a numeric hour under a modifier. */
  function To24(h: nat, modifier: string): nat {
    if modifier == "PM" && h != 12 then h + 12
    else if modifier == "AM" && h == 12 then 0
    else h
  }

  /** `amPmTo24h` on a time whose hour and minute texts are printed
      numbers. */
  lemma AmPmTo24hOfPieces(time: string, h: nat, m: nat)
    requires time != ""
    requires StressTable.HourText(time) == NatToString(h)
    requires StressTable.MinuteText(time) == Some(Pad2(NatToString(m)))
    ensures ConvertibleAmPm(time)
    ensures AmPmTo24h(time) == Clock24(To24(h, StressTable.Meridiem(time)), m)
  {
    JsNumberOfPrinted(h);
    JsNumberOfPrinted(m);
    var period := StressTable.Meridiem(time);
    assert JsNumber(StressTable.HourText(time)) == Val(h);
    assert JsNumber(StressTable.MinuteText(time).value) == Val(m);
    assert Hour24(Val(h), period) == Val(To24(h, period));
  }

  /** `amPmTo24h` on a canonical 12-hour text. */
  lemma AmPmTo24hOfClockText(h: nat, m: nat, modifier: string)
    requires modifier != "" && ' ' !in modifier
    ensures ConvertibleAmPm(StressTable.ClockText(h, m, modifier))
    ensures AmPmTo24h(StressTable.ClockText(h, m, modifier)) == Clock24(To24(h, modifier), m)
  {
    var hourText, minuteText := NatToString(h), Pad2(NatToString(m));
    var s := StressTable.ClockText(h, m, modifier);
    assert IsDigits(hourText);
    PaddedValue(m);
    StressTable.TimePieces(hourText, minuteText, modifier);
    assert s == hourText + ":" + minuteText + " " + modifier;
    AmPmTo24hOfPieces(s, h, m);
  }

  // ---------------------------------------------------------------------
  // formatToAmPm: "HH:MM" -> "h:mm AM"
  // ---------------------------------------------------------------------

  /** The form times `formatToAmPm` can convert: a ':' and hour and minute
      texts `Number` is modelled on (a text without ':' throws). */
  predicate ConvertibleClock(time: string) {
    var parts := Split(time, ':');
    |parts| >= 2 && NumberModelled(parts[0]) && NumberModelled(parts[1])
  }

  /** The 12-hour clock hour of an hour of the day: 0 and 12 show as 12. */
  function Hour12(h: nat): (r: nat)
    ensures 1 <= r <= 12
  {
    if h % 12 == 0 then 12 else h % 12
  }

  function PeriodOf(h: nat): string {
    if h >= 12 then "PM" else "AM"
  }

  /** `formatToAmPm`: PM iff the hour is at least 12; the hour modulo 12
      with 0 shown as 12 and no padding (a NaN hour also shows as 12); the
      minute padded to two digits. */
  function FormatToAmPm(time: string): (r: string)
    requires ConvertibleClock(time)
    ensures r != ""
  {
    var parts := Split(time, ':');
    var hour := JsNumber(parts[0]);
    var minute := JsNumber(parts[1]);
    var period := if hour.Val? && hour.n >= 12 then "PM" else "AM";
    var hour12 := if hour.Val? && hour.n % 12 != 0 then hour.n % 12 else 12;
    NatToString(hour12) + ":" + Pad2(NumText(minute)) + " " + period
  }

  /** A 24-hour text splits at ':' into its two padded numbers. */
  lemma Clock24Split(h: nat, m: nat)
    ensures Split(Clock24(h, m), ':') == [Pad2(NatToString(h)), Pad2(NatToString(m))]
  {
    var hh, mm := Pad2(NatToString(h)), Pad2(NatToString(m));
    PaddedValue(h);
    PaddedValue(m);
    assert ':' !in hh && ':' !in mm;
    assert Clock24(h, m) == hh + [':'] + mm;
    SplitAround(hh, ':', mm);
    SplitWithoutSeparator(hh, ':');
    SplitWithoutSeparator(mm, ':');
  }

  /** `formatToAmPm` on a 24-hour text gives the canonical 12-hour text. */
  lemma FormatClock24(h: nat, m: nat)
    ensures ConvertibleClock(Clock24(h, m))
    ensures FormatToAmPm(Clock24(h, m)) == StressTable.ClockText(Hour12(h), m, PeriodOf(h))
  {
    Clock24Split(h, m);
    JsNumberOfPrinted(h);
    JsNumberOfPrinted(m);
    var parts := Split(Clock24(h, m), ':');
    assert JsNumber(parts[0]) == Val(h) && JsNumber(parts[1]) == Val(m);
    assert ConvertibleClock(Clock24(h, m));
    var hour12 := if h % 12 != 0 then h % 12 else 12;
    assert hour12 == Hour12(h);
    var period := if h >= 12 then "PM" else "AM";
    assert period == PeriodOf(h);
    assert FormatToAmPm(Clock24(h, m))
        == NatToString(hour12) + ":" + Pad2(NumText(Val(m))) + " " + period;
  }

  /** parseTime reads a 12-hour reading of an hour of the day as that hour. */
  lemma HourOfDayOfHour12(h: nat)
    requires h < 24
    ensures StressTable.HourOfDay(Val(Hour12(h)), PeriodOf(h)) == Val(h)
  {
  }

  /** Converting an hour of the day to 12-hour form and back is the identity. */
  lemma To24OfHour12(h: nat)
    requires h < 24
    ensures To24(Hour12(h), PeriodOf(h)) == h
  {
  }

  /** Converting a 12-hour reading to an hour of the day and back is the
      identity. */
  lemma Hour12OfTo24(h: nat, modifier: string)
    requires 1 <= h <= 12 && (modifier == "AM" || modifier == "PM")
    ensures To24(h, modifier) < 24
    ensures Hour12(To24(h, modifier)) == h && PeriodOf(To24(h, modifier)) == modifier
  {
  }

  /** Round trip: for an hour of the day, `amPmTo24h(formatToAmPm("HH:MM"))`
      gives back the same "HH:MM". */
  lemma Clock24RoundTrip(h: nat, m: nat)
    requires h < 24
    ensures ConvertibleClock(Clock24(h, m))
    ensures ConvertibleAmPm(FormatToAmPm(Clock24(h, m)))
    ensures AmPmTo24h(FormatToAmPm(Clock24(h, m))) == Clock24(h, m)
  {
    FormatClock24(h, m);
    AmPmTo24hOfClockText(Hour12(h), m, PeriodOf(h));
    To24OfHour12(h);
  }

  /** Round trip the other way: a canonical 12-hour reading converted for
      the time input and formatted back on submit is unchanged. */
  lemma ClockTextRoundTrip(h: nat, m: nat, modifier: string)
    requires 1 <= h <= 12 && (modifier == "AM" || modifier == "PM")
    ensures ConvertibleAmPm(StressTable.ClockText(h, m, modifier))
    ensures ConvertibleClock(AmPmTo24h(StressTable.ClockText(h, m, modifier)))
    ensures FormatToAmPm(AmPmTo24h(StressTable.ClockText(h, m, modifier)))
         == StressTable.ClockText(h, m, modifier)
  {
    AmPmTo24hOfClockText(h, m, modifier);
    Hour12OfTo24(h, modifier);
    FormatClock24(To24(h, modifier), m);
  }

  /** What the form stores is read by the table as the time that was
      entered: `parseTime(formatToAmPm("HH:MM"))` is HH:MM today. */
  lemma TableReadsFormattedTime(h: nat, m: nat)
    requires h < 24
    ensures ConvertibleClock(Clock24(h, m))
    ensures StressTable.TimeTextModelled(FormatToAmPm(Clock24(h, m)))
    ensures StressTable.ParseTime(FormatToAmPm(Clock24(h, m)))
         == Some(StressTable.At((h * 60 + m) * StressTable.MsPerMinute))
  {
    FormatClock24(h, m);
    ParseTwelveHourReading(FormatToAmPm(Clock24(h, m)), h, m);
  }

  /** parseTime reads the 12-hour text of an hour of the day as that hour. */
  lemma ParseTwelveHourReading(t: string, h: nat, m: nat)
    requires h < 24
    requires t == StressTable.ClockText(Hour12(h), m, PeriodOf(h))
    ensures StressTable.TimeTextModelled(t)
    ensures StressTable.ParseTime(t) == Some(StressTable.At((h * 60 + m) * StressTable.MsPerMinute))
  {
    HourOfDayOfHour12(h);
    StressTable.ParseClockTextAt(Hour12(h), m, PeriodOf(h), h);
  }

  /** The two readers disagree on a PM hour above 12: `amPmTo24h` adds 12,
      `parseTime` keeps the hour. */
  lemma PmAboveTwelve(h: nat, m: nat)
    requires h > 12
    ensures ConvertibleAmPm(StressTable.ClockText(h, m, "PM"))
    ensures AmPmTo24h(StressTable.ClockText(h, m, "PM")) == Clock24(h + 12, m)
    ensures StressTable.TimeTextModelled(StressTable.ClockText(h, m, "PM"))
    ensures StressTable.ParseTime(StressTable.ClockText(h, m, "PM"))
         == Some(StressTable.At((h * 60 + m) * StressTable.MsPerMinute))
  {
    var t := StressTable.ClockText(h, m, "PM");
    PmAboveTwelveConverted(t, h, m);
    PmAboveTwelveParsed(t, h, m);
  }

  lemma PmAboveTwelveConverted(t: string, h: nat, m: nat)
    requires h > 12
    requires t == StressTable.ClockText(h, m, "PM")
    ensures ConvertibleAmPm(t) && AmPmTo24h(t) == Clock24(h + 12, m)
  {
    AmPmTo24hOfClockText(h, m, "PM");
    assert To24(h, "PM") == h + 12;
  }

  lemma PmAboveTwelveParsed(t: string, h: nat, m: nat)
    requires h > 12
    requires t == StressTable.ClockText(h, m, "PM")
    ensures StressTable.TimeTextModelled(t)
    ensures StressTable.ParseTime(t) == Some(StressTable.At((h * 60 + m) * StressTable.MsPerMinute))
  {
    StressTable.ParseClockTextAt(h, m, "PM", h);
  }

  // ---------------------------------------------------------------------
  // Form state
  // ---------------------------------------------------------------------

  /** `formData`: batteries as integers, times in 24-hour form. */
  datatype FormData = FormData(
    imei: string,
    sn: string,
    osVersion: string,
    beforeBattery: int,
    afterBattery: int,
    timeIn: string,
    timeOut: string,
    status: string,
    remarks: string,
    assignee: string,
    notes: string,
    model: string)

  /** The form of a new device. */
  const InitialForm := FormData("", "", "", 0, 0, "", "", "Active", "", "", "", "")

  /** The form filled in from a stored device (the effect on `device`): times
      converted to 24-hour form, a missing assignee or model shown as "". */
  function FormOf(r: Record): (f: FormData)
    requires ConvertibleAmPm(r.timeIn) && ConvertibleAmPm(r.timeOut)
    ensures r.assignee.None? ==> f.assignee == ""
    ensures r.model.None? ==> f.model == ""
    ensures f.timeOut == "" <==> r.timeOut == ""
  {
    FormData(r.imei, r.sn, r.osVersion, r.beforeBattery, r.afterBattery,
             AmPmTo24h(r.timeIn), AmPmTo24h(r.timeOut), r.status, r.remarks,
             if Truthy(r.assignee) then r.assignee.value else "",
             r.notes,
             if Truthy(r.model) then r.model.value else "")
  }

  /** The text inputs `handleChange` is called for. */
  datatype TextField = Imei | Sn | OsVersion | TimeIn | TimeOut | Status | Remarks | Assignee | Notes | Model

  /** The number inputs. */
  datatype BatteryField = BeforeBattery | AfterBattery

  function GetText(f: FormData, field: TextField): string {
    match field
    case Imei => f.imei
    case Sn => f.sn
    case OsVersion => f.osVersion
    case TimeIn => f.timeIn
    case TimeOut => f.timeOut
    case Status => f.status
    case Remarks => f.remarks
    case Assignee => f.assignee
    case Notes => f.notes
    case Model => f.model
  }

  function GetBattery(f: FormData, field: BatteryField): int {
    match field
    case BeforeBattery => f.beforeBattery
    case AfterBattery => f.afterBattery
  }

  /** `{ ...prev, [field]: value }` for a text field. */
  function SetText(f: FormData, field: TextField, value: string): (g: FormData)
    ensures forall k :: GetText(g, k) == if k == field then value else GetText(f, k)
    ensures forall b :: GetBattery(g, b) == GetBattery(f, b)
  {
    match field
    case Imei => f.(imei := value)
    case Sn => f.(sn := value)
    case OsVersion => f.(osVersion := value)
    case TimeIn => f.(timeIn := value)
    case TimeOut => f.(timeOut := value)
    case Status => f.(status := value)
    case Remarks => f.(remarks := value)
    case Assignee => f.(assignee := value)
    case Notes => f.(notes := value)
    case Model => f.(model := value)
  }

  /** `{ ...prev, [field]: value }` for a battery field. */
  function SetBattery(f: FormData, field: BatteryField, value: int): (g: FormData)
    ensures forall k :: GetText(g, k) == GetText(f, k)
    ensures forall b :: GetBattery(g, b) == if b == field then value else GetBattery(f, b)
  {
    match field
    case BeforeBattery => f.(beforeBattery := value)
    case AfterBattery => f.(afterBattery := value)
  }

  // ---------------------------------------------------------------------
  // handleSubmit
  // ---------------------------------------------------------------------

  /** What `onSave` receives: a new record without an id, or the edited
      device. */
  datatype FormOutput = Added(rec: Record) | Edited(device: Device)

  /** The forms a submit can format: the required time-in input holds
      "HH:MM"; an empty time-out is not formatted. */
  predicate Submittable(f: FormData) {
    ConvertibleClock(f.timeIn) && (f.timeOut != "" ==> ConvertibleClock(f.timeOut))
  }

  /** `formattedData`: time-in always reformatted, an empty time-out kept. */
  function Formatted(f: FormData): (g: FormData)
    requires Submittable(f)
    ensures g.timeIn == FormatToAmPm(f.timeIn)
    ensures g.timeOut == (if f.timeOut == "" then "" else FormatToAmPm(f.timeOut))
    ensures g.(timeIn := f.timeIn, timeOut := f.timeOut) == f
  {
    f.(timeIn := FormatToAmPm(f.timeIn),
       timeOut := if f.timeOut != "" then FormatToAmPm(f.timeOut) else "")
  }

  /** `{ ...record, ...form }`: every form field replaces the record's; the
      fields the form does not have (the stored `result`) are kept. */
  function Overlay(r: Record, f: FormData): (o: Record)
    ensures o.result == r.result
    ensures o.assignee == Some(f.assignee) && o.model == Some(f.model)
    ensures o == NewRecord(f).(result := r.result)
  {
    r.(imei := f.imei, sn := f.sn, osVersion := f.osVersion,
       beforeBattery := f.beforeBattery, afterBattery := f.afterBattery,
       timeIn := f.timeIn, timeOut := f.timeOut, status := f.status,
       remarks := f.remarks, notes := f.notes,
       assignee := Some(f.assignee), model := Some(f.model))
  }

  /** The record a new device is saved as: the form's fields alone. */
  function NewRecord(f: FormData): (r: Record)
    ensures r.result.None?
  {
    Record(f.imei, f.sn, f.osVersion, f.beforeBattery, f.afterBattery,
           f.timeIn, f.timeOut, f.status, f.remarks, f.notes,
           Some(f.assignee), Some(f.model), None)
  }

  /** `handleSubmit`: an edit keeps the device's id and stored fields,
      overridden by the form; a new device carries no id. */
  function Submitted(f: FormData, device: Option<Device>): (out: FormOutput)
    requires Submittable(f)
    ensures out.Added? <==> device.None?
    ensures out.Edited? ==> out.device.id == device.value.id
    ensures out.Edited? ==> out.device.rec == Overlay(device.value.rec, Formatted(f))
    ensures out.Added? ==> out.rec == NewRecord(Formatted(f))
  {
    var formatted := Formatted(f);
    match device
    case Some(d) => Edited(Device(d.id, Overlay(d.rec, formatted)))
    case None => Added(NewRecord(formatted))
  }

  /** A stored time in canonical 12-hour form. */
  ghost predicate CanonicalTime(t: string) {
    exists h: nat, m: nat, modifier: string ::
      && 1 <= h <= 12 && (modifier == "AM" || modifier == "PM")
      && t == StressTable.ClockText(h, m, modifier)
  }

  lemma CanonicalTimeRoundTrip(t: string)
    requires CanonicalTime(t)
    ensures ConvertibleAmPm(t) && ConvertibleClock(AmPmTo24h(t))
    ensures FormatToAmPm(AmPmTo24h(t)) == t
  {
    var h: nat, m: nat, modifier: string :|
      && 1 <= h <= 12 && (modifier == "AM" || modifier == "PM")
      && t == StressTable.ClockText(h, m, modifier);
    ClockTextRoundTrip(h, m, modifier);
  }

  /** Opening a device in the form and saving it unchanged gives back the
      same device, when its times are canonical and its assignee and model
      fields are present and non-empty. */
  lemma ResubmitUnchanged(d: Device)
    requires CanonicalTime(d.rec.timeIn)
    requires d.rec.timeOut == "" || CanonicalTime(d.rec.timeOut)
    requires Truthy(d.rec.assignee) && Truthy(d.rec.model)
    ensures ConvertibleAmPm(d.rec.timeIn) && ConvertibleAmPm(d.rec.timeOut)
    ensures Submittable(FormOf(d.rec))
    ensures Submitted(FormOf(d.rec), Some(d)) == Edited(d)
  {
    CanonicalTimeRoundTrip(d.rec.timeIn);
    if d.rec.timeOut != "" {
      CanonicalTimeRoundTrip(d.rec.timeOut);
    }
  }

  /** The form component: its state `formData` and the device it edits. */
  class DeviceFormState {
    var formData: FormData
    const device: Option<Device>

    /** The initial state: status "Active", both batteries 0, all text "". */
    constructor (device: Option<Device>)
      ensures this.device == device
      ensures formData == InitialForm
      ensures formData.status == "Active" && formData.beforeBattery == 0 && formData.afterBattery == 0
      ensures forall k :: k != Status ==> GetText(formData, k) == ""
    {
      this.device := device;
      formData := InitialForm;
    }

    /** The effect on `device`: a device being edited fills the form. */
    method Load()
      requires device.Some? ==> ConvertibleAmPm(device.value.rec.timeIn)
      requires device.Some? ==> ConvertibleAmPm(device.value.rec.timeOut)
      modifies this
      ensures formData == if device.Some? then FormOf(device.value.rec) else old(formData)
    {
      if device.Some? {
        formData := FormOf(device.value.rec);
      }
    }

    /** `handleChange` on a text input: only the named field changes. */
    method HandleChange(field: TextField, value: string)
      modifies this
      ensures formData == SetText(old(formData), field, value)
    {
      formData := SetText(formData, field, value);
    }

    /** `handleChange` on a battery input. */
    method HandleBatteryChange(field: BatteryField, value: int)
      modifies this
      ensures formData == SetBattery(old(formData), field, value)
    {
      formData := SetBattery(formData, field, value);
    }

    /** `handleSubmit`: what is handed to `onSave`. */
    method HandleSubmit() returns (out: FormOutput)
      requires Submittable(formData)
      ensures out == Submitted(formData, device)
      ensures device.Some? ==> out.Edited? && out.device.id == device.value.id
      ensures device.None? ==> out.Added?
    {
      var formatted := Formatted(formData);
      if device.Some? {
        out := Edited(Device(device.value.id, Overlay(device.value.rec, formatted)));
      } else {
        out := Added(NewRecord(formatted));
      }
    }
  }
}
