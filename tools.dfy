/**
 * The store-facing helpers of backend/tools.py: the date and time normalisers, the doctor
 * listing with its weekday-key filter, and the appointment insert with its validation.
 * `dateparser.parse`, `datetime.fromisoformat` and the store itself are parameters; the
 * doctor rows are the query's result.
 */
module Tools {
  import opened Wrappers
  import opened Text
  import Calendar
  import Seqs

  type CivilDate = d: Calendar.Date | Calendar.Valid(d) witness Calendar.Date(1, 1, 1)
  type Hour = h: int | 0 <= h < 24
  type Minute = m: int | 0 <= m < 60

  /** The time of day of a parsed value, as far as `strftime("%H:%M")` prints it. */
  datatype ClockTime = ClockTime(hour: Hour, minute: Minute)

  /** A `datetime` without fraction of a second or UTC offset. */
  datatype DateTime = DateTime(date: CivilDate, hour: Hour, minute: Minute, second: Minute)

  /** A JSON value as the store returns it (numbers are integers here). */
  datatype Json = JNull | JBool(b: bool) | JNum(n: int) | JStr(s: string)
                | JArr(items: seq<Json>) | JObj(entries: seq<(string, Json)>)

  /** Python truthiness of the decoded value. */
  predicate Truthy(v: Json) {
    match v
    case JNull => false
    case JBool(b) => b
    case JNum(n) => n != 0
    case JStr(s) => s != ""
    case JArr(items) => items != []
    case JObj(entries) => entries != []
  }

  /** A row of `doctors`; `availableSlots` is None when the row has no such column. */
  datatype ToolDoctor = ToolDoctor(name: string, specialization: string, availableSlots: Option<Json>)

  // ---------------------------------------------------------------------------
  // Normalisers (lines 7-22)

  /** `normalize_date`: None for an empty input, the ISO date when the parser succeeds, the input otherwise. */
  function NormalizeDate(s: Option<string>, parseDate: string -> Option<CivilDate>): (r: Option<string>)
    ensures r.None? <==> Falsy(s)
    ensures r.Some? && parseDate(s.value).None? ==> r.value == s.value
    ensures r.Some? && parseDate(s.value).Some? ==> Calendar.DateText(r.value, '-', parseDate(s.value).value)
  {
    if Falsy(s) then None
    else match parseDate(s.value)
      case None => s
      case Some(d) => Some(Calendar.Format(d, '-'))
  }

  /** `normalize_time`: None for an empty input, `HH:MM` when the parser succeeds, the input otherwise. */
  function NormalizeTime(s: Option<string>, parseTime: string -> Option<ClockTime>): (r: Option<string>)
    ensures r.None? <==> Falsy(s)
    ensures r.Some? && parseTime(s.value).None? ==> r.value == s.value
    ensures r.Some? && parseTime(s.value).Some? ==> ClockText(r.value, parseTime(s.value).value)
  {
    if Falsy(s) then None
    else match parseTime(s.value)
      case None => s
      case Some(t) =>
        var r := Calendar.Pad2(t.hour) + ":" + Calendar.Pad2(t.minute);
        Calendar.Pad2Numeral(t.hour);
        Calendar.Pad2Numeral(t.minute);
        assert r[..2] == Calendar.Pad2(t.hour) && r[3..] == Calendar.Pad2(t.minute);
        Some(r)
  }

  /** `t` is `HH:MM`, the two fields reading as the hour and the minute. */
  predicate ClockText(t: string, c: ClockTime) {
    |t| == 5 && t[2] == ':' && Calendar.Numeral(t[..2], c.hour) && Calendar.Numeral(t[3..], c.minute)
  }

  /**
   * Normalising twice is normalising once when the parser reads its own ISO output back:
   * a normalised date is a fixed point.
   */
  lemma NormalizeDateIdempotent(s: Option<string>, parseDate: string -> Option<CivilDate>)
    requires forall d: CivilDate :: parseDate(Calendar.Format(d, '-')) == Some(d)
    ensures NormalizeDate(NormalizeDate(s, parseDate), parseDate) == NormalizeDate(s, parseDate)
  {
    if !Falsy(s) && parseDate(s.value).Some? {
      var d := parseDate(s.value).value;
      assert parseDate(Calendar.Format(d, '-')) == Some(d);
    }
  }

  // ---------------------------------------------------------------------------
  // The weekday-key filter of get_doctor_info (lines 44-65)

  /** `{k.lower(): v for k, v in slots.items()}.get(key)`: a later key lowering to the same text wins. */
  function LoweredGet(entries: seq<(string, Json)>, key: string): (r: Option<Json>)
    ensures r.None? <==> forall i :: 0 <= i < |entries| ==> Lower(entries[i].0) != key
    ensures r.Some? ==> exists i :: 0 <= i < |entries| && Lower(entries[i].0) == key && entries[i].1 == r.value
                                    && forall j :: i < j < |entries| ==> Lower(entries[j].0) != key
    decreases |entries|
  {
    if entries == [] then None
    else
      var n := |entries| - 1;
      if Lower(entries[n].0) == key then Some(entries[n].1)
      else
        var r := LoweredGet(entries[..n], key);
        assert forall i :: 0 <= i < n ==> entries[..n][i] == entries[i];
        r
  }

  /** `d.get("available_slots") or {}`. */
  function SlotsOrEmpty(d: ToolDoctor): Json {
    if d.availableSlots.None? || !Truthy(d.availableSlots.value) then JObj([]) else d.availableSlots.value
  }

  /** Whether the loop keeps `d` for the lowercased weekday abbreviation `weekday`. */
  function Keeps(weekday: string): ToolDoctor -> bool {
    (d: ToolDoctor) =>
      match SlotsOrEmpty(d)
      case JObj(entries) =>
        (match LoweredGet(entries, weekday)
         case None => false
         case Some(v) => Truthy(v))
      case _ => true
  }

  /** The keys `strftime("%a").lower()` produces, Monday first. */
  const WeekdayKeys: seq<string> := ["mon", "tue", "wed", "thu", "fri", "sat", "sun"]

  /**
   * The weekday key derived on lines 45-50: the lowercased `%a` of the normalised date, or
   * None when `fromisoformat` rejects the normalised text.
   */
  function QueryWeekday(date: string, parseDate: string -> Option<CivilDate>,
                        fromIsoDate: string -> Option<CivilDate>): (w: Option<string>)
    requires date != ""
    ensures var iso := NormalizeDate(Some(date), parseDate).value;
      && (w.Some? <==> fromIsoDate(iso).Some?)
      && (w.Some? ==> w.value == WeekdayKeys[Calendar.Weekday(fromIsoDate(iso).value)])
  {
    var iso := NormalizeDate(Some(date), parseDate).value;
    match fromIsoDate(iso)
    case None => None
    case Some(d) =>
      LoweredAbbrevs();
      Some(Lower(Calendar.WeekdayAbbrev(d)))
  }

  /** `%a` lowered, weekday by weekday. */
  lemma LoweredAbbrevs()
    ensures forall k :: 0 <= k < 7 ==> Lower(Calendar.DayNames[k][..3]) == WeekdayKeys[k]
  {
    assert Lower("Mon") == "mon" && Lower("Tue") == "tue" && Lower("Wed") == "wed";
    assert Lower("Thu") == "thu" && Lower("Fri") == "fri" && Lower("Sat") == "sat" && Lower("Sun") == "sun";
    assert forall k :: 0 <= k < 7 ==> Calendar.DayNames[k][..3] == ["Mon", "Tue", "Wed", "Thu", "Fri", "Sat", "Sun"][k];
  }

  /** What `get_doctor_info` returns: the dict `{"doctors": rows}`. */
  datatype DoctorInfo = DoctorInfo(doctors: seq<ToolDoctor>)

  /** `get_doctor_info` after the query: the rows, filtered by weekday key when a weekday could be derived. */
  method GetDoctorInfo(doctors: seq<ToolDoctor>, date: Option<string>,
                       parseDate: string -> Option<CivilDate>, fromIsoDate: string -> Option<CivilDate>)
    returns (info: DoctorInfo)
    ensures Falsy(date) ==> info.doctors == doctors
    ensures !Falsy(date) && QueryWeekday(date.value, parseDate, fromIsoDate).None? ==> info.doctors == doctors
    ensures !Falsy(date) && QueryWeekday(date.value, parseDate, fromIsoDate).Some? ==>
      info.doctors == Seqs.Filter(doctors, Keeps(QueryWeekday(date.value, parseDate, fromIsoDate).value))
  {
    var result := doctors;
    if Falsy(date) {
      return DoctorInfo(result);
    }
    var weekday := QueryWeekday(date.value, parseDate, fromIsoDate);
    if weekday.Some? && weekday.value != "" {
      var keep := Keeps(weekday.value);
      var filtered := [];
      var i := 0;
      while i < |doctors|
        invariant 0 <= i <= |doctors|
        invariant filtered == Seqs.Filter(doctors[..i], keep)
      {
        var d := doctors[i];
        Seqs.FilterSnoc(doctors[..i], d, keep);
        assert doctors[..i + 1] == doctors[..i] + [d];
        var slots := SlotsOrEmpty(d);
        if slots.JObj? {
          var found := LoweredGet(slots.entries, weekday.value);
          if found.Some? && Truthy(found.value) {
            filtered := filtered + [d];
          }
        } else {
          filtered := filtered + [d];
        }
        i := i + 1;
      }
      assert doctors[..i] == doctors;
      result := filtered;
    }
    info := DoctorInfo(result);
  }

  /** The filter only deletes rows and keeps the order of the rest. */
  lemma WeekdayFilterIsSubseq(doctors: seq<ToolDoctor>, weekday: string)
    ensures Seqs.IsSubseq(Seqs.Filter(doctors, Keeps(weekday)), doctors)
  {
    Seqs.FilterIsSubseq(doctors, Keeps(weekday));
  }

  /** A row without `available_slots`, or with an empty or false value there, is dropped. */
  lemma MissingSlotsDropped(doctors: seq<ToolDoctor>, weekday: string, d: ToolDoctor)
    requires d.availableSlots.None? || !Truthy(d.availableSlots.value)
    ensures d !in Seqs.Filter(doctors, Keeps(weekday))
  {
    Seqs.FilterMember(doctors, Keeps(weekday), d);
  }

  /** A row whose `available_slots` is present but not an object is kept. */
  lemma NonObjectSlotsKept(doctors: seq<ToolDoctor>, weekday: string, d: ToolDoctor)
    requires d.availableSlots.Some? && Truthy(d.availableSlots.value) && !d.availableSlots.value.JObj?
    ensures d in Seqs.Filter(doctors, Keeps(weekday)) <==> d in doctors
  {
    Seqs.FilterMember(doctors, Keeps(weekday), d);
  }

  /**
   * A row with an object of slots is kept exactly when some key lowers to the weekday and the
   * value under the last such key is truthy.
   */
  lemma ObjectSlotsKeptIff(doctors: seq<ToolDoctor>, weekday: string, d: ToolDoctor, entries: seq<(string, Json)>)
    requires d.availableSlots == Some(JObj(entries))
    ensures d in Seqs.Filter(doctors, Keeps(weekday)) <==>
      d in doctors
      && exists i :: 0 <= i < |entries| && Lower(entries[i].0) == weekday && Truthy(entries[i].1)
                     && forall j :: i < j < |entries| ==> Lower(entries[j].0) != weekday
  {
    Seqs.FilterMember(doctors, Keeps(weekday), d);
    var r := LoweredGet(entries, weekday);
    if r.Some? {
      var i :| 0 <= i < |entries| && Lower(entries[i].0) == weekday && entries[i].1 == r.value
               && forall j :: i < j < |entries| ==> Lower(entries[j].0) != weekday;
      forall i' | 0 <= i' < |entries| && Lower(entries[i'].0) == weekday
                  && forall j :: i' < j < |entries| ==> Lower(entries[j].0) != weekday
        ensures i' == i
      {
      }
    }
  }

  // ---------------------------------------------------------------------------
  // book_appointment (lines 69-97)

  const ParseErrorMessage := "Could not parse date/time. Please provide clearer date and time."
  const CombinationErrorMessage := "Invalid date/time combination."

  /** The record sent to `appointments`. */
  datatype Payload = Payload(doctorId: int, patientName: string, startDatetime: string)

  /** What the store answers to an insert: an error, or the inserted rows. */
  datatype StoreResponse = StoreResponse(error: Option<string>, data: Json)

  /** The returned dict: `{"error": …}` or `{"appointment": …}`. */
  datatype ToolResult = Failure(error: string) | Booked(appointment: Json)

  /** The result together with the insert that was attempted, if any. */
  datatype Outcome = Outcome(result: ToolResult, inserted: Option<Payload>)

  /** `f"{iso_date}T{iso_time}:00"`. */
  function StartIso(isoDate: string, isoTime: string): (s: string)
    ensures |s| == |isoDate| + |isoTime| + 4
    ensures s[..|isoDate|] == isoDate && s[|isoDate|] == 'T'
    ensures s[|isoDate| + 1..|isoDate| + 1 + |isoTime|] == isoTime
    ensures s[|s| - 3..] == ":00"
  {
    isoDate + "T" + isoTime + ":00"
  }

  /** `datetime.isoformat()` for a value without fraction of a second or offset. */
  function IsoDateTime(dt: DateTime): (s: string)
    ensures |s| == 19 && Calendar.DateText(s[..10], '-', dt.date) && s[10] == 'T'
    ensures Calendar.Numeral(s[11..13], dt.hour) && s[13] == ':'
    ensures Calendar.Numeral(s[14..16], dt.minute) && s[16] == ':' && Calendar.Numeral(s[17..], dt.second)
  {
    var date := Calendar.Format(dt.date, '-');
    var s := date + "T" + Calendar.Pad2(dt.hour) + ":" + Calendar.Pad2(dt.minute) + ":" + Calendar.Pad2(dt.second);
    Calendar.Pad2Numeral(dt.hour);
    Calendar.Pad2Numeral(dt.minute);
    Calendar.Pad2Numeral(dt.second);
    assert s[..10] == date && s[11..13] == Calendar.Pad2(dt.hour);
    assert s[14..16] == Calendar.Pad2(dt.minute) && s[17..] == Calendar.Pad2(dt.second);
    s
  }

  function BookAppointment(doctorId: int, patientName: string, date: string, time: string,
                           parseDate: string -> Option<CivilDate>, parseTime: string -> Option<ClockTime>,
                           fromIso: string -> Option<DateTime>, store: Payload -> StoreResponse): (o: Outcome)
    ensures date == "" || time == "" ==> o == Outcome(Failure(ParseErrorMessage), None)
    ensures o.inserted.Some? <==>
      date != "" && time != ""
      && fromIso(StartIso(NormalizeDate(Some(date), parseDate).value, NormalizeTime(Some(time), parseTime).value)).Some?
    ensures o.inserted.Some? ==>
      var start := StartIso(NormalizeDate(Some(date), parseDate).value, NormalizeTime(Some(time), parseTime).value);
      && o.inserted.value == Payload(doctorId, patientName, IsoDateTime(fromIso(start).value))
      && o.result == (if Falsy(store(o.inserted.value).error) then Booked(store(o.inserted.value).data)
                      else Failure(store(o.inserted.value).error.value))
    ensures o.inserted.None? ==> o.result.Failure?
    ensures o.inserted.None? && date != "" && time != "" ==> o.result == Failure(CombinationErrorMessage)
  {
    var isoDate := NormalizeDate(Some(date), parseDate);
    var isoTime := NormalizeTime(Some(time), parseTime);
    if Falsy(isoDate) || Falsy(isoTime) then Outcome(Failure(ParseErrorMessage), None)
    else
      var start := StartIso(isoDate.value, isoTime.value);
      match fromIso(start)
      case None => Outcome(Failure(CombinationErrorMessage), None)
      case Some(dt) =>
        var payload := Payload(doctorId, patientName, IsoDateTime(dt));
        var res := store(payload);
        if !Falsy(res.error) then Outcome(Failure(res.error.value), Some(payload))
        else Outcome(Booked(res.data), Some(payload))
  }

  /**
   * When both parsers understand their input and `fromisoformat` reads back the combined
   * string, the stored `start_datetime` is the parsed date, "T", the parsed time and ":00".
   */
  lemma StoredStartIsCombined(doctorId: int, patientName: string, date: string, time: string,
                              parseDate: string -> Option<CivilDate>, parseTime: string -> Option<ClockTime>,
                              fromIso: string -> Option<DateTime>, store: Payload -> StoreResponse,
                              d: CivilDate, t: ClockTime)
    requires date != "" && time != ""
    requires parseDate(date) == Some(d) && parseTime(time) == Some(t)
    requires fromIso(IsoDateTime(DateTime(d, t.hour, t.minute, 0))) == Some(DateTime(d, t.hour, t.minute, 0))
    ensures BookAppointment(doctorId, patientName, date, time, parseDate, parseTime, fromIso, store).inserted
            == Some(Payload(doctorId, patientName,
                            Calendar.Format(d, '-') + "T" + Calendar.Pad2(t.hour) + ":" + Calendar.Pad2(t.minute) + ":00"))
  {
    assert NormalizeDate(Some(date), parseDate) == Some(Calendar.Format(d, '-'));
    assert NormalizeTime(Some(time), parseTime) == Some(Calendar.Pad2(t.hour) + ":" + Calendar.Pad2(t.minute));
    var start := StartIso(Calendar.Format(d, '-'), Calendar.Pad2(t.hour) + ":" + Calendar.Pad2(t.minute));
    assert Calendar.Pad2(0) == "00";
    assert start == IsoDateTime(DateTime(d, t.hour, t.minute, 0));
    assert fromIso(start) == Some(DateTime(d, t.hour, t.minute, 0));
    assert BookAppointment(doctorId, patientName, date, time, parseDate, parseTime, fromIso, store).inserted
           == Some(Payload(doctorId, patientName, start));
    assert start == Calendar.Format(d, '-') + "T" + Calendar.Pad2(t.hour) + ":" + Calendar.Pad2(t.minute) + ":00";
  }
}
