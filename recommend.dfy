/**
 * The doctor-recommendation handler, backend/Nodes/rec_doc.py (`RecommendDoctor.__call__`).
 *
 * Its availability loop appends every doctor row and then, behind it, the first availability
 * row whose window admits the requested time. Formatting the list reads `Name` from each row,
 * so an availability row raises KeyError, which the handler's own `except` turns into an
 * error message. The lemmas below relate that behaviour to the intended filter
 * `Scheduling.Available`.
 */
module Recommend {
  import opened Wrappers
  import opened Text
  import Calendar
  import opened Scheduling
  import Seqs

  /** The fields the handler reads from the conversation state. */
  datatype Request = Request(specialization: Option<string>, date: Option<string>, time: Option<string>)

  /** An element of `available_doctors`: a doctor row or, by the loop's slip, an availability row. */
  datatype Row = DoctorRow(doctor: Doctor) | SlotRow(slot: Slot)

  const NoSpecializationMessage := "Please specify the specialization you are looking for."

  function NoneFoundMessage(spec: string): string {
    "Sorry, I couldn\U{2019}t find any available " + spec + "s right now."
  }

  /** " on {date} at {time}" when both are present, as on lines 103 and 117. */
  function WhenSuffix(date: string, time: Option<string>): string {
    if date != "" && !Falsy(time) then " on " + date + " at " + time.value else ""
  }

  function NoneAvailableMessage(spec: string, date: string, time: Option<string>): string {
    "No " + spec + " doctors are available" + WhenSuffix(date, time) + "."
  }

  /** The text of the KeyError raised by `d['Name']`, as the `except` clause prints it. */
  const FetchErrorMessage := "Error fetching doctor data: 'Name'"

  function DoctorLine(d: Doctor): string {
    "- Dr. " + d.name + " (" + d.qualification + ", " + IntToDecimal(d.experience)
    + " yrs exp, Room " + d.room + ")"
  }

  function DoctorLines(ds: seq<Doctor>): seq<string>
    decreases |ds|
  {
    if ds == [] then [] else [DoctorLine(ds[0])] + DoctorLines(ds[1..])
  }

  function RecommendMessage(spec: string, date: string, time: Option<string>, lines: seq<string>): string {
    "I recommend consulting a " + spec + ".\nHere are some available doctors" + WhenSuffix(date, time)
    + ":\n" + Join(lines, "\n") + "\nWould you like to book an appointment with one?"
  }

  // ---------------------------------------------------------------------------
  // The accumulation loop (lines 73-95)

  /** The first slot whose window admits `time`, where the inner loop breaks. */
  function FirstMatch(slots: seq<Slot>, time: string): (r: Option<Slot>)
    ensures r.None? <==> !HasSlotAt(slots, time)
    ensures r.Some? ==> exists i :: 0 <= i < |slots| && slots[i] == r.value && InWindow(time, slots[i])
                                    && forall k :: 0 <= k < i ==> !InWindow(time, slots[k])
    decreases |slots|
  {
    if slots == [] then None
    else if InWindow(time, slots[0]) then Some(slots[0])
    else
      var r := FirstMatch(slots[1..], time);
      assert forall k :: 1 <= k < |slots| ==> slots[k] == slots[1..][k - 1];
      r
  }

  /** The rows one doctor contributes: the doctor, then its first admitting slot if any. */
  function RowsFor(doc: Doctor, slots: seq<Slot>, time: string): seq<Row> {
    [DoctorRow(doc)] + match FirstMatch(slots, time) {
      case None => []
      case Some(s) => [SlotRow(s)]
    }
  }

  /** `available_doctors` after the loop has visited `doctors`. */
  function Accumulated(doctors: seq<Doctor>, availability: int -> seq<Slot>, time: string): seq<Row>
    decreases |doctors|
  {
    if doctors == [] then []
    else
      var last := doctors[|doctors| - 1];
      Accumulated(doctors[..|doctors| - 1], availability, time) + RowsFor(last, availability(last.id), time)
  }

  /** The loop as written: append the doctor, skip it without slots, else append the first admitting slot. */
  method AccumulateRows(doctors: seq<Doctor>, availability: int -> seq<Slot>, time: string)
    returns (rows: seq<Row>)
    ensures rows == Accumulated(doctors, availability, time)
  {
    rows := [];
    var i := 0;
    while i < |doctors|
      invariant 0 <= i <= |doctors|
      invariant rows == Accumulated(doctors[..i], availability, time)
    {
      var doc := doctors[i];
      var slots := availability(doc.id);
      assert doctors[..i + 1][..i] == doctors[..i];
      ghost var before := rows;
      rows := rows + [DoctorRow(doc)];
      if slots == [] {
        i := i + 1;
        continue;
      }
      var j := 0;
      while j < |slots|
        invariant 0 <= j <= |slots|
        invariant FirstMatch(slots, time) == FirstMatch(slots[j..], time)
        invariant rows == before + [DoctorRow(doc)]
      {
        if InWindow(time, slots[j]) {
          rows := rows + [SlotRow(slots[j])];
          break;
        }
        assert slots[j..][1..] == slots[j + 1..];
        j := j + 1;
      }
      assert rows == before + RowsFor(doc, slots, time);
      i := i + 1;
    }
    assert doctors[..i] == doctors;
  }

  /** The doctors among the rows, in order. */
  function DoctorsOf(rows: seq<Row>): seq<Doctor>
    decreases |rows|
  {
    if rows == [] then []
    else (if rows[0].DoctorRow? then [rows[0].doctor] else []) + DoctorsOf(rows[1..])
  }

  predicate AllDoctorRows(rows: seq<Row>) {
    forall i :: 0 <= i < |rows| ==> rows[i].DoctorRow?
  }

  lemma {:induction false} DoctorsOfConcat(a: seq<Row>, b: seq<Row>)
    ensures DoctorsOf(a + b) == DoctorsOf(a) + DoctorsOf(b)
    decreases |a|
  {
    if a != [] {
      var head := if a[0].DoctorRow? then [a[0].doctor] else [];
      assert (a + b)[0] == a[0] && (a + b)[1..] == a[1..] + b;
      assert DoctorsOf(a + b) == head + DoctorsOf(a[1..] + b);
      DoctorsOfConcat(a[1..], b);
      assert DoctorsOf(a) == head + DoctorsOf(a[1..]);
    } else {
      assert a + b == b;
    }
  }

  /** The doctor rows are exactly the specialization's doctors, each once and in order. */
  lemma {:induction false} AccumulatedDoctors(doctors: seq<Doctor>, availability: int -> seq<Slot>, time: string)
    ensures DoctorsOf(Accumulated(doctors, availability, time)) == doctors
    decreases |doctors|
  {
    if doctors != [] {
      var n := |doctors| - 1;
      var last := doctors[n];
      AccumulatedDoctors(doctors[..n], availability, time);
      var tail := RowsFor(last, availability(last.id), time);
      DoctorsOfConcat(Accumulated(doctors[..n], availability, time), tail);
      assert DoctorsOf(tail) == [last] by {
        match FirstMatch(availability(last.id), time) {
          case None =>
            assert tail == [DoctorRow(last)];
          case Some(s) =>
            assert tail == [DoctorRow(last), SlotRow(s)];
            assert tail[1..] == [SlotRow(s)] && DoctorsOf([SlotRow(s)]) == [];
        }
      }
      assert doctors == doctors[..n] + [last];
    }
  }

  /**
   * Every availability row stands right behind a doctor row, belongs to that doctor's
   * availability, admits the time, and is the first of that doctor's rows to do so.
   */
  predicate SlotRowsFollow(rows: seq<Row>, availability: int -> seq<Slot>, time: string) {
    forall i :: 0 <= i < |rows| && rows[i].SlotRow? ==>
      0 < i && rows[i - 1].DoctorRow?
      && FirstMatch(availability(rows[i - 1].doctor.id), time) == Some(rows[i].slot)
  }

  lemma {:induction false} SlotRowsFollowTheirDoctor(doctors: seq<Doctor>, availability: int -> seq<Slot>, time: string)
    ensures SlotRowsFollow(Accumulated(doctors, availability, time), availability, time)
    decreases |doctors|
  {
    if doctors != [] {
      var n := |doctors| - 1;
      var last := doctors[n];
      SlotRowsFollowTheirDoctor(doctors[..n], availability, time);
      var prefix := Accumulated(doctors[..n], availability, time);
      var tail := RowsFor(last, availability(last.id), time);
      var rows := prefix + tail;
      forall i | 0 <= i < |rows| && rows[i].SlotRow?
        ensures 0 < i && rows[i - 1].DoctorRow?
                && FirstMatch(availability(rows[i - 1].doctor.id), time) == Some(rows[i].slot)
      {
        if i < |prefix| {
          assert rows[i] == prefix[i] && prefix[i].SlotRow?;
          assert 0 < i;
          assert rows[i - 1] == prefix[i - 1];
        } else {
          assert rows[i] == tail[i - |prefix|];
          match FirstMatch(availability(last.id), time) {
            case None =>
              assert false;
            case Some(s) =>
              assert tail == [DoctorRow(last), SlotRow(s)];
              assert i == |prefix| + 1;
              assert rows[i - 1] == tail[0];
          }
        }
      }
    }
  }

  lemma AllDoctorRowsConcat(a: seq<Row>, b: seq<Row>)
    ensures AllDoctorRows(a + b) <==> AllDoctorRows(a) && AllDoctorRows(b)
  {
    if AllDoctorRows(a) && AllDoctorRows(b) {
      forall i | 0 <= i < |a + b| ensures (a + b)[i].DoctorRow? {
        if i >= |a| { assert (a + b)[i] == b[i - |a|]; }
      }
    }
    if AllDoctorRows(a + b) {
      assert forall i :: 0 <= i < |a| ==> (a + b)[i] == a[i];
      assert forall i :: 0 <= i < |b| ==> (a + b)[|a| + i] == b[i];
    }
  }

  /**
   * No availability row was appended exactly when the intended filter finds no doctor: the
   * loop keeps the doctor rows alone precisely in the case where it should list nobody.
   */
  lemma {:induction false} OnlyDoctorRowsIffNoneAvailable(doctors: seq<Doctor>, availability: int -> seq<Slot>, time: string)
    ensures AllDoctorRows(Accumulated(doctors, availability, time)) <==> Available(doctors, availability, time) == []
    decreases |doctors|
  {
    if doctors != [] {
      var n := |doctors| - 1;
      var last := doctors[n];
      OnlyDoctorRowsIffNoneAvailable(doctors[..n], availability, time);
      var tail := RowsFor(last, availability(last.id), time);
      AllDoctorRowsConcat(Accumulated(doctors[..n], availability, time), tail);
      assert AllDoctorRows(tail) <==> !HasSlotAt(availability(last.id), time) by {
        if FirstMatch(availability(last.id), time).Some? {
          assert !tail[1].DoctorRow?;
        }
      }
      assert doctors == doctors[..n] + [last];
      Seqs.FilterSnoc(doctors[..n], last, Bookable(availability, time));
    }
  }

  // ---------------------------------------------------------------------------
  // Formatting (lines 109-112)

  /** The list lines, or None when some row has no `Name` and the comprehension raises KeyError. */
  function FormatRows(rows: seq<Row>): (r: Option<seq<string>>)
    ensures r.Some? <==> AllDoctorRows(rows)
    ensures r.Some? ==> r.value == DoctorLines(DoctorsOf(rows))
    decreases |rows|
  {
    if rows == [] then Some([])
    else match rows[0] {
      case SlotRow(_) => None
      case DoctorRow(d) =>
        var rest := FormatRows(rows[1..]);
        assert forall i :: 1 <= i < |rows| ==> rows[i] == rows[1..][i - 1];
        assert ([d] + DoctorsOf(rows[1..]))[1..] == DoctorsOf(rows[1..]);
        match rest {
          case None => None
          case Some(lines) => Some([DoctorLine(d)] + lines)
        }
    }
  }

  /** `doctors_res.data` used as `available_doctors` when no time was given. */
  function AsRows(doctors: seq<Doctor>): (rows: seq<Row>)
    ensures AllDoctorRows(rows) && DoctorsOf(rows) == doctors
    decreases |doctors|
  {
    if doctors == [] then []
    else
      var rest := AsRows(doctors[1..]);
      assert ([DoctorRow(doctors[0])] + rest)[1..] == rest;
      [DoctorRow(doctors[0])] + rest
  }

  // ---------------------------------------------------------------------------
  // The handler

  /**
   * The handler, with the current date `now` (Pakistan time), the Doctors query by
   * specialization and the availability query `text_search('days', "'Sun'")` as inputs.
   * With a time, it answers with the KeyError message exactly when some doctor has a slot
   * admitting that time, and lists every doctor of the specialization otherwise.
   */
  method Recommend(x: Request, now: Calendar.Date, bySpecialization: string -> seq<Doctor>,
                   sundaySlots: int -> seq<Slot>)
    returns (reply: Reply)
    requires Calendar.Valid(now)
    ensures Falsy(x.date) ==> reply == Respond(NoDateMessage)
    ensures !Falsy(x.date) && ResolveDate(x.date.value, now) == BadFormat ==> reply == Respond(DateFormatMessage)
    ensures !Falsy(x.date) && ResolveDate(x.date.value, now) == OutOfRange ==> reply == Raised("OverflowError")
    ensures !Falsy(x.date) && ResolveDate(x.date.value, now).Resolved? && Falsy(x.specialization) ==>
      reply == Respond(NoSpecializationMessage)
    ensures !Falsy(x.date) && ResolveDate(x.date.value, now).Resolved? && !Falsy(x.specialization) ==>
      var spec := x.specialization.value;
      var date := Calendar.Format(ResolveDate(x.date.value, now).date, '/');
      var doctors := bySpecialization(spec);
      var listed := Respond(RecommendMessage(spec, date, x.time, DoctorLines(doctors)));
      && (doctors == [] ==> reply == Respond(NoneFoundMessage(spec)))
      && (doctors != [] && Falsy(x.time) ==> reply == listed)
      && (doctors != [] && !Falsy(x.time) ==>
            reply == if Available(doctors, sundaySlots, x.time.value) == [] then listed
                     else Respond(FetchErrorMessage))
  {
    if Falsy(x.date) {
      reply := Respond(NoDateMessage);
      return;
    }
    var resolution := ResolveDate(x.date.value, now);
    if resolution == BadFormat {
      reply := Respond(DateFormatMessage);
      return;
    } else if resolution == OutOfRange {
      reply := Raised("OverflowError");
      return;
    }
    var target := resolution.date;
    var date := Calendar.Format(target, '/');
    if Falsy(x.specialization) {
      reply := Respond(NoSpecializationMessage);
      return;
    }
    var spec := x.specialization.value;
    var doctors := bySpecialization(spec);
    if doctors == [] {
      reply := Respond(NoneFoundMessage(spec));
      return;
    }
    var rows: seq<Row>;
    if date != "" && !Falsy(x.time) {
      // Line 65 parses the printed date again; its `except` branch cannot be taken.
      Calendar.ParseFormat(target);
      rows := AccumulateRows(doctors, sundaySlots, x.time.value);
      AccumulatedDoctors(doctors, sundaySlots, x.time.value);
      OnlyDoctorRowsIffNoneAvailable(doctors, sundaySlots, x.time.value);
    } else {
      rows := AsRows(doctors);
    }
    if rows == [] {
      reply := Respond(NoneAvailableMessage(spec, date, x.time));
      return;
    }
    match FormatRows(rows) {
      case None =>
        reply := Respond(FetchErrorMessage);
      case Some(lines) =>
        reply := Respond(RecommendMessage(spec, date, x.time, lines));
    }
  }

  /**
   * The handler with the loop appending a doctor only at its first admitting slot, as the
   * booking handler's loop does. With a time, it lists exactly the doctors of the intended
   * filter, and says that none is available when that filter is empty.
   */
  method RecommendCorrected(x: Request, now: Calendar.Date, bySpecialization: string -> seq<Doctor>,
                            sundaySlots: int -> seq<Slot>)
    returns (reply: Reply)
    requires Calendar.Valid(now)
    ensures Falsy(x.date) ==> reply == Respond(NoDateMessage)
    ensures !Falsy(x.date) && ResolveDate(x.date.value, now) == BadFormat ==> reply == Respond(DateFormatMessage)
    ensures !Falsy(x.date) && ResolveDate(x.date.value, now) == OutOfRange ==> reply == Raised("OverflowError")
    ensures !Falsy(x.date) && ResolveDate(x.date.value, now).Resolved? && Falsy(x.specialization) ==>
      reply == Respond(NoSpecializationMessage)
    ensures !Falsy(x.date) && ResolveDate(x.date.value, now).Resolved? && !Falsy(x.specialization) ==>
      var spec := x.specialization.value;
      var date := Calendar.Format(ResolveDate(x.date.value, now).date, '/');
      var doctors := bySpecialization(spec);
      && (doctors == [] ==> reply == Respond(NoneFoundMessage(spec)))
      && (doctors != [] && Falsy(x.time) ==>
            reply == Respond(RecommendMessage(spec, date, x.time, DoctorLines(doctors))))
      && (doctors != [] && !Falsy(x.time) ==>
            var available := Available(doctors, sundaySlots, x.time.value);
            reply == if available == [] then Respond(NoneAvailableMessage(spec, date, x.time))
                     else Respond(RecommendMessage(spec, date, x.time, DoctorLines(available))))
  {
    if Falsy(x.date) {
      reply := Respond(NoDateMessage);
      return;
    }
    var resolution := ResolveDate(x.date.value, now);
    if resolution == BadFormat {
      reply := Respond(DateFormatMessage);
      return;
    } else if resolution == OutOfRange {
      reply := Raised("OverflowError");
      return;
    }
    var target := resolution.date;
    var date := Calendar.Format(target, '/');
    if Falsy(x.specialization) {
      reply := Respond(NoSpecializationMessage);
      return;
    }
    var spec := x.specialization.value;
    var doctors := bySpecialization(spec);
    if doctors == [] {
      reply := Respond(NoneFoundMessage(spec));
      return;
    }
    var available: seq<Doctor>;
    if date != "" && !Falsy(x.time) {
      Calendar.ParseFormat(target);
      available := AvailableDoctors(doctors, sundaySlots, x.time.value);
    } else {
      available := doctors;
    }
    if available == [] {
      reply := Respond(NoneAvailableMessage(spec, date, x.time));
      return;
    }
    var rows := AsRows(available);
    match FormatRows(rows) {
      case None =>
        reply := Respond(FetchErrorMessage);
      case Some(lines) =>
        reply := Respond(RecommendMessage(spec, date, x.time, lines));
    }
  }

  function SundayNineToFive(id: int): seq<Slot> {
    [Slot(id, "Sunday", "09:00:00", "17:00:00")]
  }

  /**
   * One cardiologist with a Sunday slot from 09:00:00 to 17:00:00 asked for at 10:00: the
   * intended filter lists that doctor, so the handler as written answers with the KeyError text
   * while the corrected one lists the doctor.
   */
  lemma OneBookableDoctor(doc: Doctor)
    ensures Available([doc], SundayNineToFive, "10:00") == [doc]
    ensures !AllDoctorRows(Accumulated([doc], SundayNineToFive, "10:00"))
  {
    var s := Slot(doc.id, "Sunday", "09:00:00", "17:00:00");
    assert "10:00"[1..] == "0:00" && "17:00:00"[1..] == "7:00:00";
    assert InWindow("10:00", s);
    assert SundayNineToFive(doc.id) == [s];
    assert InWindow("10:00", SundayNineToFive(doc.id)[0]);
    assert HasSlotAt(SundayNineToFive(doc.id), "10:00");
    assert Bookable(SundayNineToFive, "10:00")(doc);
    Seqs.FilterAll([doc], Bookable(SundayNineToFive, "10:00"));
    OnlyDoctorRowsIffNoneAvailable([doc], SundayNineToFive, "10:00");
  }
}
