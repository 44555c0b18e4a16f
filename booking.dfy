/**
 * The appointment-booking handler, backend/Nodes/bk_apt.py (`BookAppointment.__call__`),
 * from the point where the language model's JSON has been decoded: the extracted fields,
 * the current date in Pakistan time, the creation timestamp and the store's query results
 * are inputs. The handler's only effects are the response it stores and the appointment row
 * it inserts; both are outputs here.
 */
module Booking {
  import opened Wrappers
  import opened Text
  import Calendar
  import opened Scheduling

  /** The fields read from the decoded JSON; None is a missing key or a JSON null. */
  datatype Extracted = Extracted(doctorName: Option<string>, specialization: Option<string>,
                                 date: Option<string>, time: Option<string>)

  /** The results of the store queries the handler issues. */
  datatype Queries = Queries(
    bySpecialization: string -> seq<Doctor>,  // Doctors whose Specialization is ilike %s%
    byName: string -> seq<Doctor>,            // Doctors whose Name is ilike %s%
    sundaySlots: int -> seq<Slot>,            // availability of a doctor, days ilike %Sun%
    slotsOn: (int, string) -> seq<Slot>)      // availability of a doctor whose days equal the weekday

  /** The row inserted into `appointments` (its column names are the handler's own). */
  datatype Appointment = Appointment(createdAt: string, patientId: int, apptDate: string,
                                     time: string, doctorId: int)

  const MissingDetailsMessage := "Please provide a valid date and time for the appointment."
  const AskConcernMessage := "Please mention the doctor or your health concern (e.g., skin issue, bones, heart)."

  function NoDoctorsMessage(spec: string): string {
    "No doctors found for specialization '" + spec + "'."
  }

  function NoneAvailableMessage(spec: string, date: string, time: string): string {
    "No " + spec + " doctors are available on " + date + " at " + time + "."
  }

  function DoctorLine(d: Doctor): string {
    "- Dr. " + d.name + " (" + IntToDecimal(d.experience) + " yrs exp)"
  }

  function ListMessage(spec: string, date: string, time: string, doctors: seq<Doctor>): string {
    "Available " + spec + " doctors"
    + (if date != "" && time != "" then " for " + date + " at " + time else "")
    + ":\n" + Join(seq(|doctors|, i requires 0 <= i < |doctors| => DoctorLine(doctors[i])), "\n")
    + "\n\nPlease tell me which doctor you\U{2019}d like to book an appointment with."
  }

  function NotFoundMessage(name: string): string {
    "Doctor '" + name + "' not found."
  }

  function NotAvailableOnMessage(name: string, weekday: string): string {
    name + " is not available on " + weekday + "."
  }

  function NotAvailableAtMessage(name: string, time: string): string {
    name + " is not available at " + time + ". Please choose another time."
  }

  function BookedMessage(name: string, date: string, time: string): string {
    "\U{2705} Appointment booked successfully!\nDoctor: " + name + "\nDate: " + date + "\nTime: " + time + " (PKT)"
  }

  /** `state.get("patient_id", 1)`, None standing for a state without that key. */
  function PatientId(stored: Option<int>): int {
    stored.GetOr(1)
  }

  /**
   * When the named-doctor path inserts: a time and a doctor name were given, the name query
   * found a doctor, and the first availability row for that doctor on the date's weekday
   * admits the time. Later rows are never looked at.
   */
  predicate Accepted(x: Extracted, target: Calendar.Date, q: Queries)
    requires Calendar.Valid(target)
  {
    && !Falsy(x.time) && !Falsy(x.doctorName)
    && var found := q.byName(x.doctorName.value);
    && found != []
    && var slots := q.slotsOn(found[0].id, Calendar.WeekdayName(target));
    && slots != []
    && InWindow(x.time.value, slots[0])
  }

  /**
   * Lines 76-187, everything after the date has been resolved to `target` and printed as
   * `YYYY/MM/DD`: the missing-detail checks, the specialization listing and the booking of a
   * named doctor.
   */
  method Continue(x: Extracted, target: Calendar.Date, patientId: int, createdAt: string, q: Queries)
    returns (reply: Reply, insert: Option<Appointment>)
    requires Calendar.Valid(target)
    ensures Falsy(x.time) ==> reply == Respond(MissingDetailsMessage) && insert == None
    ensures !Falsy(x.time) && Falsy(x.doctorName) && Falsy(x.specialization) ==>
      reply == Respond(AskConcernMessage) && insert == None
    ensures !Falsy(x.time) && Falsy(x.doctorName) && !Falsy(x.specialization) ==>
      var spec, date, time := x.specialization.value, Calendar.Format(target, '/'), x.time.value;
      var doctors := q.bySpecialization(spec);
      var available := Available(doctors, q.sundaySlots, time);
      && insert == None
      && (doctors == [] ==> reply == Respond(NoDoctorsMessage(spec)))
      && (doctors != [] && available == [] ==> reply == Respond(NoneAvailableMessage(spec, date, time)))
      && (available != [] ==> reply == Respond(ListMessage(spec, date, time, available)))
    ensures !Falsy(x.time) && !Falsy(x.doctorName) ==>
      var name, time := x.doctorName.value, x.time.value;
      var found := q.byName(name);
      && (found == [] ==> reply == Respond(NotFoundMessage(name)))
      && (found != [] ==>
            var weekday := Calendar.WeekdayName(target);
            var slots := q.slotsOn(found[0].id, weekday);
            && (slots == [] ==> reply == Respond(NotAvailableOnMessage(found[0].name, weekday)))
            && (slots != [] && !InWindow(time, slots[0]) ==>
                  reply == Respond(NotAvailableAtMessage(found[0].name, time))))
    ensures insert.Some? <==> Accepted(x, target, q)
    ensures insert.Some? ==>
      var doctor := q.byName(x.doctorName.value)[0];
      var date := Calendar.Format(target, '/');
      && insert.value == Appointment(createdAt, patientId, date, x.time.value, doctor.id)
      && reply == Respond(BookedMessage(doctor.name, date, x.time.value))
  {
    insert := None;
    var date := Calendar.Format(target, '/');
    if Falsy(x.time) || date == "" {
      reply := Respond(MissingDetailsMessage);
      return;
    }
    var time := x.time.value;

    if Falsy(x.doctorName) {
      if Falsy(x.specialization) {
        reply := Respond(AskConcernMessage);
        return;
      }
      var spec := x.specialization.value;
      var doctors := q.bySpecialization(spec);
      if doctors == [] {
        reply := Respond(NoDoctorsMessage(spec));
        return;
      }
      var available: seq<Doctor>;
      if date != "" && time != "" {
        // Line 103 parses the printed date again; that cannot raise.
        Calendar.ParseFormat(target);
        available := AvailableDoctors(doctors, q.sundaySlots, time);
      } else {
        available := doctors;
      }
      if available == [] {
        reply := Respond(NoneAvailableMessage(spec, date, time));
        return;
      }
      reply := Respond(ListMessage(spec, date, time, available));
      return;
    }

    var name := x.doctorName.value;
    var found := q.byName(name);
    if found == [] {
      reply := Respond(NotFoundMessage(name));
      return;
    }
    var doctor := found[0];
    Calendar.ParseFormat(target);
    var weekday := Calendar.WeekdayName(Calendar.Parse(date).value);
    var slots := q.slotsOn(doctor.id, weekday);
    if slots == [] {
      reply := Respond(NotAvailableOnMessage(doctor.name, weekday));
      return;
    }
    var slot := slots[0];
    if !InWindow(time, slot) {
      reply := Respond(NotAvailableAtMessage(doctor.name, time));
      return;
    }
    insert := Some(Appointment(createdAt, patientId, date, time, doctor.id));
    reply := Respond(BookedMessage(doctor.name, date, time));
  }

  /**
   * The handler as written. Line 70 looks the weekday up in `weekday_map`, a name defined
   * nowhere, so every request whose date resolves ends in NameError before a response is
   * stored and before anything is inserted.
   */
  method Book(x: Extracted, patientId: Option<int>, now: Calendar.Date, createdAt: string, q: Queries)
    returns (reply: Reply, insert: Option<Appointment>)
    requires Calendar.Valid(now)
    ensures insert == None
    ensures Falsy(x.date) ==> reply == Respond(NoDateMessage)
    ensures !Falsy(x.date) && ResolveDate(x.date.value, now) == BadFormat ==> reply == Respond(DateFormatMessage)
    ensures !Falsy(x.date) && ResolveDate(x.date.value, now) == OutOfRange ==> reply == Raised("OverflowError")
    ensures !Falsy(x.date) && ResolveDate(x.date.value, now).Resolved? ==> reply == Raised("NameError")
  {
    insert := None;
    if Falsy(x.date) {
      reply := Respond(NoDateMessage);
      return;
    }
    var resolution := ResolveDate(x.date.value, now);
    match resolution {
      case BadFormat =>
        reply := Respond(DateFormatMessage);
      case OutOfRange =>
        reply := Raised("OverflowError");
      case Resolved(target) =>
        reply := Raised("NameError");
    }
  }

  /**
   * The handler without the undefined lookup on line 70 (its weekday is overwritten before
   * any use): a resolved date carries on into lines 76-187.
   */
  method BookCorrected(x: Extracted, patientId: Option<int>, now: Calendar.Date, createdAt: string, q: Queries)
    returns (reply: Reply, insert: Option<Appointment>)
    requires Calendar.Valid(now)
    ensures Falsy(x.date) ==> reply == Respond(NoDateMessage) && insert == None
    ensures !Falsy(x.date) && ResolveDate(x.date.value, now) == BadFormat ==>
      reply == Respond(DateFormatMessage) && insert == None
    ensures !Falsy(x.date) && ResolveDate(x.date.value, now) == OutOfRange ==>
      reply == Raised("OverflowError") && insert == None
    ensures insert.Some? <==>
      !Falsy(x.date) && ResolveDate(x.date.value, now).Resolved?
      && Accepted(x, ResolveDate(x.date.value, now).date, q)
    ensures insert.Some? ==>
      var doctor := q.byName(x.doctorName.value)[0];
      var date := Calendar.Format(ResolveDate(x.date.value, now).date, '/');
      && insert.value == Appointment(createdAt, PatientId(patientId), date, x.time.value, doctor.id)
      && reply == Respond(BookedMessage(doctor.name, date, x.time.value))
  {
    insert := None;
    if Falsy(x.date) {
      reply := Respond(NoDateMessage);
      return;
    }
    var resolution := ResolveDate(x.date.value, now);
    match resolution {
      case BadFormat =>
        reply := Respond(DateFormatMessage);
      case OutOfRange =>
        reply := Raised("OverflowError");
      case Resolved(target) =>
        reply, insert := Continue(x, target, PatientId(patientId), createdAt, q);
    }
  }

  /** "tomorrow" resolves whenever today is not the last representable day, so it reaches the undefined lookup. */
  lemma TomorrowResolves(now: Calendar.Date)
    requires Calendar.Valid(now) && now != Calendar.Date(Calendar.MaxYear, 12, 31)
    ensures ResolveDate("tomorrow", now).Resolved?
  {
    TomorrowLiteral();
    TomorrowIsNextDay("tomorrow", now);
  }
}
