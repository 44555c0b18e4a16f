/**
 * What the booking handler (backend/Nodes/bk_apt.py) and the recommendation handler
 * (backend/Nodes/rec_doc.py) share: the rows they read from the store, their handler reply,
 * the resolution of the date phrase the language model extracted, and the test whether a
 * requested time lies inside an availability slot.
 */
module Scheduling {
  import opened Wrappers
  import opened Text
  import Calendar
  import Seqs

  /** A row of the `Doctors` table. */
  datatype Doctor = Doctor(id: int, name: string, specialization: string, experience: int,
                           qualification: string, room: string)

  /** A row of the `doctor_availability` table; the times are strings such as "09:00:00". */
  datatype Slot = Slot(doctorId: int, days: string, startTime: string, endTime: string)

  /**
   * What a handler leaves behind: the text it stores in `state["response"]`, or the name of
   * the Python exception that escapes it before any response is stored.
   */
  datatype Reply = Respond(text: string) | Raised(exception: string)

  const NoDateMessage := "Please provide a valid date."
  const DateFormatMessage := "Please provide a valid date in YYYY/MM/DD format."

  // ---------------------------------------------------------------------------
  // Date phrases

  /** The outcome of resolving a date phrase: a date, a failed `strptime`, or an OverflowError. */
  datatype Resolution = Resolved(date: Calendar.Date) | BadFormat | OutOfRange

  function FromOption(r: Option<Calendar.Date>): Resolution {
    match r
    case Some(d) => Resolved(d)
    case None => OutOfRange
  }

  /**
   * The relative-term handling of both handlers: a phrase containing "tomorrow" (any case) is
   * `now` plus one day; the test for "day after tomorrow" comes second; anything else must
   * parse as `YYYY/MM/DD`.
   */
  function ResolveDate(phrase: string, now: Calendar.Date): (r: Resolution)
    requires Calendar.Valid(now)
    ensures r.Resolved? ==> Calendar.Valid(r.date)
  {
    var l := Lower(phrase);
    if Contains(l, "tomorrow") then FromOption(Calendar.AddDays(now, 1))
    else if Contains(l, "day after tomorrow") then FromOption(Calendar.AddDays(now, 2))
    else match Calendar.Parse(phrase)
      case Some(d) => Resolved(d)
      case None => BadFormat
  }

  lemma TomorrowInDayAfterTomorrow()
    ensures Contains("day after tomorrow", "tomorrow")
  {
    assert "day after tomorrow"[10..18] == "tomorrow";
    assert OccursAt("tomorrow", "day after tomorrow", 10);
    ContainsOccurs("day after tomorrow", "tomorrow");
  }

  /**
   * Any phrase mentioning "tomorrow", in any case, resolves to the next day, and its weekday is
   * the one after today's (or Python overflows on the last representable day).
   */
  lemma TomorrowIsNextDay(phrase: string, now: Calendar.Date)
    requires Calendar.Valid(now)
    requires Contains(Lower(phrase), "tomorrow")
    ensures ResolveDate(phrase, now) == FromOption(Calendar.NextDay(now))
    ensures ResolveDate(phrase, now).Resolved? ==>
      Calendar.Weekday(ResolveDate(phrase, now).date) == (Calendar.Weekday(now) + 1) % 7
  {
    assert Calendar.AddDays(now, 1) == Calendar.NextDay(now);
    if Calendar.NextDay(now).Some? {
      Calendar.NextDayWeekday(now);
    }
  }

  /**
   * "day after tomorrow" contains "tomorrow", which is tested first: such a phrase resolves to
   * tomorrow, never to `now` plus two days, so the second branch can never be taken.
   */
  lemma DayAfterTomorrowIsTomorrow(phrase: string, now: Calendar.Date)
    requires Calendar.Valid(now)
    requires Contains(Lower(phrase), "day after tomorrow")
    ensures Contains(Lower(phrase), "tomorrow")
    ensures ResolveDate(phrase, now) == ResolveDate("tomorrow", now)
  {
    TomorrowInDayAfterTomorrow();
    ContainsTransitive(Lower(phrase), "day after tomorrow", "tomorrow");
    TomorrowLiteral();
  }

  lemma TomorrowLiteral()
    ensures Contains(Lower("tomorrow"), "tomorrow")
  {
    var l := Lower("tomorrow");
    assert l[0] == 't' && l[1] == 'o' && l[2] == 'm' && l[3] == 'o';
    assert l[4] == 'r' && l[5] == 'r' && l[6] == 'o' && l[7] == 'w';
    assert l == "tomorrow";
  }

  /** A phrase without "tomorrow" is resolved by `strptime` alone; when that fails the format error follows. */
  lemma AbsoluteDate(phrase: string, now: Calendar.Date)
    requires Calendar.Valid(now)
    requires !Contains(Lower(phrase), "tomorrow")
    ensures ResolveDate(phrase, now) == BadFormat <==> Calendar.Parse(phrase).None?
    ensures Calendar.Parse(phrase).Some? ==> ResolveDate(phrase, now) == Resolved(Calendar.Parse(phrase).value)
  {
    if Contains(Lower(phrase), "day after tomorrow") {
      DayAfterTomorrowIsTomorrow(phrase, now);
    }
  }

  /** "today" is not one of the relative terms: it has to parse as a date, and fails. */
  lemma TodayIsNotRecognised(now: Calendar.Date)
    requires Calendar.Valid(now)
    ensures ResolveDate("today", now) == BadFormat
  {
    AbsoluteDate("today", now);
  }

  // ---------------------------------------------------------------------------
  // Slot windows

  /** `slot["start_time"] <= time <= slot["end_time"]`, compared as Python strings. */
  predicate InWindow(time: string, slot: Slot) {
    StrLe(slot.startTime, time) && StrLe(time, slot.endTime)
  }

  /** A time is inside a window exactly when it lies between the two ends in lexicographic order. */
  lemma InWindowBetween(time: string, slot: Slot)
    ensures InWindow(time, slot) <==> LexLe(slot.startTime, time) && LexLe(time, slot.endTime)
  {
    StrLeLexLe(slot.startTime, time);
    StrLeLexLe(time, slot.endTime);
  }

  /** The window is an interval: a time between two admitted times is admitted as well. */
  lemma InWindowConvex(a: string, b: string, c: string, slot: Slot)
    requires InWindow(a, slot) && InWindow(c, slot) && StrLe(a, b) && StrLe(b, c)
    ensures InWindow(b, slot)
  {
    StrLeTransitive(slot.startTime, a, b);
    StrLeTransitive(b, c, slot.endTime);
  }

  /** A time outside the window sorts strictly before its start or strictly after its end. */
  lemma OutsideWindow(time: string, slot: Slot)
    requires !InWindow(time, slot)
    ensures (StrLe(time, slot.startTime) && time != slot.startTime)
         || (StrLe(slot.endTime, time) && time != slot.endTime)
  {
    StrLeTotal(slot.startTime, time);
    StrLeTotal(time, slot.endTime);
    StrLeReflexive(time);
  }

  /** A window whose two ends are the same string admits exactly that string. */
  lemma PointWindow(time: string, slot: Slot)
    requires slot.startTime == slot.endTime
    ensures InWindow(time, slot) <==> time == slot.startTime
  {
    if InWindow(time, slot) {
      StrLeAntisymmetric(slot.startTime, time);
    } else {
      StrLeReflexive(slot.startTime);
    }
  }

  /** Some slot of `slots` admits `time`. */
  predicate HasSlotAt(slots: seq<Slot>, time: string) {
    exists i :: 0 <= i < |slots| && InWindow(time, slots[i])
  }

  /** Both ends of a window are inside it when the start does not come after the end. */
  lemma WindowEndsIncluded(slot: Slot)
    requires StrLe(slot.startTime, slot.endTime)
    ensures InWindow(slot.startTime, slot) && InWindow(slot.endTime, slot)
  {
    StrLeReflexive(slot.startTime);
    StrLeReflexive(slot.endTime);
  }

  /**
   * A requested "HH:MM" sorts before the store's "HH:MM:SS" of the same minute, because it is
   * a proper prefix: the opening minute of a slot stored with seconds is not inside the window,
   * while its closing minute is.
   */
  lemma MinuteAgainstSeconds(id: int, days: string)
    ensures !InWindow("09:00", Slot(id, days, "09:00:00", "17:00:00"))
    ensures InWindow("17:00", Slot(id, days, "09:00:00", "17:00:00"))
  {
    assert "09:00:00"[1..][1..][1..][1..][1..] == ":00";
    assert "09:00"[1..][1..][1..][1..][1..] == "";
    assert "17:00"[1..][1..][1..][1..][1..] == "";
    assert "17:00:00"[1..] == "7:00:00" && "17:00"[1..] == "7:00";
  }

  // ---------------------------------------------------------------------------
  // The availability filter of the booking handler (bk_apt.py, lines 106-122)

  /** The test applied to each doctor: one of its slots admits `time`. */
  function Bookable(availability: int -> seq<Slot>, time: string): Doctor -> bool {
    (d: Doctor) => HasSlotAt(availability(d.id), time)
  }

  /** Doctors, in their original order, with at least one slot whose window admits `time`. */
  function Available(doctors: seq<Doctor>, availability: int -> seq<Slot>, time: string): seq<Doctor> {
    Seqs.Filter(doctors, Bookable(availability, time))
  }

  /**
   * The nested loop: for each doctor, scan its slots and append the doctor at the first slot
   * that admits `time`, then stop scanning; a doctor without slots is skipped.
   */
  method AvailableDoctors(doctors: seq<Doctor>, availability: int -> seq<Slot>, time: string)
    returns (available: seq<Doctor>)
    ensures available == Available(doctors, availability, time)
  {
    var p := Bookable(availability, time);
    available := [];
    var i := 0;
    while i < |doctors|
      invariant 0 <= i <= |doctors|
      invariant available == Seqs.Filter(doctors[..i], p)
    {
      var doc := doctors[i];
      var slots := availability(doc.id);
      Seqs.FilterSnoc(doctors[..i], doc, p);
      assert doctors[..i + 1] == doctors[..i] + [doc];
      if |slots| == 0 {
        i := i + 1;
        continue;
      }
      var j := 0;
      while j < |slots|
        invariant 0 <= j <= |slots|
        invariant forall k :: 0 <= k < j ==> !InWindow(time, slots[k])
        invariant available == Seqs.Filter(doctors[..i], p)
      {
        if InWindow(time, slots[j]) {
          available := available + [doc];
          break;
        }
        j := j + 1;
      }
      i := i + 1;
    }
    assert doctors[..i] == doctors;
  }

  /** The result is an order-preserving subsequence of the specialization's doctors. */
  lemma AvailableIsSubseq(doctors: seq<Doctor>, availability: int -> seq<Slot>, time: string)
    ensures Seqs.IsSubseq(Available(doctors, availability, time), doctors)
  {
    Seqs.FilterIsSubseq(doctors, Bookable(availability, time));
  }

  /**
   * A doctor is listed exactly when it is among the input and one of its slots admits the time;
   * in particular a doctor with no slot rows is never listed.
   */
  lemma AvailableMember(doctors: seq<Doctor>, availability: int -> seq<Slot>, time: string, d: Doctor)
    ensures d in Available(doctors, availability, time) <==> d in doctors && HasSlotAt(availability(d.id), time)
    ensures availability(d.id) == [] ==> d !in Available(doctors, availability, time)
  {
    Seqs.FilterMember(doctors, Bookable(availability, time), d);
  }

  /** Each listed doctor appears as often as in the input, once for a doctor listed once: the loop breaks after the first match. */
  lemma AvailableCount(doctors: seq<Doctor>, availability: int -> seq<Slot>, time: string, d: Doctor)
    ensures multiset(Available(doctors, availability, time))[d]
            == if HasSlotAt(availability(d.id), time) then multiset(doctors)[d] else 0
  {
    Seqs.FilterCount(doctors, Bookable(availability, time), d);
  }

  /** The list is empty exactly when no doctor has a slot admitting the time. */
  lemma AvailableEmpty(doctors: seq<Doctor>, availability: int -> seq<Slot>, time: string)
    ensures Available(doctors, availability, time) == []
            <==> forall i :: 0 <= i < |doctors| ==> !HasSlotAt(availability(doctors[i].id), time)
  {
    Seqs.FilterEmpty(doctors, Bookable(availability, time));
  }
}
