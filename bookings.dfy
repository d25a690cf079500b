/** The booking service of src/hooks/useBookings.ts: the reference-data
    queries, the two availability queries over the time_slots table, and the
    check-insert-mark sequence of createAppointment. Dates are day numbers and
    times minutes of the day, so that their order is the order of the
    'YYYY-MM-DD' and 'HH:MM' strings the database compares. */
module Bookings {
  import opened Wrappers
  import opened Seqs
  import opened Text

  datatype Barber = Barber(
    id: string, name: string, specialty: string, bio: string, experienceYears: int,
    isActive: bool, rating: real)

  datatype Service = Service(
    id: string, name: string, price: real, durationMinutes: int, description: Option<string>,
    isActive: bool)

  /** A time_slots row; (barberId, date, time) names one bookable unit. */
  datatype TimeSlot = TimeSlot(
    barberId: string, date: int, time: int, isBooked: bool, appointmentId: Option<nat>)

  datatype Status = Pending | Confirmed | Completed | Cancelled

  /** What createAppointment inserts: a signed-in user's id or guest contact fields. */
  datatype AppointmentRequest = AppointmentRequest(
    barberId: string, serviceId: string, date: int, timeSlot: int, userId: Option<string>,
    guestName: Option<string>, guestEmail: Option<string>, guestPhone: Option<string>,
    notes: Option<string>)

  /** An appointments row: the database adds the id and the default status. */
  datatype Appointment = Appointment(id: nat, booking: AppointmentRequest, status: Status)

  // ---- reference data -------------------------------------------------------

  predicate ActiveBarber(b: Barber) { b.isActive }
  predicate ActiveService(s: Service) { s.isActive }
  predicate ByName(a: Barber, b: Barber) { StrLe(a.name, b.name) }
  predicate ByPrice(a: Service, b: Service) { a.price <= b.price }

  lemma ByNameTotal()
    ensures Total(ByName)
  {
    forall a: Barber, b: Barber ensures ByName(a, b) || ByName(b, a) {
      StrLeTotal(a.name, b.name);
    }
  }

  /** fetchBarbers' query: the active rows, ordered by name. */
  function ActiveBarbersByName(table: seq<Barber>): (r: seq<Barber>)
    ensures forall b :: b in r <==> b in table && b.isActive
    ensures multiset(r) == multiset(Filter(table, ActiveBarber))
    ensures forall i :: 0 <= i < |r| - 1 ==> StrLe(r[i].name, r[i + 1].name)
  {
    ByNameTotal();
    var r := SortBy(Filter(table, ActiveBarber), ByName);
    assert forall b :: b in r <==> b in multiset(Filter(table, ActiveBarber));
    r
  }

  /** fetchServices' query: the active rows, ordered by price. */
  function ActiveServicesByPrice(table: seq<Service>): (r: seq<Service>)
    ensures forall s :: s in r <==> s in table && s.isActive
    ensures multiset(r) == multiset(Filter(table, ActiveService))
    ensures forall i :: 0 <= i < |r| - 1 ==> r[i].price <= r[i + 1].price
  {
    var r := SortBy(Filter(table, ActiveService), ByPrice);
    assert forall s :: s in r <==> s in multiset(Filter(table, ActiveService));
    r
  }

  // ---- availability ---------------------------------------------------------

  predicate FreeAt(s: TimeSlot, barber: string, date: int) {
    s.barberId == barber && s.date == date && !s.isBooked
  }

  function FreeAtQuery(barber: string, date: int): TimeSlot -> bool {
    s => FreeAt(s, barber, date)
  }

  function TimeOf(s: TimeSlot): int { s.time }

  predicate IntLe(a: int, b: int) { a <= b }

  /** getAvailableSlots' query: the times of the barber's unbooked slots on
      that date, ascending. */
  function AvailableTimes(slots: seq<TimeSlot>, barber: string, date: int): (r: seq<int>)
    ensures forall i :: 0 <= i < |r| - 1 ==> r[i] <= r[i + 1]
    ensures forall t :: t in r <==> exists i :: 0 <= i < |slots| && FreeAt(slots[i], barber, date) && slots[i].time == t
    ensures multiset(r) == multiset(MapSeq(Filter(slots, FreeAtQuery(barber, date)), TimeOf))
  {
    var free := Filter(slots, FreeAtQuery(barber, date));
    var times := MapSeq(free, TimeOf);
    var r := SortBy(times, IntLe);
    assert forall t :: t in r <==> t in times by {
      forall t ensures t in r <==> t in times {
        assert t in r <==> t in multiset(r);
      }
    }
    assert forall t :: t in times ==> exists i :: 0 <= i < |slots| && FreeAt(slots[i], barber, date) && slots[i].time == t by {
      forall t | t in times ensures exists i :: 0 <= i < |slots| && FreeAt(slots[i], barber, date) && slots[i].time == t {
        var j :| 0 <= j < |times| && times[j] == t;
        assert free[j] in free;
        var i :| 0 <= i < |slots| && slots[i] == free[j];
      }
    }
    assert forall i :: 0 <= i < |slots| && FreeAt(slots[i], barber, date) ==> slots[i].time in times by {
      forall i | 0 <= i < |slots| && FreeAt(slots[i], barber, date) ensures slots[i].time in times {
        assert slots[i] in free;
        var j :| 0 <= j < |free| && free[j] == slots[i];
        assert times[j] == slots[i].time;
      }
    }
    r
  }

  /** getAvailableSlots: a failed query shows no times. */
  function GetAvailableSlots(slots: seq<TimeSlot>, barber: string, date: int, queryFails: bool): (r: seq<int>)
    ensures queryFails ==> r == []
    ensures !queryFails ==> r == AvailableTimes(slots, barber, date)
  {
    if queryFails then [] else AvailableTimes(slots, barber, date)
  }

  /** A slot getNextAvailableSlot may return. */
  predicate Candidate(s: TimeSlot, barber: string, today: int) {
    s.barberId == barber && !s.isBooked && s.date >= today
  }

  /** (date, time) order. */
  predicate EarlierOrSame(a: (int, int), b: (int, int)) {
    a.0 < b.0 || (a.0 == b.0 && a.1 <= b.1)
  }

  /** getNextAvailableSlot's query: the first candidate in (date, time) order. */
  function NextAvailable(slots: seq<TimeSlot>, barber: string, today: int): (r: Option<(int, int)>)
    ensures r.None? <==> forall s :: s in slots ==> !Candidate(s, barber, today)
    ensures r.Some? ==> exists s :: s in slots && Candidate(s, barber, today) && (s.date, s.time) == r.value
    ensures r.Some? ==> forall s :: s in slots && Candidate(s, barber, today) ==>
      EarlierOrSame(r.value, (s.date, s.time))
    decreases |slots|
  {
    if slots == [] then None
    else
      assert forall s :: s in slots <==> s == slots[0] || s in slots[1..];
      var rest := NextAvailable(slots[1..], barber, today);
      var here := (slots[0].date, slots[0].time);
      if !Candidate(slots[0], barber, today) then rest
      else if rest.None? || EarlierOrSame(here, rest.value) then Some(here)
      else rest
  }

  /** getNextAvailableSlot: null when nothing qualifies or the query fails. */
  function GetNextAvailableSlot(slots: seq<TimeSlot>, barber: string, today: int, queryFails: bool)
    : (r: Option<(int, int)>)
    ensures queryFails ==> r.None?
    ensures !queryFails ==> r == NextAvailable(slots, barber, today)
  {
    if queryFails then None else NextAvailable(slots, barber, today)
  }

  // ---- booking --------------------------------------------------------------

  predicate At(s: TimeSlot, barber: string, date: int, time: int) {
    s.barberId == barber && s.date == date && s.time == time
  }

  function AtQuery(barber: string, date: int, time: int): TimeSlot -> bool {
    s => At(s, barber, date, time)
  }

  /** What `.select('is_booked')...single()` yields: the one matching row, or
      the PGRST116 code when zero rows or several rows match. */
  datatype SlotRead = Row(isBooked: bool) | NotSingle

  function ReadSlot(slots: seq<TimeSlot>, barber: string, date: int, time: int): (r: SlotRead)
    ensures r.Row? <==> |Filter(slots, AtQuery(barber, date, time))| == 1
    ensures r.Row? ==> exists s :: s in slots && At(s, barber, date, time) && s.isBooked == r.isBooked
  {
    var matching := Filter(slots, AtQuery(barber, date, time));
    if |matching| == 1 then
      assert matching[0] in matching;
      Row(matching[0].isBooked)
    else NotSingle
  }

  function Book(s: TimeSlot, id: nat): TimeSlot {
    s.(isBooked := true, appointmentId := Some(id))
  }

  /** The `update({is_booked: true, appointment_id})` on every row matching
      (barber, date, time). */
  function MarkBooked(slots: seq<TimeSlot>, barber: string, date: int, time: int, id: nat): (r: seq<TimeSlot>)
    ensures |r| == |slots|
    ensures forall i :: 0 <= i < |slots| ==>
      r[i] == if At(slots[i], barber, date, time) then Book(slots[i], id) else slots[i]
  {
    seq(|slots|, i requires 0 <= i < |slots| =>
      if At(slots[i], barber, date, time) then Book(slots[i], id) else slots[i])
  }

  /** Filtering the marked table for the slot gives the booked copies of the
      rows that matched. */
  lemma {:induction false} MarkedMatches(slots: seq<TimeSlot>, barber: string, date: int, time: int, id: nat)
    ensures Filter(MarkBooked(slots, barber, date, time, id), AtQuery(barber, date, time))
         == MapSeq(Filter(slots, AtQuery(barber, date, time)), s => Book(s, id))
    decreases |slots|
  {
    var q := AtQuery(barber, date, time);
    if slots != [] {
      MarkedMatches(slots[1..], barber, date, time, id);
      assert MarkBooked(slots, barber, date, time, id)[1..] == MarkBooked(slots[1..], barber, date, time, id);
      assert MapSeq(Filter(slots, q), s => Book(s, id))
          == (if q(slots[0]) then [Book(slots[0], id)] else [])
             + MapSeq(Filter(slots[1..], q), s => Book(s, id));
    }
  }

  /** Once a slot that exists exactly once is marked, reading it again finds
      it booked: a second booking of the same slot is refused. */
  lemma SecondBookingRefused(slots: seq<TimeSlot>, barber: string, date: int, time: int, id: nat)
    requires ReadSlot(slots, barber, date, time).Row?
    ensures ReadSlot(MarkBooked(slots, barber, date, time, id), barber, date, time) == Row(true)
  {
    MarkedMatches(slots, barber, date, time, id);
  }

  /** Marking a slot leaves every other barber's or day's availability as it was. */
  lemma {:induction false} MarkKeepsOtherFree(
    slots: seq<TimeSlot>, barber: string, date: int, time: int, id: nat, b: string, d: int)
    requires b != barber || d != date
    ensures Filter(MarkBooked(slots, barber, date, time, id), FreeAtQuery(b, d))
         == Filter(slots, FreeAtQuery(b, d))
    decreases |slots|
  {
    if slots != [] {
      MarkKeepsOtherFree(slots[1..], barber, date, time, id, b, d);
      assert MarkBooked(slots, barber, date, time, id)[1..] == MarkBooked(slots[1..], barber, date, time, id);
    }
  }

  /** After marking (barber, date, time), that time is no longer offered
      for the barber and date. */
  lemma BookedTimeGone(slots: seq<TimeSlot>, barber: string, date: int, time: int, id: nat)
    ensures time !in AvailableTimes(MarkBooked(slots, barber, date, time, id), barber, date)
  {
  }

  /** A time offered before a different time is marked is still offered. */
  lemma OtherTimeKept(slots: seq<TimeSlot>, barber: string, date: int, time: int, id: nat, t: int)
    requires t != time && t in AvailableTimes(slots, barber, date)
    ensures t in AvailableTimes(MarkBooked(slots, barber, date, time, id), barber, date)
  {
    var i :| 0 <= i < |slots| && FreeAt(slots[i], barber, date) && slots[i].time == t;
    assert MarkBooked(slots, barber, date, time, id)[i] == slots[i];
  }

  /** A time offered after a different time is marked was offered before. */
  lemma OtherTimeNotAdded(slots: seq<TimeSlot>, barber: string, date: int, time: int, id: nat, t: int)
    requires t in AvailableTimes(MarkBooked(slots, barber, date, time, id), barber, date)
    ensures t in AvailableTimes(slots, barber, date)
  {
    var after := MarkBooked(slots, barber, date, time, id);
    var i :| 0 <= i < |after| && FreeAt(after[i], barber, date) && after[i].time == t;
    assert slots[i] == after[i];
  }

  /** Marking one time leaves every other time of that barber and date as
      available as it was. */
  lemma OtherTimesStay(slots: seq<TimeSlot>, barber: string, date: int, time: int, id: nat, t: int)
    requires t != time
    ensures t in AvailableTimes(MarkBooked(slots, barber, date, time, id), barber, date)
        <==> t in AvailableTimes(slots, barber, date)
  {
    if t in AvailableTimes(slots, barber, date) {
      OtherTimeKept(slots, barber, date, time, id, t);
    }
    if t in AvailableTimes(MarkBooked(slots, barber, date, time, id), barber, date) {
      OtherTimeNotAdded(slots, barber, date, time, id, t);
    }
  }

  /** Marking a slot leaves the offered times of every other barber and day
      exactly as they were. */
  lemma OtherDaysStay(slots: seq<TimeSlot>, barber: string, date: int, time: int, id: nat, b: string, d: int)
    requires b != barber || d != date
    ensures AvailableTimes(MarkBooked(slots, barber, date, time, id), b, d) == AvailableTimes(slots, b, d)
  {
    MarkKeepsOtherFree(slots, barber, date, time, id, b, d);
  }

  /** The message shown for a thrown error: its text, or the default. */
  function FailureText(message: string): (r: string)
    ensures message != "" ==> r == message
    ensures message == "" ==> r == "Failed to create appointment"
  {
    if message != "" then message else "Failed to create appointment"
  }

  const SlotTaken := "This time slot is no longer available"

  /** The backend call of createAppointment that fails, if any. */
  datatype BookingFault = NoFault | SlotReadFails(message: string) | InsertFails(message: string) | SlotUpdateFails

  /** The useBookings hook together with the tables it reads and writes. */
  class BookingsHook {
    var barberTable: seq<Barber>
    var serviceTable: seq<Service>
    var slots: seq<TimeSlot>
    var appointments: seq<Appointment>
    var nextId: nat
    var barbers: seq<Barber>
    var services: seq<Service>
    var loading: bool
    var error: Option<string>

    /** Appointment ids come from a counter, and a slot linked to an
        appointment is linked to one booked for that very slot. */
    ghost predicate Valid()
      reads this
    {
      && (forall a :: a in appointments ==> a.id < nextId)
      && (forall s :: s in slots && s.appointmentId.Some? ==>
            exists a :: a in appointments && a.id == s.appointmentId.value
              && At(s, a.booking.barberId, a.booking.date, a.booking.timeSlot))
    }

    /** The hook over existing tables: the time_slots table may already hold
        slots booked by the appointments table, and ids continue from
        `nextId`. */
    constructor (barberTable: seq<Barber>, serviceTable: seq<Service>, slots: seq<TimeSlot>,
                 appointments: seq<Appointment>, nextId: nat)
      requires forall a :: a in appointments ==> a.id < nextId
      requires forall s :: s in slots && s.appointmentId.Some? ==>
        exists a :: a in appointments && a.id == s.appointmentId.value
          && At(s, a.booking.barberId, a.booking.date, a.booking.timeSlot)
      ensures Valid()
      ensures this.barberTable == barberTable && this.serviceTable == serviceTable && this.slots == slots
      ensures this.appointments == appointments && this.nextId == nextId
      ensures barbers == [] && services == [] && !loading && error == None
    {
      this.barberTable := barberTable;
      this.serviceTable := serviceTable;
      this.slots := slots;
      this.appointments := appointments;
      this.nextId := nextId;
      barbers := [];
      services := [];
      loading := false;
      error := None;
    }

    /** fetchBarbers: on failure the list stays and an error is set; on
        success an earlier error is left in place. */
    method FetchBarbers(queryFails: bool)
      modifies this`barbers, this`error
      ensures !queryFails ==> barbers == ActiveBarbersByName(barberTable) && error == old(error)
      ensures queryFails ==> barbers == old(barbers) && error == Some("Failed to load barbers")
    {
      if queryFails {
        error := Some("Failed to load barbers");
      } else {
        barbers := ActiveBarbersByName(barberTable);
      }
    }

    /** fetchServices, likewise. */
    method FetchServices(queryFails: bool)
      modifies this`services, this`error
      ensures !queryFails ==> services == ActiveServicesByPrice(serviceTable) && error == old(error)
      ensures queryFails ==> services == old(services) && error == Some("Failed to load services")
    {
      if queryFails {
        error := Some("Failed to load services");
      } else {
        services := ActiveServicesByPrice(serviceTable);
      }
    }

    /** createAppointment: read the slot, refuse it if booked, insert the
        appointment, then mark the slot; a failed mark is swallowed. */
    method CreateAppointment(req: AppointmentRequest, fault: BookingFault) returns (result: Option<Appointment>)
      requires Valid()
      modifies this`appointments, this`slots, this`nextId, this`loading, this`error
      ensures Valid() && !loading
      ensures fault.SlotReadFails? ==>
        result.None? && error == Some(FailureText(fault.message))
        && appointments == old(appointments) && slots == old(slots)
      ensures (!fault.SlotReadFails? && ReadSlot(old(slots), req.barberId, req.date, req.timeSlot) == Row(true)) ==>
        result.None? && error == Some(SlotTaken)
        && appointments == old(appointments) && slots == old(slots)
      ensures (!fault.SlotReadFails? && ReadSlot(old(slots), req.barberId, req.date, req.timeSlot) != Row(true)
               && fault.InsertFails?) ==>
        result.None? && error == Some(FailureText(fault.message))
        && appointments == old(appointments) && slots == old(slots)
      ensures (fault.NoFault? || fault.SlotUpdateFails?)
              && ReadSlot(old(slots), req.barberId, req.date, req.timeSlot) != Row(true) ==>
        result == Some(Appointment(old(nextId), req, Pending)) && error == None
        && appointments == old(appointments) + [result.value]
        && slots == (if fault.SlotUpdateFails? then old(slots)
                     else MarkBooked(old(slots), req.barberId, req.date, req.timeSlot, old(nextId)))
      ensures result.Some? ==> forall a :: a in old(appointments) ==> a.id != result.value.id
    {
      loading := true;
      error := None;
      if fault.SlotReadFails? {
        error := Some(FailureText(fault.message));
        loading := false;
        return None;
      }
      var existing := ReadSlot(slots, req.barberId, req.date, req.timeSlot);
      if existing == Row(true) {
        error := Some(SlotTaken);
        loading := false;
        return None;
      }
      if fault.InsertFails? {
        error := Some(FailureText(fault.message));
        loading := false;
        return None;
      }
      var appointment := Appointment(nextId, req, Pending);
      appointments := appointments + [appointment];
      nextId := nextId + 1;
      if !fault.SlotUpdateFails? {
        MarkKeepsLinks(req);
        slots := MarkBooked(slots, req.barberId, req.date, req.timeSlot, appointment.id);
      }
      loading := false;
      return Some(appointment);
    }

    /** Linking the matching slots to the appointment just appended keeps
        every link pointing at an appointment for its own slot. */
    lemma MarkKeepsLinks(req: AppointmentRequest)
      requires nextId >= 1 && appointments != []
      requires appointments[|appointments| - 1] == Appointment(nextId - 1, req, Pending)
      requires forall s :: s in slots && s.appointmentId.Some? ==>
            exists a :: a in appointments && a.id == s.appointmentId.value
              && At(s, a.booking.barberId, a.booking.date, a.booking.timeSlot)
      ensures forall s ::
        (s in MarkBooked(slots, req.barberId, req.date, req.timeSlot, nextId - 1) && s.appointmentId.Some?) ==>
          (exists a :: a in appointments && a.id == s.appointmentId.value
            && At(s, a.booking.barberId, a.booking.date, a.booking.timeSlot))
    {
      var marked := MarkBooked(slots, req.barberId, req.date, req.timeSlot, nextId - 1);
      var last := appointments[|appointments| - 1];
      forall s | s in marked && s.appointmentId.Some?
        ensures exists a ::
          a in appointments && a.id == s.appointmentId.value
          && At(s, a.booking.barberId, a.booking.date, a.booking.timeSlot)
      {
        var i :| 0 <= i < |marked| && marked[i] == s;
        if At(slots[i], req.barberId, req.date, req.timeSlot) {
          assert last in appointments;
        } else {
          assert slots[i] in slots;
        }
      }
    }
  }
}
