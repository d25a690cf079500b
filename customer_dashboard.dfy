/** The appointment lists of src/components/dashboard/CustomerDashboard.tsx:
    which fetched appointments count as upcoming and which as past, and the
    status label. An appointment's moment is its day times 1440 plus its
    minute of the day. */
module CustomerDashboard {
  import opened Seqs
  import opened Text
  import opened Bookings

  function Moment(a: Appointment): int {
    a.booking.date * 1440 + a.booking.timeSlot
  }

  predicate Upcoming(a: Appointment, now: int) {
    Moment(a) > now && a.status != Cancelled
  }

  predicate Past(a: Appointment, now: int) {
    Moment(a) <= now || a.status == Completed
  }

  /** upcomingAppointments: future and not cancelled, in fetched order. */
  function UpcomingAppointments(appointments: seq<Appointment>, now: int): (r: seq<Appointment>)
    ensures forall a :: a in r <==> a in appointments && Moment(a) > now && a.status != Cancelled
  {
    Filter(appointments, a => Upcoming(a, now))
  }

  /** pastAppointments: due or completed, in fetched order. */
  function PastAppointments(appointments: seq<Appointment>, now: int): (r: seq<Appointment>)
    ensures forall a :: a in r <==> a in appointments && (Moment(a) <= now || a.status == Completed)
  {
    Filter(appointments, a => Past(a, now))
  }

  /** A cancelled appointment is never upcoming, a completed one always
      past; one that is neither is in exactly one list, and a completed one
      still in the future is in both. */
  lemma Partition(appointments: seq<Appointment>, now: int, a: Appointment)
    requires a in appointments
    ensures a.status == Cancelled ==> a !in UpcomingAppointments(appointments, now)
    ensures a.status == Completed ==> a in PastAppointments(appointments, now)
    ensures a.status != Cancelled && a.status != Completed ==>
      (a in UpcomingAppointments(appointments, now) <==> a !in PastAppointments(appointments, now))
    ensures a.status == Completed && Moment(a) > now ==>
      a in UpcomingAppointments(appointments, now) && a in PastAppointments(appointments, now)
  {
  }

  function Min(a: int, b: int): int { if a < b then a else b }

  /** The overview's two panels: the first three upcoming, the first five past. */
  function OverviewUpcoming(appointments: seq<Appointment>, now: int): (r: seq<Appointment>)
    ensures |r| == Min(3, |UpcomingAppointments(appointments, now)|) && r <= UpcomingAppointments(appointments, now)
  {
    Take(UpcomingAppointments(appointments, now), 3)
  }

  function OverviewPast(appointments: seq<Appointment>, now: int): (r: seq<Appointment>)
    ensures |r| == Min(5, |PastAppointments(appointments, now)|) && r <= PastAppointments(appointments, now)
  {
    Take(PastAppointments(appointments, now), 5)
  }

  /** Both lists keep the fetched order: filtering a concatenation filters
      each part. */
  lemma ListsKeepOrder(front: seq<Appointment>, back: seq<Appointment>, now: int)
    ensures UpcomingAppointments(front + back, now)
         == UpcomingAppointments(front, now) + UpcomingAppointments(back, now)
    ensures PastAppointments(front + back, now) == PastAppointments(front, now) + PastAppointments(back, now)
  {
    FilterConcat(front, back, a => Upcoming(a, now));
    FilterConcat(front, back, a => Past(a, now));
  }

  function StatusName(s: Status): string {
    match s
    case Pending => "pending"
    case Confirmed => "confirmed"
    case Completed => "completed"
    case Cancelled => "cancelled"
  }

  /** The status label: the status with its first letter upper-cased. */
  function StatusLabel(s: Status): (r: string)
    ensures |r| == |StatusName(s)| && r[1..] == StatusName(s)[1..]
    ensures 'A' <= r[0] <= 'Z'
  {
    Capitalize(StatusName(s))
  }

  lemma StatusLabels()
    ensures StatusLabel(Pending) == "Pending" && StatusLabel(Confirmed) == "Confirmed"
    ensures StatusLabel(Completed) == "Completed" && StatusLabel(Cancelled) == "Cancelled"
  {
    assert StatusLabel(Pending) == [UpperChar('p')] + "ending";
    assert StatusLabel(Confirmed) == [UpperChar('c')] + "onfirmed";
    assert StatusLabel(Completed) == [UpperChar('c')] + "ompleted";
    assert StatusLabel(Cancelled) == [UpperChar('c')] + "ancelled";
  }
}
