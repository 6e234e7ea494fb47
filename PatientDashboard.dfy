/** The patient dashboard's decisions: which appointments count as current,
    how many of them are previewed, how a status is labelled and coloured,
    the five-way filter of the all-appointments screen, and the colour of a
    report. */
module PatientDashboard {
  import opened Platform
  import opened Sequences
  import opened Appointments

  /** Still open from the patient's point of view: scheduled, in progress,
      rescheduled, or waiting (no-show). */
  predicate IsCurrent(a: AppointmentData) {
    a.status == Scheduled || a.status == InProgress || a.status == Rescheduled || a.status == NoShow
  }

  /** `PatientDashboardView.currentAppointments`. */
  function CurrentAppointments(appointments: seq<AppointmentData>): (current: seq<AppointmentData>)
    ensures |current| <= |appointments|
    ensures forall a :: a in current <==> a in appointments && IsCurrent(a)
  {
    Filter(IsCurrent, appointments)
  }

  /** The current appointments are exactly the open ones, every copy of
      each, in the order they were listed. */
  lemma CurrentAppointmentsSpec(appointments: seq<AppointmentData>)
    ensures IsSubsequence(CurrentAppointments(appointments), appointments)
    ensures forall a :: a in CurrentAppointments(appointments) <==>
      a in appointments && a.status in {Scheduled, InProgress, Rescheduled, NoShow}
    ensures forall a :: multiset(CurrentAppointments(appointments))[a] ==
                        (if IsCurrent(a) then multiset(appointments)[a] else 0)
  {
    FilterIsSubsequence(IsCurrent, appointments);
    forall a ensures multiset(CurrentAppointments(appointments))[a] ==
                     (if IsCurrent(a) then multiset(appointments)[a] else 0) {
      FilterCount(IsCurrent, appointments, a);
    }
  }

  /** `CurrentAppointmentsSection`'s `appointments.prefix(2)`: the first two
      current appointments, or all of them when there are fewer. */
  function Preview(current: seq<AppointmentData>): (shown: seq<AppointmentData>)
    ensures |shown| == if |current| < 2 then |current| else 2
    ensures forall i :: 0 <= i < |shown| ==> shown[i] == current[i]
  {
    Prefix(current, 2)
  }

  /** `AppointmentCard.statusColor`. */
  function StatusColour(status: AppointmentStatus): (c: Colour)
    ensures c in {MedicareBlue, MedicareGreen, Gray, MedicareRed, Orange}
    ensures c == Gray <==> status == AppointmentStatus.Completed || status == Unset
    ensures c == MedicareBlue <==> status == Scheduled || status == Rescheduled
    ensures c == MedicareGreen <==> status == InProgress
    ensures c == MedicareRed <==> status == AppointmentStatus.Cancelled
    ensures c == Orange <==> status == NoShow
  {
    match status
    case Scheduled | Rescheduled => MedicareBlue
    case InProgress => MedicareGreen
    case Completed => Gray
    case Cancelled => MedicareRed
    case NoShow => Orange
    case Unset => Gray
  }

  /** Which statuses share a colour: scheduled with rescheduled, completed
      with unset; every other pair is told apart. */
  lemma StatusColourShared(a: AppointmentStatus, b: AppointmentStatus)
    ensures StatusColour(a) == StatusColour(b) <==>
      a == b || {a, b} == {Scheduled, Rescheduled} || {a, b} == {AppointmentStatus.Completed, Unset}
  {
  }

  /** `AppointmentCard.statusText`: a no-show is shown as waiting, and an
      unset status as "None". */
  function StatusText(status: AppointmentStatus): (text: string)
    ensures text == "Scheduled" <==> status == Scheduled
    ensures text == "Completed" <==> status == AppointmentStatus.Completed
    ensures text == "Cancelled" <==> status == AppointmentStatus.Cancelled
    ensures text == "Rescheduled" <==> status == Rescheduled
    ensures text == "Waiting" <==> status == NoShow
    ensures text == "None" <==> status == Unset
    ensures text == "In Progress" <==> status == InProgress
  {
    match status
    case Scheduled => "Scheduled"
    case InProgress => "In Progress"
    case Completed => "Completed"
    case Cancelled => "Cancelled"
    case NoShow => "Waiting"
    case Rescheduled => "Rescheduled"
    case Unset => "None"
  }

  /** No two statuses share a label. */
  lemma StatusTextDistinct(a: AppointmentStatus, b: AppointmentStatus)
    requires StatusText(a) == StatusText(b)
    ensures a == b
  {
  }

  /** `AllAppointmentsView.AppointmentFilter`. */
  datatype AppointmentFilter = All | Upcoming | Completed | Cancelled | Waiting

  /** `AppointmentFilter.title`: the waiting filter is titled "Waitlist". */
  function Title(f: AppointmentFilter): (title: string)
    ensures title == "Upcoming" <==> f == Upcoming
    ensures title == "Completed" <==> f == AppointmentFilter.Completed
    ensures title == "Cancelled" <==> f == AppointmentFilter.Cancelled
    ensures title == "Waitlist" <==> f == Waiting
    ensures title == "All" <==> f == All
  {
    match f
    case All => "All"
    case Upcoming => "Upcoming"
    case Completed => "Completed"
    case Cancelled => "Cancelled"
    case Waiting => "Waitlist"
  }

  /** The filter bar keys its buttons by title, so titles must differ. */
  lemma TitlesDistinct(f: AppointmentFilter, g: AppointmentFilter)
    requires Title(f) == Title(g)
    ensures f == g
  {
  }

  predicate IsUpcoming(a: AppointmentData) {
    a.status == Scheduled || a.status == Rescheduled || a.status == InProgress
  }

  predicate IsCompleted(a: AppointmentData) {
    a.status == AppointmentStatus.Completed
  }

  predicate IsCancelled(a: AppointmentData) {
    a.status == AppointmentStatus.Cancelled
  }

  predicate IsWaiting(a: AppointmentData) {
    a.status == NoShow
  }

  /** `AllAppointmentsView.filteredAppointments`. */
  function FilteredAppointments(f: AppointmentFilter, appointments: seq<AppointmentData>): (shown: seq<AppointmentData>)
    ensures f == All ==> shown == appointments
    ensures |shown| <= |appointments|
    ensures forall a :: a in shown <==> a in appointments && Keeps(f)(a)
  {
    match f
    case All => appointments
    case Upcoming => Filter(IsUpcoming, appointments)
    case Completed => Filter(IsCompleted, appointments)
    case Cancelled => Filter(IsCancelled, appointments)
    case Waiting => Filter(IsWaiting, appointments)
  }

  /** The records a filter keeps. */
  function Keeps(f: AppointmentFilter): (keep: AppointmentData -> bool) {
    match f
    case All => (a: AppointmentData) => true
    case Upcoming => IsUpcoming
    case Completed => IsCompleted
    case Cancelled => IsCancelled
    case Waiting => IsWaiting
  }

  /** The bucket a status is listed under, apart from "All"; unset statuses
      are listed under none. */
  function BucketOf(status: AppointmentStatus): (f: Option<AppointmentFilter>)
    ensures f.None? <==> status == Unset
    ensures f != Some(All)
  {
    match status
    case Scheduled | Rescheduled | InProgress => Some(Upcoming)
    case Completed => Some(AppointmentFilter.Completed)
    case Cancelled => Some(AppointmentFilter.Cancelled)
    case NoShow => Some(Waiting)
    case Unset => None
  }

  /** "All" returns the list as it is; every other filter keeps exactly the
      records in its bucket, every copy of each, in their original order. */
  lemma {:induction false} FilteredAppointmentsSpec(f: AppointmentFilter, appointments: seq<AppointmentData>)
    ensures f == All ==> FilteredAppointments(f, appointments) == appointments
    ensures FilteredAppointments(f, appointments) == Filter(Keeps(f), appointments)
    ensures IsSubsequence(FilteredAppointments(f, appointments), appointments)
    ensures f != All ==> forall a :: a in FilteredAppointments(f, appointments) <==>
      a in appointments && BucketOf(a.status) == Some(f)
  {
    if f == All {
      FilterKeepsAll(Keeps(f), appointments);
    }
    FilterIsSubsequence(Keeps(f), appointments);
  }

  /** Each record outside "All" is kept by exactly the filter of its bucket:
      the four buckets are disjoint, cover every set status, and miss `Unset`. */
  lemma KeepsExactlyItsBucket(f: AppointmentFilter, a: AppointmentData)
    requires f != All
    ensures Keeps(f)(a) <==> BucketOf(a.status) == Some(f)
  {
  }

  /** Across the four buckets every record with a set status appears once,
      and no record with an unset status appears. */
  lemma BucketsPartition(appointments: seq<AppointmentData>)
    ensures multiset(FilteredAppointments(Upcoming, appointments))
      + multiset(FilteredAppointments(AppointmentFilter.Completed, appointments))
      + multiset(FilteredAppointments(AppointmentFilter.Cancelled, appointments))
      + multiset(FilteredAppointments(Waiting, appointments))
      == multiset(Filter(HasStatus, appointments))
  {
    BucketFiltersPartition(appointments);
  }

  /** `BucketsPartition`, stated on the four filters themselves. */
  lemma {:induction false} BucketFiltersPartition(appointments: seq<AppointmentData>)
    ensures multiset(Filter(IsUpcoming, appointments))
      + multiset(Filter(IsCompleted, appointments))
      + multiset(Filter(IsCancelled, appointments))
      + multiset(Filter(IsWaiting, appointments))
      == multiset(Filter(HasStatus, appointments))
    decreases |appointments|
  {
    if appointments != [] {
      var first, rest := appointments[0], appointments[1..];
      BucketFiltersPartition(rest);
      var u, c, x, w := multiset(Filter(IsUpcoming, rest)), multiset(Filter(IsCompleted, rest)),
        multiset(Filter(IsCancelled, rest)), multiset(Filter(IsWaiting, rest));
      FilterStep(IsUpcoming, appointments);
      FilterStep(IsCompleted, appointments);
      FilterStep(IsCancelled, appointments);
      FilterStep(IsWaiting, appointments);
      FilterStep(HasStatus, appointments);
      var one := multiset{first};
      match first.status
      case Scheduled | Rescheduled | InProgress =>
        assert (one + u) + c + x + w == one + (u + c + x + w);
      case Completed =>
        assert u + (one + c) + x + w == one + (u + c + x + w);
      case Cancelled =>
        assert u + c + (one + x) + w == one + (u + c + x + w);
      case NoShow =>
        assert u + c + x + (one + w) == one + (u + c + x + w);
      case Unset =>
    }
  }

  predicate HasStatus(a: AppointmentData) {
    a.status != Unset
  }

  /** The upcoming list is the current list without its waiting (no-show)
      records; the waiting list is the rest of it. */
  lemma UpcomingWithinCurrent(appointments: seq<AppointmentData>)
    ensures FilteredAppointments(Upcoming, appointments) == Filter(IsUpcoming, CurrentAppointments(appointments))
    ensures FilteredAppointments(Waiting, appointments) == Filter(IsWaiting, CurrentAppointments(appointments))
  {
    FilterOfFilter(IsUpcoming, IsCurrent, appointments);
    FilterOfFilter(IsWaiting, IsCurrent, appointments);
  }

  /** The current list splits into exactly the upcoming and the waiting records. */
  lemma CurrentSplitsIntoUpcomingAndWaiting(appointments: seq<AppointmentData>)
    ensures multiset(CurrentAppointments(appointments)) ==
      multiset(FilteredAppointments(Upcoming, appointments)) + multiset(FilteredAppointments(Waiting, appointments))
  {
    var current := multiset(Filter(IsCurrent, appointments));
    var upcoming := multiset(Filter(IsUpcoming, appointments));
    var waiting := multiset(Filter(IsWaiting, appointments));
    forall a ensures current[a] == (upcoming + waiting)[a] {
      FilterCount(IsCurrent, appointments, a);
      FilterCount(IsUpcoming, appointments, a);
      FilterCount(IsWaiting, appointments, a);
    }
    assert current == upcoming + waiting;
  }

  /** The example listing: scheduled, completed, cancelled, no-show,
      rescheduled. */
  lemma FilterExample(a: AppointmentData)
    ensures var s := [a.(status := Scheduled), a.(status := AppointmentStatus.Completed),
      a.(status := AppointmentStatus.Cancelled), a.(status := NoShow), a.(status := Rescheduled)];
      && FilteredAppointments(Upcoming, s) == [a.(status := Scheduled), a.(status := Rescheduled)]
      && FilteredAppointments(Waiting, s) == [a.(status := NoShow)]
      && FilteredAppointments(All, s) == s
  {
    var s := [a.(status := Scheduled), a.(status := AppointmentStatus.Completed),
      a.(status := AppointmentStatus.Cancelled), a.(status := NoShow), a.(status := Rescheduled)];
    assert Filter(IsUpcoming, s[4..]) == [s[4]];
    assert Filter(IsUpcoming, s[3..]) == [s[4]];
    assert Filter(IsUpcoming, s[2..]) == [s[4]];
    assert Filter(IsUpcoming, s[1..]) == [s[4]];
    assert Filter(IsWaiting, s[4..]) == [];
    assert Filter(IsWaiting, s[3..]) == [s[3]];
    assert Filter(IsWaiting, s[2..]) == [s[3]];
    assert Filter(IsWaiting, s[1..]) == [s[3]];
  }

  /** `ReportCard.statusColor`. */
  function ReportColour(status: string): (c: Colour)
    ensures c == MedicareGreen <==> status == "Within Range" || status == "No Abnormalities"
    ensures c == MedicareRed <==> !(status == "Within Range" || status == "No Abnormalities")
  {
    if status == "Within Range" || status == "No Abnormalities" then MedicareGreen else MedicareRed
  }
}
