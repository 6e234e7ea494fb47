/** The doctor record: its leave schedule, the availability check, the
    one-line summary, and the two rules applied when a stored doctor
    document is decoded (schedule normalisation, license verification). */
module DoctorModel {
  import opened Platform
  import opened Strings

  /** Leave recorded for a doctor. Either list may be absent. */
  datatype Schedule = Schedule(leaveTimeSlots: Option<seq<Date>>, fullDayLeaves: Option<seq<Date>>)

  datatype Doctor = Doctor(
    id: string,
    name: string,
    number: Option<int>,
    email: string,
    speciality: string,
    licenseRegNo: Option<string>,
    smc: Option<string>,
    gender: Option<string>,
    dateOfBirth: Option<Date>,
    yearOfRegistration: Option<int>,
    schedule: Option<Schedule>)

  /** Same calendar day: year, month and day agree. */
  predicate SameDay(a: Date, b: Date) {
    a.year == b.year && a.month == b.month && a.day == b.day
  }

  /** Same minute: year, month, day, hour and minute agree. */
  predicate SameMinute(a: Date, b: Date) {
    SameDay(a, b) && a.hour == b.hour && a.minute == b.minute
  }

  /** The day of `date` is one of the full-day leaves. */
  ghost predicate OnFullDayLeave(s: Schedule, date: Date) {
    s.fullDayLeaves.Some? && exists leave :: leave in s.fullDayLeaves.value && SameDay(leave, date)
  }

  /** The minute of `date` is one of the leave time slots. */
  ghost predicate InLeaveSlot(s: Schedule, date: Date) {
    s.leaveTimeSlots.Some? && exists slot :: slot in s.leaveTimeSlots.value && SameMinute(slot, date)
  }

  /** When a doctor can be booked: no schedule at all, or neither a full-day
      leave on that day nor a leave slot at that minute. */
  ghost predicate Available(schedule: Option<Schedule>, date: Date) {
    schedule.None? || (!OnFullDayLeave(schedule.value, date) && !InLeaveSlot(schedule.value, date))
  }

  /** `fullDayLeaves.contains(where:)` with the same-day test. */
  function AnyOnSameDay(leaves: seq<Date>, date: Date): (r: bool)
    ensures r <==> exists leave :: leave in leaves && SameDay(leave, date)
    decreases |leaves|
  {
    if leaves == [] then false
    else SameDay(leaves[0], date) || AnyOnSameDay(leaves[1..], date)
  }

  /** `Doctor.isAvailable(on:)`: the full-day leaves first, then a scan of the
      leave slots that stops at the first one in the same minute. */
  method IsAvailable(doctor: Doctor, date: Date) returns (available: bool)
    ensures available <==> Available(doctor.schedule, date)
  {
    if doctor.schedule.None? {
      return true;
    }
    var schedule := doctor.schedule.value;
    if schedule.fullDayLeaves.Some? && AnyOnSameDay(schedule.fullDayLeaves.value, date) {
      return false;
    }
    if schedule.leaveTimeSlots.Some? {
      var slots := schedule.leaveTimeSlots.value;
      for i := 0 to |slots|
        invariant forall j :: 0 <= j < i ==> !SameMinute(slots[j], date)
      {
        if SameMinute(slots[i], date) {
          return false;
        }
      }
    }
    return true;
  }

  /** Without a schedule a doctor is available at every instant. */
  lemma NoScheduleAlwaysAvailable(date: Date)
    ensures Available(None, date)
  {
  }

  /** A full-day leave blocks every instant of its day. */
  lemma FullDayLeaveBlocksDay(s: Schedule, leave: Date, date: Date)
    requires s.fullDayLeaves.Some? && leave in s.fullDayLeaves.value
    requires SameDay(leave, date)
    ensures !Available(Some(s), date)
  {
  }

  /** A leave slot blocks the instants of its minute. */
  lemma LeaveSlotBlocksMinute(s: Schedule, slot: Date, date: Date)
    requires s.leaveTimeSlots.Some? && slot in s.leaveTimeSlots.value
    requires SameMinute(slot, date)
    ensures !Available(Some(s), date)
  {
  }

  /** The seconds of the queried instant never change the answer. */
  lemma SecondsIgnored(schedule: Option<Schedule>, date: Date, second: int)
    ensures Available(schedule, date) <==> Available(schedule, date.(second := second))
  {
  }

  /** A schedule whose lists are absent or empty records no leave. */
  lemma NoLeaveRecordedAlwaysAvailable(s: Schedule, date: Date)
    requires s.leaveTimeSlots == None || s.leaveTimeSlots == Some([])
    requires s.fullDayLeaves == None || s.fullDayLeaves == Some([])
    ensures Available(Some(s), date)
  {
  }

  /** One full-day leave and one leave slot: the day and the exact minute are
      blocked, the next minute and the next day are not. */
  lemma LeaveExample()
    ensures var s := Some(Schedule(Some([Date(2025, 6, 10, 9, 0, 0)]), Some([Date(2025, 6, 1, 0, 0, 0)])));
      && !Available(s, Date(2025, 6, 1, 14, 0, 0))
      && !Available(s, Date(2025, 6, 10, 9, 0, 0))
      && Available(s, Date(2025, 6, 10, 9, 1, 0))
      && Available(s, Date(2025, 6, 2, 9, 0, 0))
  {
    var s := Schedule(Some([Date(2025, 6, 10, 9, 0, 0)]), Some([Date(2025, 6, 1, 0, 0, 0)]));
    FullDayLeaveBlocksDay(s, Date(2025, 6, 1, 0, 0, 0), Date(2025, 6, 1, 14, 0, 0));
    LeaveSlotBlocksMinute(s, Date(2025, 6, 10, 9, 0, 0), Date(2025, 6, 10, 9, 0, 0));
  }

  /** `Doctor.basicInfo`: the name, then the license number and the year of
      registration where they are recorded. */
  function BasicInfo(d: Doctor): (r: string)
    ensures |r| >= |d.name| && r[..|d.name|] == d.name
    ensures r == d.name <==> d.licenseRegNo.None? && d.yearOfRegistration.None?
  {
    var withLicense := if d.licenseRegNo.Some? then d.name + " (License: " + d.licenseRegNo.value + ")" else d.name;
    if d.yearOfRegistration.Some? then withLicense + " - Registered: " + IntToString(d.yearOfRegistration.value) else withLicense
  }

  /** The summary in each of its four shapes. */
  lemma BasicInfoFormat(d: Doctor)
    ensures d.licenseRegNo.None? && d.yearOfRegistration.None? ==> BasicInfo(d) == d.name
    ensures d.licenseRegNo.Some? && d.yearOfRegistration.None? ==>
      BasicInfo(d) == d.name + " (License: " + d.licenseRegNo.value + ")"
    ensures d.licenseRegNo.None? && d.yearOfRegistration.Some? ==>
      BasicInfo(d) == d.name + " - Registered: " + IntToString(d.yearOfRegistration.value)
    ensures d.licenseRegNo.Some? && d.yearOfRegistration.Some? ==>
      BasicInfo(d) == d.name + " (License: " + d.licenseRegNo.value + ")" + " - Registered: " + IntToString(d.yearOfRegistration.value)
  {
  }

  /** Two doctors with the same name and license get the same summary only
      when their registration years agree, recorded or not. */
  lemma {:induction false} BasicInfoDistinguishesYear(d: Doctor, e: Doctor)
    requires d.name == e.name && d.licenseRegNo == e.licenseRegNo
    ensures BasicInfo(d) == BasicInfo(e) ==> d.yearOfRegistration == e.yearOfRegistration
  {
    var head := BasicInfo(d.(yearOfRegistration := None));
    if d.yearOfRegistration.Some? && e.yearOfRegistration.Some? {
      if BasicInfo(d) == BasicInfo(e) {
        var prefix := head + " - Registered: ";
        assert BasicInfo(d) == prefix + IntToString(d.yearOfRegistration.value) + "";
        assert BasicInfo(e) == prefix + IntToString(e.yearOfRegistration.value) + "";
        CancelFrame(prefix, IntToString(d.yearOfRegistration.value), IntToString(e.yearOfRegistration.value), "");
        IntToStringInjective(d.yearOfRegistration.value, e.yearOfRegistration.value);
      }
    } else if d.yearOfRegistration.Some? {
      assert |BasicInfo(d)| > |head| == |BasicInfo(e)|;
    } else if e.yearOfRegistration.Some? {
      assert |BasicInfo(e)| > |head| == |BasicInfo(d)|;
    }
  }

  /** `Doctor.age`: absent without a date of birth. */
  function Age(d: Doctor, yearsSince: YearsSince): (age: Option<int>)
    ensures age.None? <==> d.dateOfBirth.None?
    ensures age.Some? ==> age.value == yearsSince(d.dateOfBirth.value)
  {
    if d.dateOfBirth.None? then None else Some(yearsSince(d.dateOfBirth.value))
  }

  /** A leave list as stored in the doctor document: absent when the field is
      missing or is not an array of timestamps. */
  function LeaveList(field: Option<seq<Date>>): (dates: seq<Date>) {
    if field.Some? then field.value else []
  }

  /** An empty list is recorded as absent; a non-empty one is kept as it is. */
  function AbsentIfEmpty(dates: seq<Date>): (r: Option<seq<Date>>)
    ensures r.None? <==> dates == []
    ensures r.Some? ==> r.value == dates
  {
    if dates == [] then None else Some(dates)
  }

  /** The schedule built while decoding a stored doctor document: absent
      when the document has no schedule map, otherwise both leave lists with
      empty ones recorded as absent. */
  function DecodeSchedule(stored: Option<Schedule>): (r: Option<Schedule>)
    ensures r.None? <==> stored.None?
    ensures r.Some? ==> r.value.leaveTimeSlots != Some([]) && r.value.fullDayLeaves != Some([])
    ensures r.Some? && r.value.leaveTimeSlots.Some? ==> r.value.leaveTimeSlots == stored.value.leaveTimeSlots
    ensures r.Some? && r.value.fullDayLeaves.Some? ==> r.value.fullDayLeaves == stored.value.fullDayLeaves
    ensures stored.Some? && stored.value.leaveTimeSlots.Some? && stored.value.leaveTimeSlots.value != [] ==>
      r.value.leaveTimeSlots == stored.value.leaveTimeSlots
    ensures stored.Some? && stored.value.fullDayLeaves.Some? && stored.value.fullDayLeaves.value != [] ==>
      r.value.fullDayLeaves == stored.value.fullDayLeaves
  {
    if stored.None? then None
    else Some(Schedule(
      AbsentIfEmpty(LeaveList(stored.value.leaveTimeSlots)),
      AbsentIfEmpty(LeaveList(stored.value.fullDayLeaves))))
  }

  /** Decoding twice is decoding once. */
  lemma DecodeScheduleIdempotent(stored: Option<Schedule>)
    ensures DecodeSchedule(DecodeSchedule(stored)) == DecodeSchedule(stored)
  {
  }

  /** Decoding never changes whether the doctor is available. */
  lemma DecodeSchedulePreservesAvailability(stored: Option<Schedule>, date: Date)
    ensures Available(DecodeSchedule(stored), date) <==> Available(stored, date)
  {
  }

  /** The status the document's license details record is "verified", in any case. */
  function LicenseVerified(verificationStatus: Option<string>): (verified: bool)
    ensures verified <==> (verificationStatus.Some? && |verificationStatus.value| == 8 &&
      forall i :: 0 <= i < 8 ==> verificationStatus.value[i] == "verified"[i] || verificationStatus.value[i] == "VERIFIED"[i])
  {
    verificationStatus.Some? && Lowercased(verificationStatus.value) == "verified"
  }

  lemma LicenseVerifiedExamples()
    ensures LicenseVerified(Some("Verified")) && LicenseVerified(Some("VERIFIED"))
    ensures !LicenseVerified(None) && !LicenseVerified(Some("pending")) && !LicenseVerified(Some("unverified"))
  {
  }
}
