/** The staff record: its derived age and years of service, its two summary
    strings, and the staff status enumeration. */
module StaffModel {
  import opened Platform
  import opened Strings

  /** A staff member's status, stored as its raw string value. */
  datatype StaffStatus = Available | Busy | Breaks | OffDuty

  datatype Staff = Staff(
    id: string,
    name: string,
    email: string,
    dateOfBirth: Option<Date>,
    joinDate: Option<Date>,
    educationalQualification: Option<string>,
    certificates: Option<seq<string>>,
    staffRole: Option<string>,
    status: Option<StaffStatus>)

  /** `Staff.age`: absent without a date of birth. */
  function Age(s: Staff, yearsSince: YearsSince): (age: Option<int>)
    ensures age.None? <==> s.dateOfBirth.None?
    ensures age.Some? ==> age.value == yearsSince(s.dateOfBirth.value)
  {
    if s.dateOfBirth.None? then None else Some(yearsSince(s.dateOfBirth.value))
  }

  /** `Staff.yearsOfService`: absent without a join date. */
  function YearsOfService(s: Staff, yearsSince: YearsSince): (years: Option<int>)
    ensures years.None? <==> s.joinDate.None?
  {
    if s.joinDate.None? then None else Some(yearsSince(s.joinDate.value))
  }

  /** `Staff.basicInfo`: the name, then the role and the years of service
      where they are known. */
  function BasicInfo(s: Staff, yearsSince: YearsSince): (r: string)
    ensures |r| >= |s.name| && r[..|s.name|] == s.name
    ensures r == s.name <==> s.staffRole.None? && s.joinDate.None?
  {
    var withRole := if s.staffRole.Some? then s.name + " - " + s.staffRole.value else s.name;
    var years := YearsOfService(s, yearsSince);
    if years.Some? then withRole + " (" + IntToString(years.value) + " years of service)" else withRole
  }

  /** The summary in each of its four shapes. */
  lemma BasicInfoFormat(s: Staff, yearsSince: YearsSince)
    ensures s.staffRole.None? && s.joinDate.None? ==> BasicInfo(s, yearsSince) == s.name
    ensures s.staffRole.Some? && s.joinDate.None? ==> BasicInfo(s, yearsSince) == s.name + " - " + s.staffRole.value
    ensures s.staffRole.None? && s.joinDate.Some? ==>
      BasicInfo(s, yearsSince) == s.name + " (" + IntToString(yearsSince(s.joinDate.value)) + " years of service)"
    ensures s.staffRole.Some? && s.joinDate.Some? ==>
      BasicInfo(s, yearsSince) == s.name + " - " + s.staffRole.value + " (" + IntToString(yearsSince(s.joinDate.value)) + " years of service)"
  {
  }

  /** Two staff members with the same name and role get the same summary
      only when their years of service agree, known or not. */
  lemma BasicInfoDistinguishesYears(s: Staff, t: Staff, yearsSince: YearsSince)
    requires s.name == t.name && s.staffRole == t.staffRole
    ensures BasicInfo(s, yearsSince) == BasicInfo(t, yearsSince) ==>
      YearsOfService(s, yearsSince) == YearsOfService(t, yearsSince)
  {
    var head := BasicInfo(s.(joinDate := None), yearsSince);
    if s.joinDate.Some? && t.joinDate.Some? {
      if BasicInfo(s, yearsSince) == BasicInfo(t, yearsSince) {
        var prefix := head + " (";
        var a, b := yearsSince(s.joinDate.value), yearsSince(t.joinDate.value);
        assert BasicInfo(s, yearsSince) == prefix + IntToString(a) + " years of service)";
        assert BasicInfo(t, yearsSince) == prefix + IntToString(b) + " years of service)";
        CancelFrame(prefix, IntToString(a), IntToString(b), " years of service)");
        IntToStringInjective(a, b);
      }
    } else if s.joinDate.Some? {
      assert |BasicInfo(s, yearsSince)| > |head| == |BasicInfo(t, yearsSince)|;
    } else if t.joinDate.Some? {
      assert |BasicInfo(t, yearsSince)| > |head| == |BasicInfo(s, yearsSince)|;
    }
  }

  /** What `educationInfo` shows when it has nothing to show. */
  const NoEducationInfo := "No educational information available"

  /** The text `educationInfo` builds before the empty check: the
      qualification, then " - " if that text is non-empty, then the
      certificates joined by ", " when the list is non-empty. */
  function EducationText(s: Staff): (text: string) {
    var info := if s.educationalQualification.Some? then s.educationalQualification.value else "";
    if s.certificates.Some? && s.certificates.value != [] then
      (if info != "" then info + " - " else info) + Join(s.certificates.value, ", ")
    else info
  }

  /** `Staff.educationInfo`. */
  function EducationInfo(s: Staff): (r: string)
    ensures r != ""
    ensures r == NoEducationInfo <==> EducationText(s) == "" || EducationText(s) == NoEducationInfo
  {
    var info := EducationText(s);
    if info == "" then NoEducationInfo else info
  }

  /** The built text is empty exactly when the qualification is absent or
      empty and the certificates are absent, empty, or a single empty string. */
  lemma EducationTextEmpty(s: Staff)
    ensures EducationText(s) == "" <==>
      (s.educationalQualification.None? || s.educationalQualification == Some("")) &&
      (s.certificates.None? || s.certificates == Some([]) || s.certificates == Some([""]))
  {
    if s.certificates.Some? {
      JoinEmpty(s.certificates.value, ", ");
    }
  }

  /** With no qualification and no certificates the placeholder is shown. */
  lemma NothingRecordedShowsPlaceholder(s: Staff)
    requires s.educationalQualification.None?
    requires s.certificates.None? || s.certificates == Some([])
    ensures EducationInfo(s) == NoEducationInfo
  {
  }

  /** When every recorded text is non-empty and what is built does not
      happen to spell the placeholder, the placeholder is shown exactly when
      neither a qualification nor any certificate is recorded. */
  lemma PlaceholderIffNothingRecorded(s: Staff)
    requires s.educationalQualification != Some("") && s.certificates != Some([""])
    requires EducationText(s) != NoEducationInfo
    ensures EducationInfo(s) == NoEducationInfo <==>
      s.educationalQualification.None? && (s.certificates.None? || s.certificates == Some([]))
  {
    EducationTextEmpty(s);
  }

  /** The shown text for each combination of qualification and certificates:
      an empty qualification is shown like a missing one. */
  lemma EducationInfoFormat(s: Staff)
    ensures (s.educationalQualification.Some? && s.educationalQualification.value != "" &&
      (s.certificates.None? || s.certificates == Some([]))) ==>
      EducationInfo(s) == s.educationalQualification.value
    ensures (s.educationalQualification.Some? && s.educationalQualification.value != "" &&
      s.certificates.Some? && s.certificates.value != []) ==>
      EducationInfo(s) == s.educationalQualification.value + " - " + Join(s.certificates.value, ", ")
    ensures ((s.educationalQualification.None? || s.educationalQualification == Some("")) &&
      s.certificates.Some? && s.certificates.value != [] &&
      Join(s.certificates.value, ", ") != "") ==>
      EducationInfo(s) == Join(s.certificates.value, ", ")
  {
  }

  /** `StaffStatus.rawValue`. */
  function RawValue(status: StaffStatus): (raw: string)
    ensures raw in {"Available", "Busy", "On Break", "Off Duty"}
    ensures raw == "Available" <==> status == Available
    ensures raw == "Busy" <==> status == Busy
    ensures raw == "On Break" <==> status == Breaks
    ensures raw == "Off Duty" <==> status == OffDuty
  {
    match status
    case Available => "Available"
    case Busy => "Busy"
    case Breaks => "On Break"
    case OffDuty => "Off Duty"
  }

  /** `StaffStatus(rawValue:)`: the status stored under a string, if any. */
  function FromRawValue(raw: string): (status: Option<StaffStatus>)
    ensures status.Some? ==> RawValue(status.value) == raw
  {
    if raw == "Available" then Some(Available)
    else if raw == "Busy" then Some(Busy)
    else if raw == "On Break" then Some(Breaks)
    else if raw == "Off Duty" then Some(OffDuty)
    else None
  }

  /** Every status is read back from its raw value, so no two share one. */
  lemma RawValueRoundTrip(status: StaffStatus)
    ensures FromRawValue(RawValue(status)) == Some(status)
  {
  }

  lemma RawValuesDistinct(a: StaffStatus, b: StaffStatus)
    requires RawValue(a) == RawValue(b)
    ensures a == b
  {
  }

  /** `StaffStatus.color`. */
  function StatusColour(status: StaffStatus): (c: Colour)
    ensures c in {Green, Orange, Blue, Red}
    ensures c == Green <==> status == Available
    ensures c == Orange <==> status == Busy
    ensures c == Blue <==> status == Breaks
    ensures c == Red <==> status == OffDuty
  {
    match status
    case Available => Green
    case Busy => Orange
    case Breaks => Blue
    case OffDuty => Red
  }

  /** Each status has its own colour. */
  lemma StatusColourDistinct(a: StaffStatus, b: StaffStatus)
    requires StatusColour(a) == StatusColour(b)
    ensures a == b
  {
  }
}
