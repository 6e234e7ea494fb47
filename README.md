# HMS_APP decision logic, modelled in Dafny

HMS_APP is a hospital-management mobile client. Almost all of it is screen
layout and calls to a hosted document database. This project models the
small pieces of in-memory decision logic that sit among them, and proves
what they promise:

- **Doctor availability** (`DoctorModel`). A doctor with no schedule is
  always available. A full-day leave blocks its whole calendar day. A leave
  time slot blocks its minute. `IsAvailable` is the source's check: a
  `contains(where:)` over the full-day leaves, then a `for` scan over the
  leave slots that returns at the first match. It is proved equal to the
  predicate `Available`, which states the rule with quantifiers. The file
  also models two rules used when a stored doctor document is decoded:
  empty leave lists become absent, and the license counts as verified when
  its status reads "verified" in any case.
- **Summary strings** (`DoctorModel.BasicInfo`, `StaffModel.BasicInfo`,
  `PatientModel.BasicInfo`). Each starts with the name. Each is exactly the
  name when nothing optional is recorded. Each tells apart records that
  differ only in their number (registration year, years of service, age),
  whether that number is recorded for both, for one or for neither.
  `Int` interpolation is modelled as decimal rendering
  (`Strings.IntToString`). That rendering is proved injective through its
  parse-back.
- **Staff education text** (`StaffModel.EducationInfo`). It does not hold
  the name and renders no number. It shows the qualification, then " - "
  and the certificates joined by ", " when both are there. When the text
  it builds is empty it shows "No educational information available", so
  it is never empty.
- **Staff status** (`StaffModel`): raw values round-trip through
  `FromRawValue`, and each status has its own colour.
- **Patient dashboard** (`PatientDashboard`):
  - the "current appointments" subset and its two-item preview;
  - the status label and colour maps;
  - the five-way filter of the all-appointments screen;
  - the report colour rule.

  Every filter is Swift's `filter`, modelled once as `Sequences.Filter`. It
  is proved to keep exactly the matching elements, every copy of each, in
  their original order.
- **Doctor search** (`DoctorsView`): the department / availability / search
  predicate, and the field copy into the detail-screen profile.

Dates are calendar components (`Platform.Date`). "Years since a date" (age,
years of service) is a function the caller supplies, standing for the clock
and the calendar. Colours are tags (`Platform.Colour`).

Two points where the code is more precise than a plain reading:

- The text `educationInfo` builds is checked for emptiness, not the fields.
  An empty qualification counts as no qualification, and a certificate
  list holding one empty string counts as no certificates. The placeholder
  appears only when both hold. The exact condition is
  `StaffModel.EducationTextEmpty`. A list holding one empty string after a
  qualification still adds " - " (qualification "BSc" shows "BSc - "). The "placeholder iff nothing recorded"
  reading holds only for non-empty texts (`StaffModel.PlaceholderIffNothingRecorded`).
- The decoder turns an empty stored leave list into an absent one. So a
  stored schedule with empty lists does not come back as it was stored. The
  model follows the code (`DoctorModel.DecodeSchedule`). It proves that this
  never changes an availability verdict
  (`DoctorModel.DecodeSchedulePreservesAvailability`).

## Model

| member | source | states |
|---|---|---|
| DoctorModel.IsAvailable | HMS_APP/Models/DoctorModel.swift:144-179 | the result is true exactly when there is no schedule, or no full-day leave falls on the queried day and no leave slot falls on the queried minute (`Available`) |
| DoctorModel.AnyOnSameDay | HMS_APP/Models/DoctorModel.swift:153-160 | the full-day-leave scan answers true iff some leave has the queried year, month and day |
| DoctorModel.NoScheduleAlwaysAvailable | HMS_APP/Models/DoctorModel.swift:145 | without a schedule every instant is available |
| DoctorModel.FullDayLeaveBlocksDay | HMS_APP/Models/DoctorModel.swift:148-160 | a full-day leave on the queried day makes it unavailable whatever the time |
| DoctorModel.LeaveSlotBlocksMinute | HMS_APP/Models/DoctorModel.swift:163-175 | a leave slot matching to the minute makes the instant unavailable |
| DoctorModel.SecondsIgnored | HMS_APP/Models/DoctorModel.swift:149-172 | changing only the seconds of the queried instant never changes the verdict |
| DoctorModel.NoLeaveRecordedAlwaysAvailable | HMS_APP/Models/DoctorModel.swift:153-178 | a schedule whose lists are absent or empty is available at every instant |
| DoctorModel.LeaveExample | HMS_APP/Models/DoctorModel.swift:144-179 | with leave on 2025-06-01 and a slot at 2025-06-10 09:00: that day and that minute are blocked, 09:01 and 2025-06-02 are not |
| DoctorModel.BasicInfo | HMS_APP/Models/DoctorModel.swift:127-139 | the summary starts with the name and equals it iff neither license number nor registration year is recorded |
| DoctorModel.BasicInfoFormat | HMS_APP/Models/DoctorModel.swift:127-139 | the four shapes: name, then " (License: X)" if recorded, then " - Registered: Y" if recorded |
| DoctorModel.BasicInfoDistinguishesYear | HMS_APP/Models/DoctorModel.swift:134-136 | with the same name and license, equal summaries imply equal registration years, including whether one is recorded at all |
| DoctorModel.Age | HMS_APP/Models/DoctorModel.swift:118-124 | the age is absent iff the date of birth is, and otherwise is the years since it |
| DoctorModel.AbsentIfEmpty | HMS_APP/Models/DoctorModel.swift:271-274 | an empty leave list becomes absent; a non-empty one is kept unchanged |
| DoctorModel.DecodeSchedule | HMS_APP/Models/DoctorModel.swift:256-275 | no schedule map gives no schedule; a decoded schedule never holds an empty list; a non-empty stored list comes back unchanged, in order, and every list the decoded schedule holds is the stored one |
| DoctorModel.DecodeScheduleIdempotent | HMS_APP/Models/DoctorModel.swift:271-274 | normalising an already decoded schedule changes nothing |
| DoctorModel.DecodeSchedulePreservesAvailability | HMS_APP/Models/DoctorModel.swift:256-275 | the decoded schedule gives the same availability verdict as the stored one at every instant |
| DoctorModel.LicenseVerified | HMS_APP/Models/DoctorModel.swift:277-283 | verified iff a status is present and has eight characters, each one the letter of "verified" in lower or upper case; a missing status is not verified |
| DoctorModel.LicenseVerifiedExamples | HMS_APP/Models/DoctorModel.swift:308-325 | "Verified" and "VERIFIED" pass; a missing status, "pending" and "unverified" do not |
| Strings.IntToString | HMS_APP/Models/PatientModel.swift:74 | an `Int` interpolates to a '-' exactly when it is negative, then decimal digits that read back as its magnitude, with no leading zero |
| Strings.IntToStringInjective | HMS_APP/Models/PatientModel.swift:74 | different integers interpolate to different strings |
| Strings.DigitsValueOfNatToString | HMS_APP/Models/StaffModel.swift:114 | reading back the decimal digits of a number gives the number |
| Strings.ContainsIgnoringCase | HMS_APP/Views/Patient/views/DoctorsView.swift:37-39 | true iff the lower-cased needle occurs at some position of the lower-cased text |
| Strings.JoinEmpty | HMS_APP/Models/StaffModel.swift:128-133 | joining with ", " gives "" iff the list is empty or is one empty string |
| Sequences.Filter | HMS_APP/Views/Patient/views/PatientDashboard.swift:473-475 | a filter keeps exactly the elements of the input that satisfy the predicate and is no longer than the input |
| Sequences.FilterIsSubsequence | HMS_APP/Views/Patient/views/DoctorsView.swift:33-42 | a filter's result is an order-preserving subsequence of its input |
| Sequences.FilterCount | HMS_APP/Views/Patient/views/PatientDashboard.swift:476-483 | a filter keeps every copy of a matching element and no copy of any other |
| StaffModel.Age | HMS_APP/Models/StaffModel.swift:88-94 | the age is absent iff the date of birth is, and otherwise is the years since it |
| StaffModel.YearsOfService | HMS_APP/Models/StaffModel.swift:97-103 | the years of service are absent iff the join date is |
| StaffModel.BasicInfo | HMS_APP/Models/StaffModel.swift:106-118 | the summary starts with the name and equals it iff neither role nor join date is recorded |
| StaffModel.BasicInfoFormat | HMS_APP/Models/StaffModel.swift:106-118 | the four shapes: name, then " - role" if recorded, then " (N years of service)" if known, in that order |
| StaffModel.BasicInfoDistinguishesYears | HMS_APP/Models/StaffModel.swift:113-115 | with the same name and role, equal summaries imply equal years of service, including whether they are known at all |
| StaffModel.EducationInfo | HMS_APP/Models/StaffModel.swift:121-136 | never empty; the placeholder is shown iff the built text is empty or is the placeholder text itself |
| StaffModel.EducationTextEmpty | HMS_APP/Models/StaffModel.swift:122-133 | the built text is empty iff the qualification is absent or empty and the certificates are absent, empty or a single empty string |
| StaffModel.NothingRecordedShowsPlaceholder | HMS_APP/Models/StaffModel.swift:121-136 | no qualification and no certificates show "No educational information available" |
| StaffModel.PlaceholderIffNothingRecorded | HMS_APP/Models/StaffModel.swift:121-136 | for non-empty texts, the placeholder is shown iff no qualification and no certificates are recorded |
| StaffModel.EducationInfoFormat | HMS_APP/Models/StaffModel.swift:124-135 | a qualification alone is shown as is; with certificates it is followed by " - " and the certificates joined by ", "; certificates alone, or after an empty qualification, are shown joined with no " - " |
| StaffModel.RawValue | HMS_APP/Models/StaffModel.swift:140-144 | each status is stored under its own string, each iff that status: available as "Available", busy as "Busy", on break as "On Break", off duty as "Off Duty" |
| StaffModel.FromRawValue | HMS_APP/Models/StaffModel.swift:140-144 | a string read as a status is that status's raw value |
| StaffModel.RawValueRoundTrip | HMS_APP/Models/StaffModel.swift:140-144 | every status is read back from its raw value |
| StaffModel.RawValuesDistinct | HMS_APP/Models/StaffModel.swift:141-144 | no two statuses share a raw value |
| StaffModel.StatusColour | HMS_APP/Models/StaffModel.swift:147-154 | available is green, busy orange, on break blue and off duty red, each colour iff that status |
| StaffModel.StatusColourDistinct | HMS_APP/Models/StaffModel.swift:148-153 | no two statuses share a colour |
| PatientModel.Age | HMS_APP/Models/PatientModel.swift:62-68 | the age is absent iff the date of birth is, and otherwise is the years since it |
| PatientModel.BasicInfo | HMS_APP/Models/PatientModel.swift:71-87 | the summary starts with the name and equals it iff neither age nor gender is known |
| PatientModel.BasicInfoFormat | HMS_APP/Models/PatientModel.swift:74-84 | name + " (Age: A, G)", name + " (Age: A)", name + " (G)" or the name alone, by which of age and gender are present |
| PatientModel.BasicInfoDistinguishesAge | HMS_APP/Models/PatientModel.swift:74-81 | with the same name and gender, equal summaries imply equal ages, including whether an age is known at all |
| PatientDashboard.CurrentAppointments | HMS_APP/Views/Patient/views/PatientDashboard.swift:20-24 | no longer than the input, and holds exactly the input's scheduled, in-progress, rescheduled and no-show records |
| PatientDashboard.CurrentAppointmentsSpec | HMS_APP/Views/Patient/views/PatientDashboard.swift:20-24 | current appointments are exactly the scheduled, in-progress, rescheduled and no-show records, every copy of each, in input order |
| PatientDashboard.Preview | HMS_APP/Views/Patient/views/PatientDashboard.swift:276 | the preview holds min(2, n) appointments, the first ones of the list |
| PatientDashboard.StatusColour | HMS_APP/Views/Patient/views/PatientDashboard.swift:331-341 | scheduled and rescheduled are blue, in progress green, cancelled red, no-show orange, and completed and unset gray, each colour iff its statuses |
| PatientDashboard.StatusColourShared | HMS_APP/Views/Patient/views/PatientDashboard.swift:332-339 | two statuses share a colour iff they are equal, or are scheduled and rescheduled, or are completed and unset |
| PatientDashboard.StatusText | HMS_APP/Views/Patient/views/PatientDashboard.swift:343-354 | each status gets its own label, each iff that status: "Scheduled", "In Progress", "Completed", "Cancelled", "Rescheduled", "Waiting" for a no-show and "None" when unset |
| PatientDashboard.StatusTextDistinct | HMS_APP/Views/Patient/views/PatientDashboard.swift:343-354 | the seven labels are pairwise distinct |
| PatientDashboard.Title | HMS_APP/Views/Patient/views/PatientDashboard.swift:457-465 | each filter gets its own title, each iff that filter: "All", "Upcoming", "Completed", "Cancelled", and "Waitlist" for the waiting filter |
| PatientDashboard.TitlesDistinct | HMS_APP/Views/Patient/views/PatientDashboard.swift:457-465 | the five filter titles are pairwise distinct, as the filter bar's keying by title needs |
| PatientDashboard.BucketOf | HMS_APP/Views/Patient/views/PatientDashboard.swift:472-484 | a status has no bucket iff it is unset, and "All" is never a status's bucket |
| PatientDashboard.FilteredAppointments | HMS_APP/Views/Patient/views/PatientDashboard.swift:468-485 | "All" gives the list unchanged; every filter's result is no longer than the list and holds exactly the records its predicate keeps |
| PatientDashboard.FilteredAppointmentsSpec | HMS_APP/Views/Patient/views/PatientDashboard.swift:468-485 | "All" returns the list unchanged; every filter's result is an order-preserving subsequence holding exactly the records of its bucket |
| PatientDashboard.KeepsExactlyItsBucket | HMS_APP/Views/Patient/views/PatientDashboard.swift:472-484 | each filter other than "All" keeps a record iff the record's status lies in that filter's bucket, so the buckets are disjoint |
| PatientDashboard.BucketsPartition | HMS_APP/Views/Patient/views/PatientDashboard.swift:472-484 | across the four buckets each record with a set status appears exactly once, and no record with an unset status appears |
| PatientDashboard.UpcomingWithinCurrent | HMS_APP/Views/Patient/views/PatientDashboard.swift:473-475 | the upcoming list is the current list filtered to non-waiting records; the waiting list is the current list filtered to no-show records |
| PatientDashboard.CurrentSplitsIntoUpcomingAndWaiting | HMS_APP/Views/Patient/views/PatientDashboard.swift:20-24 | the current list is exactly the upcoming records plus the waiting records |
| PatientDashboard.FilterExample | HMS_APP/Views/Patient/views/PatientDashboard.swift:468-485 | on [scheduled, completed, cancelled, no-show, rescheduled]: upcoming gives [scheduled, rescheduled], waiting gives [no-show], all gives the list |
| PatientDashboard.ReportColour | HMS_APP/Views/Patient/views/PatientDashboard.swift:621-623 | green iff the status is "Within Range" or "No Abnormalities", red otherwise |
| DoctorsView.MatchesCriteria | HMS_APP/Views/Patient/views/DoctorsView.swift:34-41 | a passing doctor has availability option "All", the selected department unless it is "All", and, given search text, a name or speciality containing it ignoring case; conversely, a doctor meeting all three passes |
| DoctorsView.MatchingDoctorListed | HMS_APP/Views/Patient/views/DoctorsView.swift:32-43 | any doctor of the input list who meets the department, availability and search criteria appears in the filtered list |
| DoctorsView.FilteredDoctors | HMS_APP/Views/Patient/views/DoctorsView.swift:32-43 | no longer than the list, and holds exactly the doctors that pass all three criteria |
| DoctorsView.FilteredDoctorsSpec | HMS_APP/Views/Patient/views/DoctorsView.swift:32-43 | the result is an order-preserving subsequence holding exactly the doctors that pass all three criteria |
| DoctorsView.NoCriteriaListsAll | HMS_APP/Views/Patient/views/DoctorsView.swift:34-41 | department "All", availability "All" and no search text list every doctor, in order |
| DoctorsView.DepartmentRespected | HMS_APP/Views/Patient/views/DoctorsView.swift:34 | with a department selected, every listed doctor has that speciality |
| DoctorsView.AvailabilityOtherThanAllLeavesNothing | HMS_APP/Views/Patient/views/DoctorsView.swift:35-41 | any availability option other than "All" lists no doctor |
| DoctorsView.SearchRespected | HMS_APP/Views/Patient/views/DoctorsView.swift:37-39 | with search text, every listed doctor's name or speciality contains it, ignoring case |
| DoctorsView.SearchExample | HMS_APP/Views/Patient/views/DoctorsView.swift:32-43 | "smith" finds "Dr. John Smith"; "CARDIO" finds a cardiologist under Cardiology; Neurology excludes them |
| DoctorsView.ConvertToProfile | HMS_APP/Views/Patient/views/DoctorsView.swift:318-345 | id, name, speciality, gender, council and registration year are copied; schedule, age and every other field are absent |
| DoctorsView.ConvertToProfileSame | HMS_APP/Views/Patient/views/DoctorsView.swift:318-345 | two doctors get the same profile iff they agree on the six copied fields |

## Left out

- All view bodies, styling, accessibility modifiers, navigation and sheets: layout, not logic.
- Reads and writes against the document database: the doctor, staff and patient fetches, the live listeners, the patient lookup behind booking (`fetchPatientAndBookAppointment`), and the doctor and staff services. These are network I/O. `DoctorManager` is modelled only for its two decoding rules, `DecodeSchedule` and `LicenseVerified`. Its published state and the asynchronous `checkLicenseVerification` callback are not modelled.
- The authentication manager, which is preference-store persistence and racing asynchronous refreshes. The test screens and the app bootstrap are test harness code.
- The hospital patient list, whose source holds two interleaved, conflicting definitions. No single behaviour is there to model.
- The calendar and the clock. Dates come in already decomposed, in one calendar. `calendar.date(from:) ?? date`, the fallback used when a day cannot be rebuilt, is not modelled. Age and years of service come from a caller-supplied `YearsSince`. The case where the calendar returns no year component is not modelled.
- Strings.Lowercased: folds ASCII letters only, because Unicode case mapping is platform data. `LicenseVerified` uses it for `lowercased()`.
- Strings.ContainsIgnoringCase: locale-aware matching is not modelled. It uses the ASCII fold and plain substring search. It answers true for an empty needle, where `localizedCaseInsensitiveContains` reports no match. No verdict changes, because the only caller (`MatchesCriteria`) checks for empty search text first and never searches for it.
- Colours are tags; their RGB values are not modelled.
- Codable keys and decoding are left out, as library-driven serialisation. The appointment record, its status enumeration and the detail-screen profile are declared with only the fields the modelled logic touches: their definitions are not part of this model. The appointment status's raw strings are therefore not modelled either.
- The "Available Today" option is modelled as written: it lets no doctor through. The source leaves a rule for it unimplemented.
- The sample records (`Doctor.sample`, `Staff.sample`, `Patient.sample`) are preview data.
