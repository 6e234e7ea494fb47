/** The doctor search screen's decisions: which doctors the department,
    availability and search-text criteria let through, and the profile built
    from a doctor for the detail screen. */
module DoctorsView {
  import opened Platform
  import opened Strings
  import opened Sequences
  import opened DoctorModel

  /** The department and availability pickers' "no restriction" option. */
  const AllOption := "All"

  /** Whether one doctor passes the three criteria. An availability other
      than "All" lets nothing through: no rule for it exists yet. */
  predicate MatchesCriteria(doctor: Doctor, searchText: string, department: string, availability: string): (r: bool)
    ensures r ==> availability == AllOption
    ensures r ==> department == AllOption || doctor.speciality == department
    ensures r && searchText != "" ==>
      exists i :: OccursAt(Lowercased(searchText), Lowercased(doctor.name), i) ||
                  OccursAt(Lowercased(searchText), Lowercased(doctor.speciality), i)
    ensures (availability == AllOption && (department == AllOption || doctor.speciality == department) &&
             (searchText == "" ||
              (exists i :: OccursAt(Lowercased(searchText), Lowercased(doctor.name), i)) ||
              (exists i :: OccursAt(Lowercased(searchText), Lowercased(doctor.speciality), i)))) ==> r
  {
    var matchesDepartment := department == AllOption || doctor.speciality == department;
    var matchesAvailability := availability == AllOption;
    var matchesSearch := searchText == "" ||
      ContainsIgnoringCase(doctor.name, searchText) ||
      ContainsIgnoringCase(doctor.speciality, searchText);
    matchesDepartment && matchesAvailability && matchesSearch
  }

  /** `DoctorsView.filteredDoctors`. */
  function FilteredDoctors(doctors: seq<Doctor>, searchText: string, department: string, availability: string): (shown: seq<Doctor>)
    ensures |shown| <= |doctors|
    ensures forall d :: d in shown <==> d in doctors && MatchesCriteria(d, searchText, department, availability)
  {
    Filter((d: Doctor) => MatchesCriteria(d, searchText, department, availability), doctors)
  }

  /** The result keeps exactly the doctors that pass, in their original order. */
  lemma FilteredDoctorsSpec(doctors: seq<Doctor>, searchText: string, department: string, availability: string)
    ensures IsSubsequence(FilteredDoctors(doctors, searchText, department, availability), doctors)
    ensures forall d :: d in FilteredDoctors(doctors, searchText, department, availability) <==>
      d in doctors && MatchesCriteria(d, searchText, department, availability)
  {
    FilterIsSubsequence((d: Doctor) => MatchesCriteria(d, searchText, department, availability), doctors);
  }

  /** A doctor of the list who meets all three criteria is listed: the
      selected department (or "All"), availability "All", and search text
      found in its name or speciality, ignoring case. */
  lemma MatchingDoctorListed(doctors: seq<Doctor>, d: Doctor, searchText: string, department: string, availability: string)
    requires d in doctors
    requires availability == AllOption
    requires department == AllOption || d.speciality == department
    requires searchText == "" || ContainsIgnoringCase(d.name, searchText) || ContainsIgnoringCase(d.speciality, searchText)
    ensures d in FilteredDoctors(doctors, searchText, department, availability)
  {
  }

  /** With no restriction selected and no search text, every doctor is listed. */
  lemma NoCriteriaListsAll(doctors: seq<Doctor>)
    ensures FilteredDoctors(doctors, "", AllOption, AllOption) == doctors
  {
    FilterKeepsAll((d: Doctor) => MatchesCriteria(d, "", AllOption, AllOption), doctors);
  }

  /** A selected department admits only doctors of that speciality. */
  lemma DepartmentRespected(doctors: seq<Doctor>, searchText: string, department: string, availability: string)
    requires department != AllOption
    ensures forall d :: d in FilteredDoctors(doctors, searchText, department, availability) ==> d.speciality == department
  {
  }

  /** Any availability option other than "All" empties the list. */
  lemma AvailabilityOtherThanAllLeavesNothing(doctors: seq<Doctor>, searchText: string, department: string, availability: string)
    requires availability != AllOption
    ensures FilteredDoctors(doctors, searchText, department, availability) == []
  {
    FilterKeepsNone((d: Doctor) => MatchesCriteria(d, searchText, department, availability), doctors);
  }

  /** With search text, every listed doctor's name or speciality contains it,
      ignoring case. */
  lemma SearchRespected(doctors: seq<Doctor>, searchText: string, department: string, availability: string)
    requires searchText != ""
    ensures forall d :: d in FilteredDoctors(doctors, searchText, department, availability) ==>
      ContainsIgnoringCase(d.name, searchText) || ContainsIgnoringCase(d.speciality, searchText)
  {
  }

  /** A search for part of a name finds the doctor whatever the case. */
  lemma SearchExample(d: Doctor)
    requires d.name == "Dr. John Smith" && d.speciality == "Cardiology"
    ensures FilteredDoctors([d], "smith", AllOption, AllOption) == [d]
    ensures FilteredDoctors([d], "CARDIO", "Cardiology", AllOption) == [d]
    ensures FilteredDoctors([d], "", "Neurology", AllOption) == []
  {
    assert OccursAt(Lowercased("smith"), Lowercased(d.name), 9);
    assert OccursAt(Lowercased("CARDIO"), Lowercased(d.speciality), 0);
  }

  /** License details as the detail screen reads them. */
  datatype LicenseDetails = LicenseDetails(
    councilName: Option<string>,
    registrationNumber: Option<string>,
    verificationStatus: Option<string>,
    verifiedAt: Option<Date>,
    yearOfRegistration: Option<int>)

  /** The doctor record the detail screen reads. */
  datatype DoctorProfile = DoctorProfile(
    id: string,
    name: string,
    speciality: string,
    database: Option<string>,
    age: Option<int>,
    schedule: Option<Schedule>,
    appwriteUserId: Option<string>,
    gender: Option<string>,
    licenseDetails: LicenseDetails,
    createdAt: Option<Date>,
    lastActive: Option<Date>)

  /** `DoctorsView.convertToProfile`: identity, speciality, gender, council
      and registration year are carried over; nothing else is. */
  function ConvertToProfile(doctor: Doctor): (p: DoctorProfile)
    ensures p.id == doctor.id && p.name == doctor.name && p.speciality == doctor.speciality
    ensures p.gender == doctor.gender
    ensures p.licenseDetails.councilName == doctor.smc
    ensures p.licenseDetails.yearOfRegistration == doctor.yearOfRegistration
    ensures p.schedule.None? && p.age.None? && p.database.None? && p.appwriteUserId.None?
    ensures p.createdAt.None? && p.lastActive.None?
    ensures p.licenseDetails.registrationNumber.None? && p.licenseDetails.verificationStatus.None?
    ensures p.licenseDetails.verifiedAt.None?
  {
    var licenseDetails := LicenseDetails(doctor.smc, None, None, None, doctor.yearOfRegistration);
    DoctorProfile(doctor.id, doctor.name, doctor.speciality, None, None, None, None,
      doctor.gender, licenseDetails, None, None)
  }

  /** Two doctors get the same profile exactly when they agree on the six
      fields it carries over. */
  lemma ConvertToProfileSame(d: Doctor, e: Doctor)
    ensures ConvertToProfile(d) == ConvertToProfile(e) <==>
      d.id == e.id && d.name == e.name && d.speciality == e.speciality && d.gender == e.gender &&
      d.smc == e.smc && d.yearOfRegistration == e.yearOfRegistration
  {
  }
}
