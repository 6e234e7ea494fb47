/** The patient record: its derived age and its one-line summary. */
module PatientModel {
  import opened Platform
  import opened Strings

  datatype Patient = Patient(
    id: string,
    name: string,
    number: Option<int>,
    email: string,
    dateOfBirth: Option<Date>,
    gender: Option<string>)

  /** `Patient.age`: absent without a date of birth. */
  function Age(p: Patient, yearsSince: YearsSince): (age: Option<int>)
    ensures age.None? <==> p.dateOfBirth.None?
    ensures age.Some? ==> age.value == yearsSince(p.dateOfBirth.value)
  {
    if p.dateOfBirth.None? then None else Some(yearsSince(p.dateOfBirth.value))
  }

  /** `Patient.basicInfo`: the name, then the age and gender in parentheses
      where they are known. */
  function BasicInfo(p: Patient, yearsSince: YearsSince): (r: string)
    ensures |r| >= |p.name| && r[..|p.name|] == p.name
    ensures r == p.name <==> p.dateOfBirth.None? && p.gender.None?
  {
    var age := Age(p, yearsSince);
    if age.Some? then
      p.name + " (Age: " + IntToString(age.value) + (if p.gender.Some? then ", " + p.gender.value else "") + ")"
    else if p.gender.Some? then
      p.name + " (" + p.gender.value + ")"
    else
      p.name
  }

  /** The summary in each of its four shapes. */
  lemma BasicInfoFormat(p: Patient, yearsSince: YearsSince)
    ensures p.dateOfBirth.None? && p.gender.None? ==> BasicInfo(p, yearsSince) == p.name
    ensures p.dateOfBirth.Some? && p.gender.Some? ==>
      BasicInfo(p, yearsSince) == p.name + " (Age: " + IntToString(yearsSince(p.dateOfBirth.value)) + ", " + p.gender.value + ")"
    ensures p.dateOfBirth.Some? && p.gender.None? ==>
      BasicInfo(p, yearsSince) == p.name + " (Age: " + IntToString(yearsSince(p.dateOfBirth.value)) + ")"
    ensures p.dateOfBirth.None? && p.gender.Some? ==>
      BasicInfo(p, yearsSince) == p.name + " (" + p.gender.value + ")"
  {
  }

  /** Two patients with the same name and gender get the same summary only
      when their ages agree, known or not. */
  lemma BasicInfoDistinguishesAge(p: Patient, q: Patient, yearsSince: YearsSince)
    requires p.name == q.name && p.gender == q.gender
    ensures BasicInfo(p, yearsSince) == BasicInfo(q, yearsSince) ==> Age(p, yearsSince) == Age(q, yearsSince)
  {
    var genderPart := if p.gender.Some? then ", " + p.gender.value else "";
    if p.dateOfBirth.Some? && q.dateOfBirth.Some? {
      if BasicInfo(p, yearsSince) == BasicInfo(q, yearsSince) {
        var head := p.name + " (Age: ";
        var tail := genderPart + ")";
        var a, b := yearsSince(p.dateOfBirth.value), yearsSince(q.dateOfBirth.value);
        assert BasicInfo(p, yearsSince) == head + IntToString(a) + tail;
        assert BasicInfo(q, yearsSince) == head + IntToString(b) + tail;
        CancelFrame(head, IntToString(a), IntToString(b), tail);
        IntToStringInjective(a, b);
      }
    } else if p.dateOfBirth.Some? {
      BasicInfoFormat(p, yearsSince);
      BasicInfoFormat(q, yearsSince);
      assert |BasicInfo(p, yearsSince)| > |BasicInfo(q, yearsSince)|;
    } else if q.dateOfBirth.Some? {
      BasicInfoFormat(p, yearsSince);
      BasicInfoFormat(q, yearsSince);
      assert |BasicInfo(q, yearsSince)| > |BasicInfo(p, yearsSince)|;
    }
  }
}
