/** The profile page: masking of sensitive values, the show/hide flags,
    and the edit form with its cancel and save. A profile is modelled as
    the record of its text fields by name, so spreading one object over
    another is map union, where the right operand wins. */
module ProfilePage {
  import opened Wrappers
  import opened Text
  import opened Store
  import ProfileValidation

  type Record = map<string, string>

  const DefaultShowLength: nat := 4

  /** `maskSensitiveInfo`: values no longer than `showLength` are shown as
      they are; longer ones keep their last `showLength` characters behind
      one '*' per hidden character. (A `showLength` of 0 slices from the
      start in JavaScript, so the whole value follows the stars.) */
  function MaskSensitiveInfo(value: string, showLength: nat): (r: string)
    ensures |value| <= showLength ==> r == value
    ensures |value| > showLength >= 1 ==>
      |r| == |value| && r[|r| - showLength..] == value[|value| - showLength..] &&
      forall i :: 0 <= i < |r| - showLength ==> r[i] == '*'
  {
    if value == [] || |value| <= showLength then value
    else
      var visible := if showLength == 0 then value else value[|value| - showLength..];
      seq(|value| - showLength, _ => '*') + visible
  }

  /** The masked view reveals the length and the tail and nothing else: two
      values that agree on those are masked alike. */
  lemma MaskHidesTheRest(v: string, w: string, showLength: nat)
    requires showLength >= 1 && |v| == |w|
    requires |v| <= showLength ==> v == w
    requires |v| > showLength ==> v[|v| - showLength..] == w[|w| - showLength..]
    ensures MaskSensitiveInfo(v, showLength) == MaskSensitiveInfo(w, showLength)
  {
  }

  /** With the default of four, a twelve-digit citizen id shows as eight
      stars and its last four digits. */
  lemma MaskTwelveDigits(v: string)
    requires |v| == 12
    ensures MaskSensitiveInfo(v, DefaultShowLength) == "********" + v[8..]
  {
  }

  // ---- Show/hide flags ----

  /** `showSensitiveInfo[field]`, with a missing key as false. */
  function Shown(flags: map<string, bool>, field: string): bool {
    field in flags && flags[field]
  }

  /** `{ ...prev, [field]: !prev[field] }`. */
  function Toggled(flags: map<string, bool>, field: string): (r: map<string, bool>)
    ensures forall g :: Shown(r, g) == if g == field then !Shown(flags, g) else Shown(flags, g)
  {
    flags[field := !Shown(flags, field)]
  }

  /** Toggling a flag twice shows exactly what was shown before. */
  lemma ToggleTwice(flags: map<string, bool>, field: string, g: string)
    ensures Shown(Toggled(Toggled(flags, field), field), g) == Shown(flags, g)
  {
  }

  /** What a sensitive row displays: the value when its flag is on, the
      masked value otherwise. */
  function SensitiveView(flags: map<string, bool>, field: string, value: string): (r: string)
    ensures Shown(flags, field) ==> r == value
    ensures !Shown(flags, field) ==> r == MaskSensitiveInfo(value, DefaultShowLength)
  {
    if Shown(flags, field) then value else MaskSensitiveInfo(value, DefaultShowLength)
  }

  /** The eye button of one row: it reveals a hidden value in full, masks a
      shown one again, and leaves every other row as displayed; a hidden
      twelve-digit citizen id shows only its last four digits. */
  lemma ToggleRevealsAndHides(flags: map<string, bool>, field: string, other: string, value: string, otherValue: string)
    ensures !Shown(flags, field) ==> SensitiveView(Toggled(flags, field), field, value) == value
    ensures Shown(flags, field) ==>
      SensitiveView(Toggled(flags, field), field, value) == MaskSensitiveInfo(value, DefaultShowLength)
    ensures other != field ==>
      SensitiveView(Toggled(flags, field), other, otherValue) == SensitiveView(flags, other, otherValue)
    ensures !Shown(flags, field) && |value| == 12 ==> SensitiveView(flags, field, value) == "********" + value[8..]
  {
    if |value| == 12 {
      MaskTwelveDigits(value);
    }
  }

  // ---- Saving ----

  function FieldOf(form: Record, field: string): Option<string> {
    if field in form then Some(form[field]) else None
  }

  /** The checks of the save handler, in order: a blank or missing name,
      then phone, then email. */
  function SaveRejection(form: Record): (r: Option<string>)
    ensures r.None? <==>
      !ProfileValidation.Missing(FieldOf(form, "fullName")) &&
      !ProfileValidation.Missing(FieldOf(form, "phone")) &&
      !ProfileValidation.Missing(FieldOf(form, "email"))
    ensures ProfileValidation.Missing(FieldOf(form, "fullName")) ==> r == Some(ProfileValidation.NameRequired)
    ensures !ProfileValidation.Missing(FieldOf(form, "fullName")) && ProfileValidation.Missing(FieldOf(form, "phone")) ==>
      r == Some(ProfileValidation.PhoneRequired)
    ensures (!ProfileValidation.Missing(FieldOf(form, "fullName")) && !ProfileValidation.Missing(FieldOf(form, "phone")) &&
      ProfileValidation.Missing(FieldOf(form, "email"))) ==> r == Some(ProfileValidation.EmailRequired)
  {
    if ProfileValidation.Missing(FieldOf(form, "fullName")) then Some(ProfileValidation.NameRequired)
    else if ProfileValidation.Missing(FieldOf(form, "phone")) then Some(ProfileValidation.PhoneRequired)
    else if ProfileValidation.Missing(FieldOf(form, "email")) then Some(ProfileValidation.EmailRequired)
    else None
  }

  /** The save checks ask less than the validator: a form holding all three
      fields that the validator accepts passes them. */
  lemma ValidatedFormSaves(form: Record)
    requires "fullName" in form && "phone" in form && "email" in form
    requires ProfileValidation.ValidateProfileData(ProfileValidation.ProfileFields(
      FieldOf(form, "fullName"), FieldOf(form, "email"), FieldOf(form, "phone"), None)).Ok?
    ensures SaveRejection(form).None?
  {
    var data := ProfileValidation.ProfileFields(FieldOf(form, "fullName"), FieldOf(form, "email"), FieldOf(form, "phone"), None);
    assert ProfileValidation.NameProblem(data.fullName).None?;
    assert ProfileValidation.EmailProblem(data.email).None?;
    assert ProfileValidation.PhoneProblem(data.phone).None?;
  }

  lemma BadEmailSaved()
    ensures SaveRejection(map["fullName" := "An", "phone" := "0", "email" := "x"]).None?
  {
    var form := map["fullName" := "An", "phone" := "0", "email" := "x"];
    assert !IsBlank(form["fullName"]) by { assert !IsJsSpace(form["fullName"][0]); }
    assert !IsBlank(form["phone"]) by { assert !IsJsSpace(form["phone"][0]); }
    assert !IsBlank(form["email"]) by { assert !IsJsSpace(form["email"][0]); }
  }

  lemma BadEmailRefusedByValidator()
    ensures ProfileValidation.ValidateProfileData(ProfileValidation.ProfileFields(None, Some("x"), None, None)) ==
      Err(ProfileValidation.EmailFormat)
  {
    assert !IsBlank("x") by { assert !IsJsSpace("x"[0]); }
    assert !ProfileValidation.EmailPattern("x");
  }

  /** The save handler checks presence only: a form whose email the
      service's profile validator refuses for its format is saved. */
  lemma SaveSkipsFormatRules()
    ensures SaveRejection(map["fullName" := "An", "phone" := "0", "email" := "x"]).None?
    ensures ProfileValidation.ValidateProfileData(ProfileValidation.ProfileFields(None, Some("x"), None, None)).Err?
  {
    BadEmailSaved();
    BadEmailRefusedByValidator();
  }

  /** `{ ...employee, ...editForm }`: each field the form has replaces the
      stored one; saving the same form again changes nothing more, and
      saving an unchanged copy of the profile changes nothing. */
  lemma MergeOverrides(employee: Record, form: Record)
    ensures forall k :: k in employee + form <==> k in employee || k in form
    ensures forall k :: k in form ==> (employee + form)[k] == form[k]
    ensures forall k :: k in employee && k !in form ==> (employee + form)[k] == employee[k]
    ensures (employee + form) + form == employee + form
    ensures employee + employee == employee
  {
  }

  /** The component state of the page. */
  class ProfileView {
    const currentUser: Record
    var employee: Record
    var updatedAt: Option<Timestamp>
    var isEditing: bool
    var isLoading: bool
    var error: Option<string>
    var showSensitiveInfo: map<string, bool>
    var editForm: Record

    /** The initial state: the user's profile, an empty form, nothing shown. */
    constructor(user: Record)
      ensures currentUser == user && employee == user && editForm == map[] && updatedAt.None?
      ensures !isEditing && !isLoading && error.None? && showSensitiveInfo == map[]
    {
      currentUser := user;
      employee := user;
      updatedAt := None;
      isEditing := false;
      isLoading := false;
      error := None;
      showSensitiveInfo := map[];
      editForm := map[];
    }

    /** The load on mount: the profile shown and the form both become the
        user's profile. */
    method LoadProfile()
      modifies this
      ensures employee == currentUser && editForm == currentUser && error.None? && !isLoading
      ensures isEditing == old(isEditing) && showSensitiveInfo == old(showSensitiveInfo) && updatedAt == old(updatedAt)
    {
      isLoading := true;
      error := None;
      employee := currentUser;
      editForm := currentUser;
      isLoading := false;
    }

    method ToggleSensitiveInfo(field: string)
      modifies this
      ensures showSensitiveInfo == Toggled(old(showSensitiveInfo), field)
      ensures employee == old(employee) && editForm == old(editForm) && isEditing == old(isEditing) && error == old(error)
      ensures updatedAt == old(updatedAt) && isLoading == old(isLoading)
    {
      showSensitiveInfo := Toggled(showSensitiveInfo, field);
    }

    method Edit()
      modifies this
      ensures isEditing && editForm == employee && employee == old(employee)
      ensures error == old(error) && showSensitiveInfo == old(showSensitiveInfo)
      ensures updatedAt == old(updatedAt) && isLoading == old(isLoading)
    {
      isEditing := true;
      editForm := employee;
    }

    /** Cancel: the form becomes a copy of the profile again. */
    method CancelEdit()
      modifies this
      ensures !isEditing && editForm == employee && employee == old(employee) && error.None?
      ensures showSensitiveInfo == old(showSensitiveInfo) && updatedAt == old(updatedAt) && isLoading == old(isLoading)
    {
      isEditing := false;
      editForm := employee;
      error := None;
    }

    method FormChange(field: string, value: string)
      modifies this
      ensures editForm == old(editForm)[field := value]
      ensures employee == old(employee) && isEditing == old(isEditing) && error == old(error)
      ensures showSensitiveInfo == old(showSensitiveInfo) && updatedAt == old(updatedAt) && isLoading == old(isLoading)
    {
      editForm := editForm[field := value];
    }

    /** Save: a refused form sets the message and leaves the profile and
        the edit mode as they were; an accepted one is merged over the
        profile, stamped, and ends editing. */
    method Save(now: Timestamp)
      modifies this
      ensures !isLoading && editForm == old(editForm) && showSensitiveInfo == old(showSensitiveInfo)
      ensures SaveRejection(old(editForm)).Some? ==>
        error == SaveRejection(old(editForm)) && employee == old(employee) &&
        isEditing == old(isEditing) && updatedAt == old(updatedAt)
      ensures SaveRejection(old(editForm)).None? ==>
        error.None? && employee == old(employee) + old(editForm) && !isEditing && updatedAt == Some(now)
    {
      isLoading := true;
      error := None;
      var rejection := SaveRejection(editForm);
      if rejection.Some? {
        error := rejection;
      } else {
        employee := employee + editForm;
        updatedAt := Some(now);
        isEditing := false;
      }
      isLoading := false;
    }
  }
}
