/** The client-side validators of the employee service: the profile
    validator, which checks the fields present in a partial profile in a
    fixed order and returns them normalised, and the create validator
    built on it. A thrown `Error` is an `Err` carrying its message. */
module ProfileValidation {
  import opened Wrappers
  import opened Text

  /** The fields of a partial profile the validators read and return; an
      absent field (`undefined`) is None. */
  datatype ProfileFields = ProfileFields(
    fullName: Option<string>,
    email: Option<string>,
    phone: Option<string>,
    address: Option<string>)

  const NameRequired: string := "Họ tên không được để trống"
  const NameLength: string := "Họ tên phải từ 2-100 ký tự"
  const EmailRequired: string := "Email không được để trống"
  const EmailFormat: string := "Định dạng email không hợp lệ"
  const PhoneRequired: string := "Số điện thoại không được để trống"
  const PhoneFormat: string := "Số điện thoại không hợp lệ (10-11 số)"
  const AddressLength: string := "Địa chỉ không được quá 500 ký tự"
  const CodeRequired: string := "Mã nhân viên không được để trống"
  const DepartmentRequired: string := "Phòng ban không được để trống"
  const PositionRequired: string := "Chức vụ không được để trống"

  // ---- The email pattern ----

  /** A match of `[^\s@]+`. */
  predicate Atom(t: string) {
    |t| > 0 && forall k :: 0 <= k < |t| ==> t[k] != '@' && !IsJsSpace(t[k])
  }

  /** A full match of `^[^\s@]+@[^\s@]+\.[^\s@]+$`: an '@' at `i` and a '.'
      at `j` cut the string into three runs of the character class. */
  predicate EmailPattern(s: string) {
    exists i, j | 0 <= i < j < |s| ::
      s[i] == '@' && s[j] == '.' && Atom(s[..i]) && Atom(s[i + 1..j]) && Atom(s[j + 1..])
  }

  /** The pattern in words: no white space, exactly one '@', which is not
      the first character, and after it a '.' that is neither next to the
      '@' nor the last character. */
  predicate EmailShape(s: string) {
    (forall k :: 0 <= k < |s| ==> !IsJsSpace(s[k])) &&
    exists i :: 1 <= i < |s| && s[i] == '@' &&
      (forall k :: 0 <= k < |s| && s[k] == '@' ==> k == i) &&
      exists j :: i + 2 <= j <= |s| - 2 && s[j] == '.'
  }

  lemma EmailPatternIsShape(s: string)
    ensures EmailPattern(s) <==> EmailShape(s)
  {
    if EmailPattern(s) {
      PatternHasShape(s);
    }
    if EmailShape(s) {
      ShapeMatchesPattern(s);
    }
  }

  lemma PatternHasShape(s: string)
    requires EmailPattern(s)
    ensures EmailShape(s)
  {
    var i, j :| 0 <= i < j < |s| && s[i] == '@' && s[j] == '.' &&
      Atom(s[..i]) && Atom(s[i + 1..j]) && Atom(s[j + 1..]);
    forall k | 0 <= k < |s|
      ensures !IsJsSpace(s[k]) && (s[k] == '@' ==> k == i)
    {
      if k < i {
        assert s[k] == s[..i][k];
      } else if i < k < j {
        assert s[k] == s[i + 1..j][k - i - 1];
      } else if j < k {
        assert s[k] == s[j + 1..][k - j - 1];
      }
    }
    assert i + 2 <= j <= |s| - 2 && s[j] == '.';
  }

  lemma ShapeMatchesPattern(s: string)
    requires EmailShape(s)
    ensures EmailPattern(s)
  {
    var i :| 1 <= i < |s| && s[i] == '@' &&
      (forall k :: 0 <= k < |s| && s[k] == '@' ==> k == i) &&
      exists j :: i + 2 <= j <= |s| - 2 && s[j] == '.';
    var j :| i + 2 <= j <= |s| - 2 && s[j] == '.';
    assert Atom(s[..i]);
    assert Atom(s[i + 1..j]);
    assert Atom(s[j + 1..]);
  }

  /** A matching address is not blank: its first character is part of the
      local part. */
  lemma EmailPatternNotBlank(s: string)
    requires EmailPattern(s)
    ensures !IsBlank(s)
  {
    var i, j :| 0 <= i < j < |s| && s[i] == '@' && s[j] == '.' &&
      Atom(s[..i]) && Atom(s[i + 1..j]) && Atom(s[j + 1..]);
    assert s[0] == s[..i][0];
  }

  /** A matching address has no outer white space, so trimming it is a no-op. */
  lemma EmailPatternIsTrimmed(s: string)
    requires EmailPattern(s)
    ensures Trim(s) == s
  {
    EmailPatternIsShape(s);
    TrimNoOp(s);
  }

  /** Lower-casing keeps an address matching: it maps no character to '@'
      or to white space. */
  lemma EmailPatternSurvivesLower(s: string)
    requires EmailPattern(s)
    ensures EmailPattern(Lower(s))
  {
    var i, j :| 0 <= i < j < |s| && s[i] == '@' && s[j] == '.' &&
      Atom(s[..i]) && Atom(s[i + 1..j]) && Atom(s[j + 1..]);
    var l := Lower(s);
    assert l[..i] == Lower(s[..i]);
    assert l[i + 1..j] == Lower(s[i + 1..j]);
    assert l[j + 1..] == Lower(s[j + 1..]);
    LowerKeepsAtom(s[..i]);
    LowerKeepsAtom(s[i + 1..j]);
    LowerKeepsAtom(s[j + 1..]);
    assert l[i] == '@' && l[j] == '.';
  }

  lemma LowerKeepsAtom(t: string)
    requires Atom(t)
    ensures Atom(Lower(t))
  {
  }

  // ---- The rules, field by field ----

  /** The message the full-name rule gives, if it fails. The length is that
      of the value before trimming. */
  function NameProblem(v: Option<string>): Option<string> {
    if v.None? then None
    else if IsBlank(v.value) then Some(NameRequired)
    else if |v.value| < 2 || |v.value| > 100 then Some(NameLength)
    else None
  }

  /** The pattern is tested on the value before trimming. */
  function EmailProblem(v: Option<string>): Option<string> {
    if v.None? then None
    else if IsBlank(v.value) then Some(EmailRequired)
    else if !EmailPattern(v.value) then Some(EmailFormat)
    else None
  }

  /** `/^[0-9]{10,11}$/` on the digits of the value. */
  function PhoneProblem(v: Option<string>): Option<string> {
    if v.None? then None
    else if IsBlank(v.value) then Some(PhoneRequired)
    else if !(10 <= |KeepDigits(v.value)| <= 11) then Some(PhoneFormat)
    else None
  }

  function AddressProblem(v: Option<string>): Option<string> {
    if v.Some? && |v.value| > 500 then Some(AddressLength) else None
  }

  function Listed(o: Option<string>): (r: seq<string>)
    ensures |r| <= 1 && (r == [] <==> o.None?) && (o.Some? ==> r == [o.value])
  {
    if o.Some? then [o.value] else []
  }

  /** Every rule the profile breaks, in the order the fields are checked. */
  function Problems(data: ProfileFields): seq<string> {
    Listed(NameProblem(data.fullName)) + Listed(EmailProblem(data.email)) +
    Listed(PhoneProblem(data.phone)) + Listed(AddressProblem(data.address))
  }

  function TrimField(v: Option<string>): (r: Option<string>)
    ensures r.Some? <==> v.Some?
  {
    if v.Some? then Some(Trim(v.value)) else None
  }

  function LowerField(v: Option<string>): (r: Option<string>)
    ensures r.Some? <==> v.Some?
  {
    if v.Some? then Some(Lower(Trim(v.value))) else None
  }

  /** `validateProfileData`: the fields are checked in the order name,
      email, phone, address; the first broken rule aborts with its message.
      The fields present come back trimmed, the email also lower-cased. */
  function ValidateProfileData(data: ProfileFields): (r: Result<ProfileFields, string>)
    ensures r.Ok? <==> Problems(data) == []
    ensures r.Err? ==> r.error == Problems(data)[0]
    ensures r.Ok? ==>
      (r.value.fullName.Some? <==> data.fullName.Some?) && (r.value.email.Some? <==> data.email.Some?) &&
      (r.value.phone.Some? <==> data.phone.Some?) && (r.value.address.Some? <==> data.address.Some?)
  {
    var name := NameProblem(data.fullName);
    if name.Some? then Err(name.value)
    else
      var email := EmailProblem(data.email);
      if email.Some? then Err(email.value)
      else
        var phone := PhoneProblem(data.phone);
        if phone.Some? then Err(phone.value)
        else
          var address := AddressProblem(data.address);
          if address.Some? then Err(address.value)
          else
            Ok(ProfileFields(
              TrimField(data.fullName),
              LowerField(data.email),
              TrimField(data.phone),
              TrimField(data.address)))
  }

  /** An accepted profile passed every rule and comes back field by field
      trimmed, the email also lower-cased. */
  lemma Accepted(data: ProfileFields)
    requires ValidateProfileData(data).Ok?
    ensures NameProblem(data.fullName).None? && EmailProblem(data.email).None?
    ensures PhoneProblem(data.phone).None? && AddressProblem(data.address).None?
    ensures ValidateProfileData(data).value == ProfileFields(
      TrimField(data.fullName),
      LowerField(data.email),
      TrimField(data.phone),
      TrimField(data.address))
  {
  }

  lemma AcceptedName(v: string)
    requires NameProblem(Some(v)).None?
    ensures Trim(v) != [] && !IsJsSpace(Trim(v)[0]) && |Trim(v)| <= 100
  {
    TrimEmptyIffBlank(v);
    TrimHasNoOuterSpace(v);
  }

  lemma AcceptedEmail(v: string)
    requires EmailProblem(Some(v)).None?
    ensures EmailPattern(v) && Lower(Trim(v)) == Lower(v)
  {
    EmailPatternIsTrimmed(v);
  }

  lemma AcceptedPhone(v: string)
    requires PhoneProblem(Some(v)).None?
    ensures 10 <= |KeepDigits(Trim(v))| <= 11
  {
    TrimKeepsDigits(v);
  }

  /** What an accepted profile looks like: a non-empty name without outer
      white space, the lower-cased input email (trimming a matching address
      changes nothing), a phone with 10 or 11 digits, an address of at most
      500 characters. */
  lemma ValidatedProfileIsNormal(data: ProfileFields)
    requires ValidateProfileData(data).Ok?
    ensures var out := ValidateProfileData(data).value;
      (out.fullName.Some? ==>
        out.fullName.value != [] && !IsJsSpace(out.fullName.value[0]) && |out.fullName.value| <= 100) &&
      (out.email.Some? ==> EmailPattern(data.email.value) && out.email.value == Lower(data.email.value)) &&
      (out.phone.Some? ==> 10 <= |KeepDigits(out.phone.value)| <= 11) &&
      (out.address.Some? ==> |out.address.value| <= 500)
  {
    Accepted(data);
    if data.fullName.Some? {
      AcceptedName(data.fullName.value);
    }
    if data.email.Some? {
      AcceptedEmail(data.email.value);
    }
    if data.phone.Some? {
      AcceptedPhone(data.phone.value);
    }
  }

  lemma NameStable(n: Option<string>)
    requires NameProblem(n).None? && (n.Some? ==> |Trim(n.value)| >= 2)
    ensures NameProblem(TrimField(n)).None? && TrimField(TrimField(n)) == TrimField(n)
  {
    if n.Some? {
      TrimEmptyIffBlank(n.value);
      TrimEmptyIffBlank(Trim(n.value));
      TrimIdempotent(n.value);
    }
  }

  lemma EmailValueStable(v: string)
    requires EmailProblem(Some(v)).None?
    ensures EmailProblem(Some(Lower(Trim(v)))).None? && Lower(Trim(Lower(Trim(v)))) == Lower(Trim(v))
  {
    assert EmailPattern(v);
    LowerMatchStable(v);
    var l := Lower(v);
    calc {
      Lower(Trim(Lower(Trim(v))));
      { assert Trim(v) == v; }
      Lower(Trim(l));
      { assert Trim(l) == l; }
      Lower(l);
      l;
    }
    assert !IsBlank(l) && EmailPattern(l);
  }

  /** A matching address, lower-cased, still matches, is not blank and is
      left alone by trimming and by lower-casing. */
  lemma LowerMatchStable(v: string)
    requires EmailPattern(v)
    ensures Trim(v) == v
    ensures var l := Lower(v);
      EmailPattern(l) && !IsBlank(l) && Trim(l) == l && Lower(l) == l
  {
    EmailPatternIsTrimmed(v);
    EmailPatternSurvivesLower(v);
    EmailPatternIsTrimmed(Lower(v));
    LowerIdempotent(v);
    EmailPatternNotBlank(Lower(v));
  }

  lemma EmailStable(e: Option<string>)
    requires EmailProblem(e).None?
    ensures EmailProblem(LowerField(e)).None? && LowerField(LowerField(e)) == LowerField(e)
  {
    if e.Some? {
      EmailValueStable(e.value);
    }
  }

  lemma PhoneStable(p: Option<string>)
    requires PhoneProblem(p).None?
    ensures PhoneProblem(TrimField(p)).None? && TrimField(TrimField(p)) == TrimField(p)
  {
    if p.Some? {
      TrimEmptyIffBlank(p.value);
      TrimEmptyIffBlank(Trim(p.value));
      TrimKeepsDigits(p.value);
      TrimIdempotent(p.value);
    }
  }

  lemma AddressStable(a: Option<string>)
    requires AddressProblem(a).None?
    ensures AddressProblem(TrimField(a)).None? && TrimField(TrimField(a)) == TrimField(a)
  {
    if a.Some? {
      var t := a.value;
      assert |Trim(t)| <= |TrimStart(t)| <= |t|;
      TrimIdempotent(t);
    }
  }

  /** A profile that breaks no rule is accepted, trimmed field by field. */
  lemma NoProblemAccepted(data: ProfileFields)
    requires NameProblem(data.fullName).None? && EmailProblem(data.email).None?
    requires PhoneProblem(data.phone).None? && AddressProblem(data.address).None?
    ensures ValidateProfileData(data) == Ok(ProfileFields(
      TrimField(data.fullName),
      LowerField(data.email),
      TrimField(data.phone),
      TrimField(data.address)))
  {
  }

  lemma NormalFieldsAccepted(n: Option<string>, e: Option<string>, p: Option<string>, a: Option<string>)
    requires NameProblem(n).None? && EmailProblem(e).None? && PhoneProblem(p).None? && AddressProblem(a).None?
    requires n.Some? ==> |Trim(n.value)| >= 2
    ensures var out := ProfileFields(TrimField(n), LowerField(e), TrimField(p), TrimField(a));
      ValidateProfileData(out) == Ok(out)
  {
    NameStable(n);
    EmailStable(e);
    PhoneStable(p);
    AddressStable(a);
    NoProblemAccepted(ProfileFields(TrimField(n), LowerField(e), TrimField(p), TrimField(a)));
  }

  /** Validating an accepted profile again accepts it unchanged, provided
      its trimmed name still has two characters. */
  lemma ValidateProfileStable(data: ProfileFields)
    requires ValidateProfileData(data).Ok?
    requires var out := ValidateProfileData(data).value; out.fullName.Some? ==> |out.fullName.value| >= 2
    ensures var out := ValidateProfileData(data).value; ValidateProfileData(out) == Ok(out)
  {
    Accepted(data);
    NormalFieldsAccepted(data.fullName, data.email, data.phone, data.address);
  }

  lemma ShortNameTrimmed()
    ensures NameProblem(Some("a ")).None? && Trim("a ") == "a"
  {
    assert !IsBlank("a ") by { assert !IsJsSpace("a "[0]); }
    assert TrimStart("a ") == "a ";
    assert "a "[..1] == "a";
  }

  lemma ShortNameAccepted()
    ensures ValidateProfileData(ProfileFields(Some("a "), None, None, None)) ==
      Ok(ProfileFields(Some("a"), None, None, None))
  {
    ShortNameTrimmed();
    NoProblemAccepted(ProfileFields(Some("a "), None, None, None));
  }

  lemma ShortNameRefused()
    ensures ValidateProfileData(ProfileFields(Some("a"), None, None, None)) == Err(NameLength)
  {
    assert !IsBlank("a") by { assert !IsJsSpace("a"[0]); }
  }

  /** The length rule reads the untrimmed name, so a one-letter name with a
      trailing space is accepted as a one-letter name, which a second
      validation refuses. */
  lemma TrimmedNameCanBeShort()
    ensures var out := ValidateProfileData(ProfileFields(Some("a "), None, None, None));
      out == Ok(ProfileFields(Some("a"), None, None, None)) &&
      ValidateProfileData(out.value) == Err(NameLength)
  {
    ShortNameAccepted();
    ShortNameRefused();
  }

  // ---- The create validator ----

  /** The fields `validateEmployeeData` reads besides the profile ones. */
  datatype EmployeeFields = EmployeeFields(
    profile: ProfileFields,
    employeeCode: Option<string>,
    department: Option<string>,
    position: Option<string>)

  /** `!v?.trim()`: absent or blank. */
  predicate Missing(v: Option<string>) {
    v.None? || IsBlank(v.value)
  }

  /** `validateEmployeeData`: the profile rules first, then a non-blank
      code, department and position, in that order; what it returns is the
      validated profile only. */
  function ValidateEmployeeData(data: EmployeeFields): (r: Result<ProfileFields, string>)
    ensures ValidateProfileData(data.profile).Err? ==> r == ValidateProfileData(data.profile)
    ensures r.Ok? <==>
      ValidateProfileData(data.profile).Ok? &&
      !Missing(data.employeeCode) && !Missing(data.department) && !Missing(data.position)
    ensures r.Ok? ==> r == ValidateProfileData(data.profile)
    ensures ValidateProfileData(data.profile).Ok? && Missing(data.employeeCode) ==> r == Err(CodeRequired)
    ensures ValidateProfileData(data.profile).Ok? && !Missing(data.employeeCode) && Missing(data.department) ==>
      r == Err(DepartmentRequired)
    ensures (ValidateProfileData(data.profile).Ok? && !Missing(data.employeeCode) && !Missing(data.department) &&
      Missing(data.position)) ==> r == Err(PositionRequired)
  {
    match ValidateProfileData(data.profile)
    case Err(m) => Err(m)
    case Ok(validated) =>
      if Missing(data.employeeCode) then Err(CodeRequired)
      else if Missing(data.department) then Err(DepartmentRequired)
      else if Missing(data.position) then Err(PositionRequired)
      else Ok(validated)
  }
}
