/** The employee form (components/EmployeeForm.tsx): the field rules the validator
    applies, the draft and error map the form keeps, how an input edits the draft, and
    the messages shown when a location request fails. */
module EmployeeForm {

  import opened Wrappers
  import opened Types
  import opened Strings

  /** The keys of the draft, which are also the keys of the error map. The `gender`
      key is `GenderField`, so that it does not hide the type `Gender`. */
  datatype Field = FullName | Email | Phone | Age | GenderField | Department | Address | Location

  /** The fields the validator checks; `gender`, `address` and `location` are never checked. */
  const ValidatedFields: set<Field> := {FullName, Email, Phone, Age, Department}

  const FullNameMessage := "Full Name must be at least 3 characters."
  const EmailMessage := "Please enter a valid email address."
  const PhoneMessage := "Phone number must be exactly 10 digits."
  const AgeMessage := "Age must be between 18 and 60."
  const DepartmentMessage := "Please select a department."

  /** The error message the validator stores under a checked field. */
  function Message(f: Field): string
    requires f in ValidatedFields
  {
    match f
    case FullName => FullNameMessage
    case Email => EmailMessage
    case Phone => PhoneMessage
    case Age => AgeMessage
    case Department => DepartmentMessage
  }

  /** The blank draft of a new employee. */
  const InitialState := EmployeeFormData("", "", "", Some(18), Male, "", "", None)

  // ---------------------------------------------------------------- field rules

  /** The name passes unless it is empty or shorter than 3 (UTF-16 code units). */
  predicate FullNameOk(name: string) {
    name != "" && Utf16Length(name) >= 3
  }

  /** A run of the regular-expression class `[^\s@]`. */
  predicate NoSpaceOrAt(s: string) {
    forall i :: 0 <= i < |s| ==> !IsSpace(s[i]) && s[i] != '@'
  }

  /** `/^[^\s@]+@[^\s@]+\.[^\s@]+$/` matches `s`: the text splits at an '@' (index i)
      and a later '.' (index j) into three non-empty runs without whitespace or '@'. */
  predicate MatchesEmailPattern(s: string) {
    exists i, j | 0 < i < |s| && i + 1 < j < |s| - 1 ::
      && s[i] == '@' && s[j] == '.'
      && NoSpaceOrAt(s[..i]) && NoSpaceOrAt(s[i + 1..j]) && NoSpaceOrAt(s[j + 1..])
  }

  predicate EmailOk(email: string) {
    email != "" && MatchesEmailPattern(email)
  }

  /** `/^\d{10}$/`: exactly ten ASCII digits. */
  predicate PhoneOk(phone: string) {
    phone != "" && |phone| == 10 && AllDigits(phone)
  }

  /** The age passes unless it is absent, zero, below 18 or above 60. */
  predicate AgeOk(age: Option<int>) {
    age.Some? && age.value != 0 && !(age.value < 18) && !(age.value > 60)
  }

  predicate DepartmentOk(department: string) {
    department != ""
  }

  /** The rule of one field; the unchecked fields always pass. */
  predicate FieldOk(d: EmployeeFormData, f: Field) {
    match f
    case FullName => FullNameOk(d.fullName)
    case Email => EmailOk(d.email)
    case Phone => PhoneOk(d.phone)
    case Age => AgeOk(d.age)
    case Department => DepartmentOk(d.department)
    case _ => true
  }

  /** The error map the validator produces for a draft: every checked field whose
      rule fails, with its message. */
  function ErrorsOf(d: EmployeeFormData): (errors: map<Field, string>)
    ensures errors.Keys <= ValidatedFields
    ensures forall f :: f in errors ==> errors[f] == Message(f)
  {
    map f | f in ValidatedFields && !FieldOk(d, f) :: Message(f)
  }

  /** The validator's verdict: no field has an error. */
  predicate IsValid(d: EmployeeFormData) {
    ErrorsOf(d) == map[]
  }

  // ------------------------------------------------- the email rule in plain words

  /** What passing the email pattern means: no whitespace, exactly one '@' with text
      before it, and after it a '.' that is neither the first nor the last character. */
  predicate EmailShape(s: string) {
    && (forall i :: 0 <= i < |s| ==> !IsSpace(s[i]))
    && exists k | 0 < k < |s| ::
      && s[k] == '@'
      && (forall i :: 0 <= i < |s| && i != k ==> s[i] != '@')
      && (exists j | k + 1 < j < |s| - 1 :: s[j] == '.')
  }

  lemma EmailPatternIffShape(s: string)
    ensures MatchesEmailPattern(s) <==> EmailShape(s)
  {
    if MatchesEmailPattern(s) {
      PatternGivesShape(s);
    }
    if EmailShape(s) {
      ShapeGivesPattern(s);
    }
  }

  lemma PatternGivesShape(s: string)
    requires MatchesEmailPattern(s)
    ensures EmailShape(s)
  {
    var i, j :| 0 < i < |s| && i + 1 < j < |s| - 1
      && s[i] == '@' && s[j] == '.'
      && NoSpaceOrAt(s[..i]) && NoSpaceOrAt(s[i + 1..j]) && NoSpaceOrAt(s[j + 1..]);
    forall n | 0 <= n < |s| ensures !IsSpace(s[n]) && (n != i ==> s[n] != '@') {
      if n < i {
        assert s[n] == s[..i][n];
      } else if i < n < j {
        assert s[n] == s[i + 1..j][n - i - 1];
      } else if j < n {
        assert s[n] == s[j + 1..][n - j - 1];
      }
    }
    assert 0 < i < |s| && i + 1 < j < |s| - 1 && s[j] == '.';
  }

  lemma ShapeGivesPattern(s: string)
    requires EmailShape(s)
    ensures MatchesEmailPattern(s)
  {
    var k :| 0 < k < |s| && s[k] == '@'
      && (forall i :: 0 <= i < |s| && i != k ==> s[i] != '@')
      && (exists j | k + 1 < j < |s| - 1 :: s[j] == '.');
    var j :| k + 1 < j < |s| - 1 && s[j] == '.';
    assert NoSpaceOrAt(s[..k]) by {
      forall n | 0 <= n < k ensures !IsSpace(s[..k][n]) && s[..k][n] != '@' {
        assert s[..k][n] == s[n];
      }
    }
    var host, tld := s[k + 1..j], s[j + 1..];
    assert NoSpaceOrAt(host) by {
      forall n | 0 <= n < |host| ensures !IsSpace(host[n]) && host[n] != '@' {
        assert host[n] == s[n + k + 1];
      }
    }
    assert NoSpaceOrAt(tld) by {
      forall n | 0 <= n < |tld| ensures !IsSpace(tld[n]) && tld[n] != '@' {
        assert tld[n] == s[n + j + 1];
      }
    }
  }

  // ------------------------------------------------------- what the validator says

  /** Each checked field gets its error exactly when its own rule, in plain words,
      fails; the unchecked fields never get one; several errors can co-occur. */
  lemma ValidationRules(d: EmployeeFormData)
    ensures FullName in ErrorsOf(d) <==> Utf16Length(d.fullName) < 3
    ensures Email in ErrorsOf(d) <==> !EmailShape(d.email)
    ensures Phone in ErrorsOf(d) <==> !(|d.phone| == 10 && AllDigits(d.phone))
    ensures Age in ErrorsOf(d) <==> !(d.age.Some? && 18 <= d.age.value <= 60)
    ensures Department in ErrorsOf(d) <==> d.department == ""
    ensures GenderField !in ErrorsOf(d) && Address !in ErrorsOf(d) && Location !in ErrorsOf(d)
  {
    EmailPatternIffShape(d.email);
    assert !EmailShape("");
  }

  /** The draft is valid exactly when every field's rule holds. */
  lemma ValidIffAllRules(d: EmployeeFormData)
    ensures IsValid(d) <==>
      && Utf16Length(d.fullName) >= 3
      && EmailShape(d.email)
      && |d.phone| == 10 && AllDigits(d.phone)
      && d.age.Some? && 18 <= d.age.value <= 60
      && d.department != ""
  {
    ValidationRules(d);
    if forall f :: f in ValidatedFields ==> FieldOk(d, f) {
      assert ErrorsOf(d).Keys == {};
    }
  }

  /** Each rule reads only its own field: two drafts that agree on a field agree on
      whether that field has an error. */
  lemma RuleReadsOnlyItsField(d: EmployeeFormData, e: EmployeeFormData, f: Field)
    requires FieldOf(d, f) == FieldOf(e, f)
    ensures f in ErrorsOf(d) <==> f in ErrorsOf(e)
  {
  }

  /** The blank draft fails on the name, email, phone and department, but not on the
      age, which starts at 18. */
  lemma InitialStateErrors()
    ensures ErrorsOf(InitialState).Keys == {FullName, Email, Phone, Department}
  {
    assert !MatchesEmailPattern("");
    assert FieldOk(InitialState, Age);
  }

  lemma SampleEmailMatches()
    ensures MatchesEmailPattern("jane@x.com")
  {
    var email := "jane@x.com";
    assert email[4] == '@' && email[6] == '.';
    assert NoSpaceOrAt(email[..4]) && NoSpaceOrAt(email[5..6]) && NoSpaceOrAt(email[7..]);
  }

  /** A complete, well-formed draft is accepted. */
  lemma SampleDraftIsValid()
    ensures IsValid(EmployeeFormData("Jane Doe", "jane@x.com", "1234567890", Some(30),
                                     Female, "Sales", "", None))
  {
    var d := EmployeeFormData("Jane Doe", "jane@x.com", "1234567890", Some(30),
                              Female, "Sales", "", None);
    SampleFieldsPass(d);
    assert |d.fullName| == 8;
    ErrorsOfAgrees(d, map[]);
  }

  /** The sample's email, phone, age and department pass their rules. */
  lemma SampleFieldsPass(d: EmployeeFormData)
    requires d.email == "jane@x.com" && d.phone == "1234567890"
    requires d.age == Some(30) && d.department == "Sales"
    ensures FieldOk(d, Email) && FieldOk(d, Phone) && FieldOk(d, Age) && FieldOk(d, Department)
  {
    SampleEmailMatches();
    SamplePhonePasses();
  }

  lemma SamplePhonePasses()
    ensures PhoneOk("1234567890")
  {
    var phone := "1234567890";
    forall i | 0 <= i < |phone| ensures IsDigit(phone[i]) {
    }
  }

  /** A two-character name in an otherwise valid draft is the only error. */
  lemma ShortNameIsTheOnlyError()
    ensures ErrorsOf(EmployeeFormData("Jo", "jane@x.com", "1234567890", Some(30),
                                      Female, "Sales", "", None)) == map[FullName := FullNameMessage]
  {
    var d := EmployeeFormData("Jo", "jane@x.com", "1234567890", Some(30),
                              Female, "Sales", "", None);
    SampleFieldsPass(d);
    assert Utf16Length(d.fullName) == 2;
    ErrorsOfAgrees(d, map[FullName := FullNameMessage]);
  }

  // ------------------------------------------------------------- editing a field

  /** The value one field of the draft holds. */
  datatype FieldValue =
    | Text(text: string)
    | AgeValue(age: Option<int>)
    | GenderValue(gender: Gender)
    | LocationValue(location: Option<LocationData>)

  function FieldOf(d: EmployeeFormData, f: Field): FieldValue {
    match f
    case FullName => Text(d.fullName)
    case Email => Text(d.email)
    case Phone => Text(d.phone)
    case Age => AgeValue(d.age)
    case GenderField => GenderValue(d.gender)
    case Department => Text(d.department)
    case Address => Text(d.address)
    case Location => LocationValue(d.location)
  }

  /** `parseInt(value) || ''` on the age input: a number that is `NaN` or zero becomes
      the empty value. */
  function CoerceAge(value: string): (age: Option<int>)
    ensures age == None <==> ParseInt(value) == None || ParseInt(value) == Some(0)
    ensures age.Some? ==> ParseInt(value) == Some(age.value) && age.value != 0
  {
    match ParseInt(value)
    case Some(n) => if n == 0 then None else Some(n)
    case None => None
  }

  function ParseGender(value: string): Option<Gender> {
    if value == "Male" then Some(Male)
    else if value == "Female" then Some(Female)
    else if value == "Other" then Some(Other)
    else None
  }

  /** `value` is something the input named `f` can deliver: there is no location
      input, and the gender radios carry the three gender names. */
  predicate IsInputEvent(f: Field, value: string) {
    f != Location && (f == GenderField ==> ParseGender(value).Some?)
  }

  /** What an input event stores in its field. */
  function InputValue(f: Field, value: string): FieldValue
    requires IsInputEvent(f, value)
  {
    match f
    case Age => AgeValue(CoerceAge(value))
    case GenderField => GenderValue(ParseGender(value).value)
    case _ => Text(value)
  }

  /** The draft after an input event: the named field holds the new value and every
      other field is as it was. */
  function ApplyChange(d: EmployeeFormData, f: Field, value: string): (r: EmployeeFormData)
    requires IsInputEvent(f, value)
    ensures FieldOf(r, f) == InputValue(f, value)
    ensures forall g :: g != f ==> FieldOf(r, g) == FieldOf(d, g)
  {
    match f
    case FullName => d.(fullName := value)
    case Email => d.(email := value)
    case Phone => d.(phone := value)
    case Age => d.(age := CoerceAge(value))
    case GenderField => d.(gender := ParseGender(value).value)
    case Department => d.(department := value)
    case Address => d.(address := value)
  }

  /** Editing one field cannot change whether another field passes validation. */
  lemma ChangeKeepsOtherVerdicts(d: EmployeeFormData, f: Field, value: string, g: Field)
    requires IsInputEvent(f, value) && g != f
    ensures g in ErrorsOf(ApplyChange(d, f, value)) <==> g in ErrorsOf(d)
  {
    RuleReadsOnlyItsField(ApplyChange(d, f, value), d, g);
  }

  /** An age input `parseInt` reads as `NaN` or zero is stored as the empty value, so
      the next validation always reports the age; otherwise the age passes exactly
      when the number `parseInt` reads lies in 18..60. */
  lemma AgeInputVerdict(d: EmployeeFormData, value: string)
    ensures (ParseInt(value) == None || ParseInt(value) == Some(0)) ==>
      CoerceAge(value) == None && Age in ErrorsOf(ApplyChange(d, Age, value))
    ensures Age !in ErrorsOf(ApplyChange(d, Age, value)) <==>
      ParseInt(value).Some? && 18 <= ParseInt(value).value <= 60
  {
    ValidationRules(ApplyChange(d, Age, value));
  }

  /** The number an age input displays reads back as that number. */
  lemma AgeInputOfNumber(n: nat)
    requires n > 0
    ensures CoerceAge(DecimalString(n)) == Some(n)
  {
    ParseIntOfDecimalString(n);
  }

  /** A fraction or a unit after the digits of an age input is ignored. */
  lemma AgeInputIgnoresTail()
    ensures CoerceAge("25.5") == Some(25) && CoerceAge("25abc") == Some(25)
  {
    ParseIntOfDigitsThen("25", ".5");
    assert "25" + ".5" == "25.5";
    ParseIntOfDigitsThen("25", "abc");
    assert "25" + "abc" == "25abc";
  }

  /** Leading whitespace in an age input is skipped. */
  lemma AgeInputSkipsSpace()
    ensures CoerceAge(" 42") == Some(42)
  {
    ParseIntOfDigitsThen("42", "");
    assert "42" + "" == "42";
    ParseIntSkipsBlank(" ", "42");
    assert " " + "42" == " 42";
  }

  /** A sign in an age input is read; a negative age is stored as such and then
      fails the age rule. */
  lemma AgeInputReadsSign()
    ensures CoerceAge("-5") == Some(-5)
  {
    ParseIntOfDigitsThen("5", "");
    assert "5" + "" == "5";
    ParseIntSign("5");
    assert "-" + "5" == "-5";
  }

  /** A `0x` prefix makes `parseInt` read an age input as hexadecimal. */
  lemma AgeInputHex()
    ensures CoerceAge("0x1E") == Some(30)
  {
    var digits := "0x1E"[2..];
    assert digits == "1E";
    assert HexPrefix(digits[1..]) == "E";
    assert HexPrefix(digits) == digits;
    assert HexValue(digits) == 16 * HexValue("1") + 14;
  }

  /** An age input with no leading digit reads as `NaN`, and zero is falsy: both
      are stored as the empty value. */
  lemma AgeInputEmptyValues()
    ensures CoerceAge("abc") == None && CoerceAge("") == None && CoerceAge("0") == None
  {
    ParseIntOfDigitsThen("0", "");
    assert "0" + "" == "0";
  }

  /** The draft the form shows for an edit target: a copy of the record's eight
      editable fields, or the blank draft when nothing is being edited. */
  function DraftFor(target: Option<Employee>): (d: EmployeeFormData)
    ensures target.Some? ==> forall f :: FieldOf(d, f) == FieldOf(target.value.data, f)
    ensures target.None? ==> d == InitialState
  {
    match target
    case Some(e) => EmployeeFormData(e.data.fullName, e.data.email, e.data.phone, e.data.age,
                                     e.data.gender, e.data.department, e.data.address,
                                     e.data.location)
    case None => InitialState
  }

  // ------------------------------------------------------------------ location

  const UnsupportedMessage := "Geolocation is not supported by your browser"
  const PermissionDeniedMessage :=
    "Location permission denied. Please allow location access in your browser settings."
  const UnavailableMessage := "Location information is unavailable. Please check your signal."
  const TimeoutMessage := "The request to get user location timed out. Please try again."
  const DefaultLocationMessage := "Unable to retrieve location."

  /** The error the location provider reports: its numeric code and its `message`,
      which is `None` when it is not a string. */
  datatype PositionError = PositionError(code: int, message: Option<string>)

  /** The alert shown for a failed location request. */
  function LocationErrorMessage(e: PositionError): (alert: string)
    ensures alert in {PermissionDeniedMessage, UnavailableMessage, TimeoutMessage,
                      DefaultLocationMessage}
            || (e.message.Some? && alert == e.message.value && !(e.code in {1, 2, 3}))
  {
    if e.code == 1 then PermissionDeniedMessage
    else if e.code == 2 then UnavailableMessage
    else if e.code == 3 then TimeoutMessage
    else if e.message.Some? && Trim(e.message.value) != "" then e.message.value
    else DefaultLocationMessage
  }

  /** Code 1 (permission denied), 2 (position unavailable) and 3 (timeout) each give
      their own fixed message whatever the error's own message; any other code shows
      the error's message when it is not blank, and the default message otherwise;
      so the alert is never blank. */
  lemma LocationErrorMessageCases(e: PositionError)
    ensures e.code == 1 ==> LocationErrorMessage(e) == PermissionDeniedMessage
    ensures e.code == 2 ==> LocationErrorMessage(e) == UnavailableMessage
    ensures e.code == 3 ==> LocationErrorMessage(e) == TimeoutMessage
    ensures e.code !in {1, 2, 3} && e.message.Some? && !IsBlank(e.message.value) ==>
      LocationErrorMessage(e) == e.message.value
    ensures e.code !in {1, 2, 3} && (e.message.None? || IsBlank(e.message.value)) ==>
      LocationErrorMessage(e) == DefaultLocationMessage
    ensures !IsBlank(LocationErrorMessage(e))
  {
    var alert := LocationErrorMessage(e);
    if e.code == 1 {
      assert alert[|alert| - 1] == '.';
    } else if e.code == 2 {
      assert alert[|alert| - 1] == '.';
    } else if e.code == 3 {
      assert alert[|alert| - 1] == '.';
    } else if e.message.Some? {
      TrimEmptyIffBlank(e.message.value);
      if IsBlank(e.message.value) {
        assert alert == DefaultLocationMessage;
        assert alert[|alert| - 1] == '.';
      }
    } else {
      assert alert[|alert| - 1] == '.';
    }
  }

  // ------------------------------------------------------------------ the form

  /** A map that holds each checked field's message exactly when that field's rule
      fails is the validator's error map. */
  lemma ErrorsOfAgrees(d: EmployeeFormData, m: map<Field, string>)
    requires forall f :: f in m <==> f in ValidatedFields && !FieldOk(d, f)
    requires forall f :: f in m ==> m[f] == Message(f)
    ensures m == ErrorsOf(d)
  {
  }

  /** The form's state: the draft, the error map and the record being edited (the
      `editingEmployee` the directory passes in). */
  class Form {
    var draft: EmployeeFormData
    var errors: map<Field, string>
    var editing: Option<Employee>

    /** The error map holds only checked fields, each under its own message. */
    predicate ErrorsWellFormed()
      reads this
    {
      forall f :: f in errors ==> f in ValidatedFields && errors[f] == Message(f)
    }

    /** The first render: the draft starts blank and the population effect then runs
        for the edit target passed in. */
    constructor (target: Option<Employee>)
      ensures editing == target && draft == DraftFor(target) && errors == map[]
      ensures ErrorsWellFormed()
    {
      editing := target;
      draft := DraftFor(target);
      errors := map[];
    }

    /** The effect that runs when the edit target changes: the draft becomes a copy
        of the target's fields (or the blank draft) and every error is cleared. */
    method Populate(target: Option<Employee>)
      modifies this
      ensures editing == target && draft == DraftFor(target) && errors == map[]
      ensures ErrorsWellFormed()
    {
      editing := target;
      draft := DraftFor(target);
      errors := map[];
    }

    /** Runs every check on the draft, collecting the errors field by field, and
        stores the result. */
    method Validate() returns (ok: bool)
      modifies this`errors
      ensures errors == ErrorsOf(draft) && ErrorsWellFormed()
      ensures ok <==> IsValid(draft)
    {
      var newErrors: map<Field, string> := map[];
      if !FullNameOk(draft.fullName) {
        newErrors := newErrors[FullName := FullNameMessage];
      }
      if !EmailOk(draft.email) {
        newErrors := newErrors[Email := EmailMessage];
      }
      if !PhoneOk(draft.phone) {
        newErrors := newErrors[Phone := PhoneMessage];
      }
      if !AgeOk(draft.age) {
        newErrors := newErrors[Age := AgeMessage];
      }
      if !DepartmentOk(draft.department) {
        newErrors := newErrors[Department := DepartmentMessage];
      }
      ErrorsOfAgrees(draft, newErrors);
      errors := newErrors;
      ok := newErrors == map[];
    }

    /** The submit handler: validate; when valid, hand the draft to the directory and
        reset it to the blank draft unless a record is being edited. */
    method Submit() returns (submitted: Option<EmployeeFormData>)
      modifies this`draft, this`errors
      ensures errors == ErrorsOf(old(draft)) && ErrorsWellFormed()
      ensures submitted == if IsValid(old(draft)) then Some(old(draft)) else None
      ensures draft == if IsValid(old(draft)) && editing.None? then InitialState else old(draft)
    {
      var ok := Validate();
      if ok {
        submitted := Some(draft);
        if editing.None? {
          draft := InitialState;
        }
      } else {
        submitted := None;
      }
    }

    /** The change handler of the input named `f`: store the (coerced) value in that
        field and clear that field's error, if it has one. */
    method Change(f: Field, value: string)
      requires IsInputEvent(f, value)
      requires ErrorsWellFormed()
      modifies this`draft, this`errors
      ensures draft == ApplyChange(old(draft), f, value)
      ensures errors == old(errors) - {f} && ErrorsWellFormed()
    {
      draft := ApplyChange(draft, f, value);
      if f in errors {
        errors := errors - {f};
      }
    }

    /** The location button: without a geolocation capability it only alerts; otherwise
        the request is issued and its outcome arrives through one of the two callbacks
        below. Either way the draft and the errors are untouched. */
    method RequestLocation(geolocationAvailable: bool) returns (alert: Option<string>)
      ensures geolocationAvailable <==> alert.None?
      ensures alert.Some? ==> alert.value == UnsupportedMessage
    {
      if !geolocationAvailable {
        return Some(UnsupportedMessage);
      }
      alert := None;
    }

    /** The success callback: only the draft's location changes. */
    method OnLocationSuccess(loc: LocationData)
      modifies this`draft
      ensures draft == old(draft).(location := Some(loc))
    {
      draft := draft.(location := Some(loc));
    }

    /** The failure callback: the draft is left alone and an alert is shown. */
    method OnLocationError(e: PositionError) returns (alert: string)
      ensures alert == LocationErrorMessage(e)
      ensures !IsBlank(alert)
    {
      LocationErrorMessageCases(e);
      alert := LocationErrorMessage(e);
    }
  }
}
