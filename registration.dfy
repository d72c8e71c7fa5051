/**
 * Input validation of `register` and `login` (server/controllers/authController.js).
 * Each field is checked on its own, its rules tried in a fixed order so that it
 * gets at most one message, and every field's message is collected into one
 * field-keyed map.
 */
module Registration {
  import opened Wrappers
  import opened Text
  import opened Validation
  import opened Users

  /** The request body of a registration; a field that is absent is `None`. */
  datatype RegisterInput = RegisterInput(
    name: Option<string>,
    employeeId: Option<string>,
    email: Option<string>,
    password: Option<string>,
    confirmPassword: Option<string>,
    role: Option<string>,
    highway: Option<string>,
    phone: Option<string>)

  datatype RegField =
    | NameField | EmployeeIdField | EmailField | PasswordField
    | ConfirmPasswordField | RoleField | HighwayField | PhoneField

  const AllRegFields: set<RegField> :=
    {NameField, EmployeeIdField, EmailField, PasswordField, ConfirmPasswordField, RoleField, HighwayField, PhoneField}

  /** `/^[a-zA-Z\s]+$/` once the name is known to be non-empty. */
  predicate NameChars(s: string)
  {
    forall k :: 0 <= k < |s| ==> IsLetter(s[k]) || IsSpace(s[k])
  }

  const HighwayListMessage :=
    "Invalid highway. Valid options: NH-1, NH-2, NH-4, NH-5, NH-6, NH-7, NH-8, NH-10, NH-19, NH-24, "
    + "NH-27, NH-44, NH-48, NH-52, NH-58, NH-66, NH-71, NH-76, NH-92, NH-104, NH-148, Other"

  /** The name's messages, tried in the source's order. */
  function NameError(name: Option<string>): Option<string>
  {
    if Blank(name) then Some("Full name is required")
    else if |Trim(name.value)| < 3 then Some("Name must be at least 3 characters")
    else if |Trim(name.value)| > 50 then Some("Name must not exceed 50 characters")
    else if !NameChars(Trim(name.value)) then Some("Name must contain only alphabets and spaces")
    else None
  }

  /** The employee id's messages, tried in the source's order; `invalid` is the format message. */
  function EmployeeIdError(employeeId: Option<string>, invalid: string): Option<string>
  {
    if Blank(employeeId) then Some("Employee ID is required")
    else if !IsValidEmployeeId(ToUpper(Trim(employeeId.value))) then Some(invalid)
    else None
  }

  /** The e-mail's messages, tried in the source's order. */
  function EmailError(email: Option<string>): Option<string>
  {
    if Blank(email) then Some("Email address is required")
    else if !IsValidEmail(Trim(email.value)) then Some("Please enter a valid email address (e.g. shivam@nhai.gov.in)")
    else if |Trim(email.value)| > 100 then Some("Email must not exceed 100 characters")
    else None
  }

  /** The password is checked as given, without trimming. */
  function PasswordError(password: Option<string>): Option<string>
  {
    if !Truthy(password) then Some("Password is required")
    else if |password.value| < 8 then Some("Password must be at least 8 characters long")
    else if !IsStrongPassword(password.value) then
      Some("Password must have: 1 uppercase letter, 1 lowercase letter, 1 number & 1 special character (@$!%*?&)")
    else None
  }

  /** `password !== confirmPassword` compares the raw values, an absent password included. */
  function ConfirmPasswordError(password: Option<string>, confirm: Option<string>): Option<string>
  {
    if !Truthy(confirm) then Some("Please confirm your password")
    else if password != confirm then Some("Passwords do not match. Please re-enter.")
    else None
  }

  /** The role must be one of the two names exactly; it is not trimmed before the comparison. */
  function RoleError(role: Option<string>): Option<string>
  {
    if Blank(role) then Some("Role is required")
    else if ParseRole(role.value).None? then Some("Role must be either: staff or admin")
    else None
  }

  /** The highway's messages, tried in the source's order. */
  function HighwayError(highway: Option<string>): Option<string>
  {
    if Blank(highway) then Some("Highway assignment is required")
    else if Trim(highway.value) !in ValidHighways then Some(HighwayListMessage)
    else None
  }

  /** The phone's messages, tried in the source's order. */
  function PhoneError(phone: Option<string>): Option<string>
  {
    if Blank(phone) then Some("Phone number is required")
    else if !IsValidPhone(Trim(phone.value)) then
      Some("Enter a valid 10-digit Indian mobile number starting with 6, 7, 8, or 9")
    else None
  }

  const InvalidEmployeeIdMessage := "Invalid Employee ID. Format: 2-5 uppercase letters + 3-6 digits. Example: NHAI001"

  /** The message of one field, if any. */
  function RegFieldError(input: RegisterInput, f: RegField): Option<string>
  {
    match f
    case NameField => NameError(input.name)
    case EmployeeIdField => EmployeeIdError(input.employeeId, InvalidEmployeeIdMessage)
    case EmailField => EmailError(input.email)
    case PasswordField => PasswordError(input.password)
    case ConfirmPasswordField => ConfirmPasswordError(input.password, input.confirmPassword)
    case RoleField => RoleError(input.role)
    case HighwayField => HighwayError(input.highway)
    case PhoneField => PhoneError(input.phone)
  }

  /** The fields in the order the source checks them. */
  const RegistrationOrder: seq<RegField> :=
    [NameField, EmployeeIdField, EmailField, PasswordField, ConfirmPasswordField, RoleField, HighwayField, PhoneField]

  lemma OrderCoversFields(f: RegField)
    ensures f in RegistrationOrder
  {
  }

  /**
   * Fills the error map field by field, in the order of the source; each field's
   * block runs whatever the other fields' blocks found. Every field gets exactly
   * the message of its first failing rule and a field with no failing rule gets none.
   */
  method ValidateRegistration(input: RegisterInput) returns (errors: map<RegField, string>)
    ensures forall f :: f in errors <==> RegFieldError(input, f).Some?
    ensures forall f :: f in errors ==> errors[f] == RegFieldError(input, f).value
  {
    errors := map[];
    for i := 0 to |RegistrationOrder|
      invariant forall f :: f in errors <==> f in RegistrationOrder[..i] && RegFieldError(input, f).Some?
      invariant forall f :: f in errors ==> errors[f] == RegFieldError(input, f).value
    {
      var e := RegFieldError(input, RegistrationOrder[i]);
      if e.Some? {
        errors := errors[RegistrationOrder[i] := e.value];
      }
    }
    forall f ensures f in RegistrationOrder {
      OrderCoversFields(f);
    }
    assert RegistrationOrder[..|RegistrationOrder|] == RegistrationOrder;
  }

  // The rules each field must satisfy, stated without the order in which they are tried.

  predicate NameRule(name: Option<string>)
  {
    name.Some? && 3 <= |Trim(name.value)| <= 50 && NameChars(Trim(name.value))
  }

  predicate EmployeeIdRule(employeeId: Option<string>)
  {
    employeeId.Some? && IsValidEmployeeId(ToUpper(Trim(employeeId.value)))
  }

  predicate EmailRule(email: Option<string>)
  {
    email.Some? && IsValidEmail(Trim(email.value)) && |Trim(email.value)| <= 100
  }

  predicate PasswordRule(password: Option<string>)
  {
    password.Some? && IsStrongPassword(password.value)
  }

  predicate ConfirmPasswordRule(password: Option<string>, confirm: Option<string>)
  {
    Truthy(confirm) && confirm == password
  }

  predicate RoleRule(role: Option<string>)
  {
    role.Some? && ParseRole(role.value).Some?
  }

  predicate HighwayRule(highway: Option<string>)
  {
    highway.Some? && Trim(highway.value) in ValidHighways
  }

  predicate PhoneRule(phone: Option<string>)
  {
    phone.Some? && IsValidPhone(Trim(phone.value))
  }

  /** What a registration must satisfy: every field's rules. */
  predicate Acceptable(input: RegisterInput)
  {
    && NameRule(input.name) && EmployeeIdRule(input.employeeId) && EmailRule(input.email)
    && PasswordRule(input.password) && ConfirmPasswordRule(input.password, input.confirmPassword)
    && RoleRule(input.role) && HighwayRule(input.highway) && PhoneRule(input.phone)
  }

  // A field has no message exactly when all of its rules hold, whatever order they are tried in.

  lemma NameErrorNone(name: Option<string>)
    ensures NameError(name).None? <==> NameRule(name)
  {
  }

  lemma EmployeeIdErrorNone(employeeId: Option<string>, invalid: string)
    ensures EmployeeIdError(employeeId, invalid).None? <==> EmployeeIdRule(employeeId)
  {
    ValidIdNotBlank(employeeId);
  }

  lemma EmailErrorNone(email: Option<string>)
    ensures EmailError(email).None? <==> EmailRule(email)
  {
    if email.Some? && Trim(email.value) == "" {
      assert !IsValidEmail("");
    }
  }

  lemma PasswordErrorNone(password: Option<string>)
    ensures PasswordError(password).None? <==> PasswordRule(password)
  {
  }

  lemma ConfirmPasswordErrorNone(password: Option<string>, confirm: Option<string>)
    ensures ConfirmPasswordError(password, confirm).None? <==> ConfirmPasswordRule(password, confirm)
  {
  }

  lemma RoleErrorNone(role: Option<string>)
    ensures RoleError(role).None? <==> RoleRule(role)
  {
  }

  lemma HighwayErrorNone(highway: Option<string>)
    ensures HighwayError(highway).None? <==> HighwayRule(highway)
  {
  }

  lemma PhoneErrorNone(phone: Option<string>)
    ensures PhoneError(phone).None? <==> PhoneRule(phone)
  {
    if phone.Some? && Trim(phone.value) == "" {
      assert !IsValidPhone("");
    }
  }

  /** The rules of one field. */
  predicate FieldRule(input: RegisterInput, f: RegField)
  {
    match f
    case NameField => NameRule(input.name)
    case EmployeeIdField => EmployeeIdRule(input.employeeId)
    case EmailField => EmailRule(input.email)
    case PasswordField => PasswordRule(input.password)
    case ConfirmPasswordField => ConfirmPasswordRule(input.password, input.confirmPassword)
    case RoleField => RoleRule(input.role)
    case HighwayField => HighwayRule(input.highway)
    case PhoneField => PhoneRule(input.phone)
  }

  lemma FieldErrorNone(input: RegisterInput, f: RegField)
    ensures RegFieldError(input, f).None? <==> FieldRule(input, f)
  {
    match f
    case NameField => NameErrorNone(input.name);
    case EmployeeIdField => EmployeeIdErrorNone(input.employeeId, InvalidEmployeeIdMessage);
    case EmailField => EmailErrorNone(input.email);
    case PasswordField => PasswordErrorNone(input.password);
    case ConfirmPasswordField => ConfirmPasswordErrorNone(input.password, input.confirmPassword);
    case RoleField => RoleErrorNone(input.role);
    case HighwayField => HighwayErrorNone(input.highway);
    case PhoneField => PhoneErrorNone(input.phone);
  }

  lemma AcceptableFields(input: RegisterInput)
    ensures Acceptable(input) <==> forall f :: FieldRule(input, f)
  {
    if Acceptable(input) {
      forall f ensures FieldRule(input, f) {
        AcceptableField(input, f);
      }
    } else if forall f :: FieldRule(input, f) {
      FieldsAcceptable(input);
    }
  }

  lemma AcceptableField(input: RegisterInput, f: RegField)
    requires Acceptable(input)
    ensures FieldRule(input, f)
  {
  }

  lemma FieldsAcceptable(input: RegisterInput)
    requires forall f :: FieldRule(input, f)
    ensures Acceptable(input)
  {
    assert FieldRule(input, NameField);
    assert FieldRule(input, EmployeeIdField);
    assert FieldRule(input, EmailField);
    assert FieldRule(input, PasswordField);
    assert FieldRule(input, ConfirmPasswordField);
    assert FieldRule(input, RoleField);
    assert FieldRule(input, HighwayField);
    assert FieldRule(input, PhoneField);
  }

  /** The error map comes back empty exactly when every rule of every field holds. */
  lemma RegistrationAccepted(input: RegisterInput)
    ensures (forall f :: RegFieldError(input, f).None?) <==> Acceptable(input)
  {
    forall f ensures RegFieldError(input, f).None? <==> FieldRule(input, f) {
      FieldErrorNone(input, f);
    }
    AcceptableFields(input);
  }

  /** An id that passes the format check is not blank, so the "required" message and a passing format check never meet. */
  lemma ValidIdNotBlank(employeeId: Option<string>)
    ensures EmployeeIdRule(employeeId) ==> !Blank(employeeId)
  {
  }

  /** The record `User.create` receives: employee id upper-cased, e-mail lower-cased,
      name, highway and phone trimmed, and the account active. */
  function NewUser(input: RegisterInput, id: nat, now: int): User
    requires Acceptable(input)
  {
    User(id, Trim(input.name.value), ToUpper(Trim(input.employeeId.value)),
         ToLower(Trim(input.email.value)), input.password.value,
         ParseRole(input.role.value).value, Trim(input.highway.value),
         Trim(input.phone.value), true, createdAt := now)
  }

  /** A stored user that meets every registration rule in its stored (normalised) form. */
  ghost predicate WellFormedUser(u: User)
  {
    && 3 <= |u.name| <= 50 && NameChars(u.name) && Trim(u.name) == u.name
    && IsValidEmployeeId(u.employeeId)
    && IsValidEmail(u.email) && |u.email| <= 100 && ToLower(u.email) == u.email
    && u.highway in ValidHighways
    && IsValidPhone(u.phone)
  }

  /** Normalising an accepted registration keeps every rule: the stored record is well formed. */
  lemma NewUserWellFormed(input: RegisterInput, id: nat, now: int)
    requires Acceptable(input)
    ensures WellFormedUser(NewUser(input, id, now))
    ensures NewUser(input, id, now).isActive
  {
    NameStored(input.name.value);
    EmailKept(input.email.value);
  }

  /** A trimmed name that meets the name rules still meets them and is its own trim. */
  lemma NameStored(name: string)
    requires 3 <= |Trim(name)| <= 50 && NameChars(Trim(name))
    ensures var n := Trim(name); 3 <= |n| <= 50 && NameChars(n) && Trim(n) == n
  {
    TrimIdempotent(name);
  }

  lemma EmailKept(email: string)
    requires IsValidEmail(Trim(email)) && |Trim(email)| <= 100
    ensures IsValidEmail(ToLower(Trim(email))) && |ToLower(Trim(email))| <= 100
    ensures ToLower(ToLower(Trim(email))) == ToLower(Trim(email))
  {
    EmailLowerCase(Trim(email));
    ToLowerIdempotent(Trim(email));
  }

  // ---------------------------------------------------------------------------
  // Login

  datatype LoginInput = LoginInput(employeeId: Option<string>, password: Option<string>)

  const InvalidEmployeeIdFormatMessage := "Invalid Employee ID format. Example: NHAI001"

  /** The login checks of one field, keyed like the registration's. */
  function LoginFieldError(input: LoginInput, f: RegField): Option<string>
  {
    match f
    case EmployeeIdField => EmployeeIdError(input.employeeId, InvalidEmployeeIdFormatMessage)
    case PasswordField => if !Truthy(input.password) then Some("Password is required") else None
    case _ => None
  }

  /**
   * Fills the login error map: the employee id's presence and format, then,
   * independently, the password's presence.
   */
  method ValidateLogin(input: LoginInput) returns (errors: map<RegField, string>)
    ensures forall f :: f in errors <==> LoginFieldError(input, f).Some?
    ensures forall f :: f in errors ==> errors[f] == LoginFieldError(input, f).value
  {
    errors := map[];
    var idError := EmployeeIdError(input.employeeId, InvalidEmployeeIdFormatMessage);
    if idError.Some? {
      errors := errors[EmployeeIdField := idError.value];
    }
    if !Truthy(input.password) {
      errors := errors[PasswordField := "Password is required"];
    }
  }

  /** Login has no field error exactly when the employee id is well formed and a password is given. */
  lemma LoginAccepted(input: LoginInput)
    ensures (forall f :: LoginFieldError(input, f).None?) <==> EmployeeIdRule(input.employeeId) && Truthy(input.password)
  {
    EmployeeIdErrorNone(input.employeeId, InvalidEmployeeIdFormatMessage);
    assert LoginFieldError(input, EmployeeIdField) == EmployeeIdError(input.employeeId, InvalidEmployeeIdFormatMessage);
    assert LoginFieldError(input, PasswordField).None? <==> Truthy(input.password);
  }
}
