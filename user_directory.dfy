/**
 * The user collection and the operations on it: `register` and `login`
 * (server/controllers/authController.js) and `getAllUsers` and
 * `toggleUserStatus` (server/controllers/adminController.js). The database is
 * a sequence of records held by a `Directory` object.
 */
module UserDirectory {
  import opened Wrappers
  import opened Text
  import opened Seqs
  import opened Validation
  import opened Users
  import opened Registration

  /** The answer to a registration request. */
  datatype RegisterOutcome =
    | Rejected(errors: map<RegField, string>)          // 400, every field's message
    | Duplicate(field: RegField, message: string)      // 400, one field already registered
    | Registered(message: string, profile: Profile)    // 201

  /** The answer to a login request. */
  datatype LoginOutcome =
    | LoginRejected(errors: map<RegField, string>)     // 400
    | Unauthorized(message: string)                    // 401
    | LoggedIn(message: string, profile: Profile)      // 200

  /** The answer to an activation toggle. */
  datatype ToggleOutcome =
    | UserNotFound                                     // 404
    | Toggled(isActive: bool, message: string)         // 200

  const InvalidCredentialsMessage := "Invalid Employee ID or password"
  const DeactivatedMessage := "Your account has been deactivated. Please contact your admin."

  function WelcomeMessage(role: string, name: string): string
  {
    (if role == "admin" then "Admin" else "Staff") + " registered successfully! Welcome, " + name + "."
  }

  function LoginMessage(name: string): string
  {
    "Welcome back, " + name + "!"
  }

  function ToggleMessage(isActive: bool): string
  {
    "User " + (if isActive then "activated" else "deactivated") + " successfully"
  }

  /** The three keys `register` checks for duplicates, in the order it checks them. */
  datatype UserKey = EmployeeIdKey | EmailKey | PhoneKey

  function KeyOf(u: User, k: UserKey): string
  {
    match k
    case EmployeeIdKey => u.employeeId
    case EmailKey => u.email
    case PhoneKey => u.phone
  }

  /** `User.findOne({ <key>: value })` finds a user. */
  function Taken(users: seq<User>, k: UserKey, value: string): (b: bool)
    ensures b <==> exists v :: v in users && KeyOf(v, k) == value
  {
    FindIndex(users, (v: User) => KeyOf(v, k) == value).Some?
  }

  /** The position of the user with the given database id. */
  function IndexOfUser(users: seq<User>, id: nat): (r: Option<nat>)
    ensures r.Some? ==> r.value < |users| && users[r.value].id == id
    ensures r.None? <==> forall u :: u in users ==> u.id != id
  {
    FindIndex(users, (u: User) => u.id == id)
  }

  /** `user.isActive = !user.isActive` on the user at position `k`. */
  function ToggleActive(users: seq<User>, k: nat): (r: seq<User>)
    requires k < |users|
    ensures |r| == |users|
    ensures r[k] == users[k].(isActive := !users[k].isActive)
    ensures forall j :: 0 <= j < |users| && j != k ==> r[j] == users[j]
  {
    users[k := users[k].(isActive := !users[k].isActive)]
  }

  /** Toggling the same user twice restores the collection. */
  lemma ToggleTwice(users: seq<User>, k: nat)
    requires k < |users|
    ensures ToggleActive(ToggleActive(users, k), k) == users
  {
    var once := ToggleActive(users, k);
    assert once[k].(isActive := !once[k].isActive) == users[k];
  }

  function PublicCreatedAt(p: PublicUser): int
  {
    p.createdAt
  }

  /** The stored users: ids below the next id to hand out, and no two users sharing an id,
      an employee id, an e-mail address or a phone number. */
  ghost predicate UniqueUsers(users: seq<User>, nextId: nat)
  {
    && (forall i :: 0 <= i < |users| ==> users[i].id < nextId)
    && (forall i, j :: 0 <= i < j < |users| ==>
          && users[i].id != users[j].id
          && users[i].employeeId != users[j].employeeId
          && users[i].email != users[j].email
          && users[i].phone != users[j].phone)
  }

  /** Adding a user whose keys are all new keeps the collection unique. */
  lemma {:induction false} AppendUnique(users: seq<User>, nextId: nat, u: User)
    requires UniqueUsers(users, nextId)
    requires u.id == nextId
    requires !Taken(users, EmployeeIdKey, u.employeeId) && !Taken(users, EmailKey, u.email)
    requires !Taken(users, PhoneKey, u.phone)
    ensures UniqueUsers(users + [u], nextId + 1)
  {
    var r := users + [u];
    forall i, j | 0 <= i < j < |r|
      ensures r[i].id != r[j].id && r[i].employeeId != r[j].employeeId
      ensures r[i].email != r[j].email && r[i].phone != r[j].phone
    {
      if j == |users| {
        assert r[i] in users;
      }
    }
  }

  class Directory {
    var users: seq<User>
    var nextId: nat

    ghost predicate Valid()
      reads this
    {
      UniqueUsers(users, nextId)
    }

    constructor()
      ensures Valid() && users == [] && nextId == 0
    {
      users := [];
      nextId := 0;
    }

    /** `User.findOne({ employeeId })`: the user holding that employee id. */
    function UserByEmployeeId(key: string): (r: Option<User>)
      reads this
      ensures r.Some? ==> r.value in users && r.value.employeeId == key
      ensures r.None? <==> forall u :: u in users ==> u.employeeId != key
    {
      var k := FindIndex(users, (u: User) => u.employeeId == key);
      if k.Some? then Some(users[k.value]) else None
    }

    /** `User.find().select("-password").sort({ createdAt: -1 })`: every user without the
        password, newest first. */
    function AllUsers(): (r: seq<PublicUser>)
      reads this
      ensures SortedDesc(r, PublicCreatedAt)
      ensures multiset(r) == multiset(Map(users, Public))
    {
      SortDesc(Map(users, Public), PublicCreatedAt)
    }

    /**
     * `register`: all field errors together, or else the first duplicate among
     * employee id, e-mail and phone, or else a new active user stored in
     * normalised form.
     */
    method Register(input: RegisterInput, now: int) returns (out: RegisterOutcome)
      requires Valid()
      modifies this
      ensures Valid()
      ensures out.Rejected? <==> !Acceptable(input)
      ensures out.Rejected? ==> forall f :: f in out.errors <==> RegFieldError(input, f).Some?
      ensures out.Rejected? ==> forall f :: f in out.errors ==> out.errors[f] == RegFieldError(input, f).value
      ensures !out.Registered? ==> users == old(users) && nextId == old(nextId)
      ensures Acceptable(input) ==>
        var u := NewUser(input, old(nextId), now);
        if Taken(old(users), EmployeeIdKey, u.employeeId) then
          out == Duplicate(EmployeeIdField, "This Employee ID is already registered")
        else if Taken(old(users), EmailKey, u.email) then
          out == Duplicate(EmailField, "This email address is already registered")
        else if Taken(old(users), PhoneKey, u.phone) then
          out == Duplicate(PhoneField, "This phone number is already registered")
        else
          && out == Registered(WelcomeMessage(input.role.value, u.name), ProfileOf(u))
          && users == old(users) + [u] && nextId == old(nextId) + 1
    {
      var errors := ValidateRegistration(input);
      RegistrationAccepted(input);
      if errors != map[] {
        var f :| f in errors;
        return Rejected(errors);
      }
      assert forall f :: f !in errors;
      var user := NewUser(input, nextId, now);
      out := Admit(user, input.role.value);
    }

    /** The part of `register` after validation: the duplicate checks in order, then the
        creation of the normalised record `user` (`role` is the role as submitted). */
    method Admit(user: User, role: string) returns (out: RegisterOutcome)
      requires Valid() && user.id == nextId
      modifies this
      ensures Valid()
      ensures !out.Registered? ==> users == old(users) && nextId == old(nextId)
      ensures
        if Taken(old(users), EmployeeIdKey, user.employeeId) then
          out == Duplicate(EmployeeIdField, "This Employee ID is already registered")
        else if Taken(old(users), EmailKey, user.email) then
          out == Duplicate(EmailField, "This email address is already registered")
        else if Taken(old(users), PhoneKey, user.phone) then
          out == Duplicate(PhoneField, "This phone number is already registered")
        else
          && out == Registered(WelcomeMessage(role, user.name), ProfileOf(user))
          && users == old(users) + [user] && nextId == old(nextId) + 1
    {
      if Taken(users, EmployeeIdKey, user.employeeId) {
        return Duplicate(EmployeeIdField, "This Employee ID is already registered");
      }
      if Taken(users, EmailKey, user.email) {
        return Duplicate(EmailField, "This email address is already registered");
      }
      if Taken(users, PhoneKey, user.phone) {
        return Duplicate(PhoneField, "This phone number is already registered");
      }
      AppendUnique(users, nextId, user);
      users := users + [user];
      nextId := nextId + 1;
      out := Registered(WelcomeMessage(role, user.name), ProfileOf(user));
    }

    /**
     * `login`: field errors first; then an unknown employee id and a wrong
     * password both give the same 401, and a deactivated account its own 401,
     * decided before the password is looked at.
     */
    method Login(input: LoginInput, passwordMatches: bool) returns (out: LoginOutcome)
      requires Valid()
      ensures out.LoginRejected? <==> !(EmployeeIdRule(input.employeeId) && Truthy(input.password))
      ensures out.LoginRejected? ==> forall f :: f in out.errors <==> LoginFieldError(input, f).Some?
      ensures out.LoginRejected? ==> forall f :: f in out.errors ==> out.errors[f] == LoginFieldError(input, f).value
      ensures !out.LoginRejected? ==>
        var found := UserByEmployeeId(ToUpper(Trim(input.employeeId.value)));
        if found.None? then out == Unauthorized(InvalidCredentialsMessage)
        else if !found.value.isActive then out == Unauthorized(DeactivatedMessage)
        else if !passwordMatches then out == Unauthorized(InvalidCredentialsMessage)
        else out == LoggedIn(LoginMessage(found.value.name), ProfileOf(found.value))
      ensures out.LoggedIn? ==>
        passwordMatches &&
        exists u :: u in users && u.isActive && u.employeeId == ToUpper(Trim(input.employeeId.value))
                 && out.profile == ProfileOf(u)
    {
      var errors := ValidateLogin(input);
      LoginAccepted(input);
      if errors != map[] {
        var f :| f in errors;
        return LoginRejected(errors);
      }
      assert forall f :: f !in errors;
      var user := UserByEmployeeId(ToUpper(Trim(input.employeeId.value)));
      if user.None? {
        return Unauthorized(InvalidCredentialsMessage);
      }
      if !user.value.isActive {
        return Unauthorized(DeactivatedMessage);
      }
      if !passwordMatches {
        return Unauthorized(InvalidCredentialsMessage);
      }
      out := LoggedIn(LoginMessage(user.value.name), ProfileOf(user.value));
    }

    /** `toggleUserStatus`: flips one user's activation flag and reports the new value. */
    method ToggleUserStatus(id: nat) returns (out: ToggleOutcome)
      requires Valid()
      modifies this
      ensures Valid()
      ensures nextId == old(nextId)
      ensures out.UserNotFound? <==> forall u :: u in old(users) ==> u.id != id
      ensures out.UserNotFound? ==> users == old(users)
      ensures out.Toggled? ==>
        var k := IndexOfUser(old(users), id).value;
        && users == ToggleActive(old(users), k)
        && out == Toggled(users[k].isActive, ToggleMessage(users[k].isActive))
    {
      var k := IndexOfUser(users, id);
      if k.None? {
        return UserNotFound;
      }
      users := ToggleActive(users, k.value);
      var isActive := users[k.value].isActive;
      out := Toggled(isActive, ToggleMessage(isActive));
    }
  }
}
