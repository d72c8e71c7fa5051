/**
 * The user record. The User schema file is not part of this model; its fields
 * are the ones the controllers read and write.
 */
module Users {
  import opened Wrappers

  datatype Role = Staff | Admin

  function RoleName(r: Role): string
  {
    match r
    case Staff => "staff"
    case Admin => "admin"
  }

  /** The role a registration form names; only the two exact names are roles. */
  function ParseRole(s: string): (r: Option<Role>)
    ensures r.Some? ==> RoleName(r.value) == s
    ensures r.None? <==> forall role: Role :: RoleName(role) != s
  {
    if s == "staff" then Some(Staff) else if s == "admin" then Some(Admin) else None
  }

  /** Parsing a role's own name gives that role back. */
  lemma ParseRoleName(role: Role)
    ensures ParseRole(RoleName(role)) == Some(role)
  {
  }

  /** A stored user. `password` is the submitted secret; its hashing is not modelled. */
  datatype User = User(
    id: nat,
    name: string,
    employeeId: string,
    email: string,
    password: string,
    role: Role,
    highway: string,
    phone: string,
    isActive: bool,
    createdAt: int)

  /** A user as `select("-password")` returns it: every field but the password. */
  datatype PublicUser = PublicUser(
    id: nat,
    name: string,
    employeeId: string,
    email: string,
    role: Role,
    highway: string,
    phone: string,
    isActive: bool,
    createdAt: int)

  function Public(u: User): PublicUser
  {
    PublicUser(u.id, u.name, u.employeeId, u.email, u.role, u.highway, u.phone, u.isActive, u.createdAt)
  }

  /** The `data` object of a successful registration or login (the signed token is not modelled). */
  datatype Profile = Profile(
    id: nat,
    name: string,
    employeeId: string,
    email: string,
    role: Role,
    highway: string,
    phone: string)

  function ProfileOf(u: User): Profile
  {
    Profile(u.id, u.name, u.employeeId, u.email, u.role, u.highway, u.phone)
  }
}
