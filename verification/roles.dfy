/** The two role representations of the server, kept apart: the role tag a
    token carries (`'admin' | 'user'`) and the numeric `role_id` column the
    controllers read and write, with the explicit mappings between them. */
module Roles {
  import opened Js
  import opened Options

  /** The role tag carried in a token payload and attached to a request. */
  datatype Role = Admin | User

  /** The string form of a role tag, as written into a token. */
  function RoleName(r: Role): (s: string)
    ensures ParseRole(Str(s)) == Some(r)
  {
    match r
    case Admin => "admin"
    case User => "user"
  }

  /** Reads a role tag from a JavaScript value: only the exact strings
      `'admin'` and `'user'` are roles. */
  function ParseRole(v: JsVal): (r: Option<Role>)
    ensures r.Some? <==> v == Str("admin") || v == Str("user")
    ensures r == Some(Admin) <==> v == Str("admin")
  {
    if v == Str("admin") then Some(Admin)
    else if v == Str("user") then Some(User)
    else None
  }

  /** A parsed role is exactly the tag it was read from. */
  lemma ParseRoleExact(v: JsVal)
    requires ParseRole(v).Some?
    ensures v == Str(RoleName(ParseRole(v).value))
  {
  }

  /** The numeric `role_id` of the users table. */
  newtype RoleId = int

  const AdminRoleId: RoleId := 1
  const UserRoleId: RoleId := 2

  /** The role a login issues for a stored `role_id`: 1 is admin, every
      other value (2, a missing role, anything unexpected) is user. */
  function RoleOfId(id: RoleId): (r: Role)
    ensures r == Admin <==> id == AdminRoleId
  {
    if id == AdminRoleId then Admin else User
  }

  /** The canonical `role_id` of a role tag. */
  function IdOfRole(r: Role): (id: RoleId)
    ensures RoleOfId(id) == r
    ensures id == AdminRoleId || id == UserRoleId
  {
    match r
    case Admin => AdminRoleId
    case User => UserRoleId
  }

  /** `role === 'admin' ? 1 : 2`, the mapping the admin user handlers apply to
      a role taken from a request body: anything other than `'admin'`,
      including an unknown role string, is stored as a plain user. */
  function IdOfRoleValue(v: JsVal): (id: RoleId)
    ensures id == AdminRoleId <==> v == Str("admin")
    ensures id == AdminRoleId || id == UserRoleId
    ensures ParseRole(v).Some? ==> id == IdOfRole(ParseRole(v).value)
  {
    if v == Str("admin") then AdminRoleId else UserRoleId
  }

  /** The `role` filter of the user listing: `'admin'` selects role_id 1,
      `'user'` role_id 2, any other value filters nothing. */
  function RoleFilter(v: JsVal): (f: Option<RoleId>)
    ensures f.Some? <==> ParseRole(v).Some?
    ensures f.Some? ==> f.value == IdOfRole(ParseRole(v).value)
  {
    if v == Str("admin") then Some(AdminRoleId)
    else if v == Str("user") then Some(UserRoleId)
    else None
  }

  /** Storing a role taken from a request and logging in again yields admin
      exactly for the string `'admin'`. */
  lemma StoredRoleRoundTrip(v: JsVal)
    ensures RoleOfId(IdOfRoleValue(v)) == Admin <==> v == Str("admin")
    ensures ParseRole(v).Some? ==> RoleOfId(IdOfRoleValue(v)) == ParseRole(v).value
  {
  }
}
