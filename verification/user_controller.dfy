/** The admin user-management handlers, the public profile with its posts
    pagination, and the avatar initial. */
module UserController {
  import opened Js
  import opened Options
  import opened Roles
  import opened Http
  import opened Tokens
  import opened Users
  import opened Middleware
  import D = Discoveries

  const AdminsOnly := "Solo administradores"
  const UnknownUser := "Usuario no encontrado"
  const MissingUserFields := "email, username y password son obligatorios"
  const UserInUse := "Email o username ya en uso"
  const CannotDeleteSelf := "No puedes eliminar tu propia cuenta"
  const BadRoleValue := "role debe ser admin|user"
  const CannotDemoteSelf := "No puedes degradarte a ti mismo"

  // ---------------------------------------------------------------------
  // The admin check

  /** `ensureAdmin`: the handler goes on only for an admin principal; an
      absent principal and a plain user are both refused with 403. */
  function EnsureAdmin(user: Option<Principal>): (allowed: bool)
    ensures allowed ==> user.Some? && user.value.role == Admin
    ensures !allowed ==> user.None? || user.value.role == User
  {
    user.Some? && user.value.role == Admin
  }

  /** The handler-level check agrees with the `checkRole(['admin'])` guard
      that precedes these handlers on every mounted route. */
  lemma EnsureAdminMatchesCheckRole(ctx: Ctx)
    ensures EnsureAdmin(ctx.user) <==> CheckRole([Admin], ctx).Next?
  {
  }

  // ---------------------------------------------------------------------
  // JavaScript arithmetic on the pagination numbers

  /** `a - 1` */
  function MinusOne(a: Number): (r: Number)
    ensures a.Finite? <==> r.Finite?
    ensures a.Finite? ==> r.v + 1 == a.v
  {
    match a
    case Finite(v) => Finite(v - 1)
    case _ => a
  }

  /** `a * b`: NaN absorbs, an infinity times zero is NaN, and otherwise an
      infinity keeps the sign of the product. */
  function Times(a: Number, b: Number): (r: Number)
    ensures a.Finite? && b.Finite? <==> r.Finite?
    ensures r.Finite? ==> r.v == a.v * b.v
  {
    if a.NaN? || b.NaN? then NaN
    else if a.Finite? && b.Finite? then Finite(a.v * b.v)
    else if a == Finite(0) || b == Finite(0) then NaN
    else if Positive(a) == Positive(b) then PosInf else NegInf
  }

  predicate Positive(a: Number)
    requires !a.NaN?
  {
    a == PosInf || (a.Finite? && a.v > 0)
  }

  /** `Math.ceil(count / limit)` for a row count. */
  function CeilDiv(count: nat, limit: Number): (r: Number)
    ensures limit.Finite? && limit.v > 0 ==> r.Finite? && r.v >= 0
    ensures limit.Finite? && limit.v > 0 ==> count <= r.v * limit.v && (r.v == 0 || (r.v - 1) * limit.v < count)
  {
    match limit
    case NaN => NaN
    case Finite(l) =>
      if l > 0 then Finite((count + l - 1) / l)
      else if l < 0 then Finite(-(count / -l))
      else if count == 0 then NaN
      else PosInf
    case _ => Finite(0)
  }

  /** With a positive page size, `CeilDiv` is the least number of pages that
      holds every row: each row index falls on one of the pages, and one page
      fewer would not do. */
  lemma CeilDivLeastCover(count: nat, size: int, index: nat)
    requires size > 0 && index < count
    ensures var t := CeilDiv(count, Finite(size)).v;
      index / size < t && (t - 1) * size < count
  {
    var t := CeilDiv(count, Finite(size)).v;
    assert count <= t * size;
    DivBelow(index, size, t);
  }

  lemma DivBelow(index: nat, size: int, t: int)
    requires size > 0 && index < t * size
    ensures index / size < t
  {
    var q := index / size;
    assert q * size <= index;
    if q >= t {
      MulMonotone(q, t, size);
      assert false;
    }
  }

  lemma MulMonotone(a: int, b: int, c: int)
    requires a >= b && c > 0
    ensures a * c >= b * c
  {
    assert a * c - b * c == (a - b) * c;
  }

  // ---------------------------------------------------------------------
  // Listing users

  datatype SortDir = Asc | Desc

  /** `String(dir).toUpperCase() === 'ASC' ? 'ASC' : 'DESC'` */
  function Direction(dir: JsVal): (d: SortDir)
    ensures d == Asc <==> Upper(ToStr(dir)) == "ASC"
  {
    if Upper(ToStr(dir)) == "ASC" then Asc else Desc
  }

  /** A lower-case `asc` sorts ascending, like the upper-case form. */
  lemma DirectionIgnoresCase()
    ensures Direction(Str("asc")) == Asc && Direction(Str("ASC")) == Asc
    ensures Direction(Undefined) == Desc
  {
    assert Upper("asc") == "ASC";
    assert Upper("ASC") == "ASC";
    assert Upper("undefined")[0] == 'U';
  }

  /** `active === 'true'` and `active === 'false'` filter on the flag; any
      other value does not filter. */
  function ActiveFilter(v: JsVal): (f: Option<bool>)
    ensures f == Some(true) <==> v == Str("true")
    ensures f == Some(false) <==> v == Str("false")
  {
    if v == Str("true") then Some(true) else if v == Str("false") then Some(false) else None
  }

  /** A destructuring default: only `undefined` takes it. */
  function Default(v: JsVal, d: JsVal): (r: JsVal)
    ensures v.Undefined? ==> r == d
    ensures !v.Undefined? ==> r == v
  {
    if v.Undefined? then d else v
  }

  /** The query `listUsers` sends and the pagination it answers with. The
      text search and the rows themselves belong to the database; `total`
      is the count it reports. */
  datatype UserListing = UserListing(
    role: Option<RoleId>,
    active: Option<bool>,
    sortColumn: string,
    dir: SortDir,
    limit: Number,
    offset: Number,
    page: Number,
    total: nat,
    totalPages: Number)

  /** `listUsers`: admin only; the page defaults to 1 and the page size to
      20; `offset = (page - 1) * pageSize`, `limit = pageSize` and
      `totalPages = ceil(total / limit)`, all in JavaScript arithmetic. */
  function ListUsers(user: Option<Principal>, query: Body, total: nat): (r: Reply<UserListing>)
    ensures !EnsureAdmin(user) ==> r == Err(403, AdminsOnly)
    ensures EnsureAdmin(user) ==> r.Ok? && r.status == 200
    ensures r.Ok? ==>
      var page := ToNumber(Default(Field(query, "page"), Num(Finite(1))));
      var size := ToNumber(Default(Field(query, "pageSize"), Num(Finite(20))));
      && r.value.role == RoleFilter(Field(query, "role"))
      && r.value.active == ActiveFilter(Field(query, "active"))
      && r.value.dir == Direction(Default(Field(query, "dir"), Str("DESC")))
      && r.value.page == page && r.value.limit == size && r.value.total == total
      && (page.Finite? && size.Finite? ==> r.value.offset == Finite((page.v - 1) * size.v))
      && (size.Finite? && size.v > 0 ==>
            && r.value.totalPages.Finite? && r.value.totalPages.v >= 0
            && total <= r.value.totalPages.v * size.v
            && (r.value.totalPages.v == 0 || (r.value.totalPages.v - 1) * size.v < total))
  {
    if !EnsureAdmin(user) then Err(403, AdminsOnly)
    else
      var page := ToNumber(Default(Field(query, "page"), Num(Finite(1))));
      var size := ToNumber(Default(Field(query, "pageSize"), Num(Finite(20))));
      Ok(200, UserListing(
        RoleFilter(Field(query, "role")),
        ActiveFilter(Field(query, "active")),
        ToStr(Default(Field(query, "sort"), Str("created_at"))),
        Direction(Default(Field(query, "dir"), Str("DESC"))),
        size,
        Times(MinusOne(page), size),
        page,
        total,
        CeilDiv(total, size)))
  }

  /** Without paging parameters the listing starts at row 0 with 20 rows per
      page, newest first. */
  lemma ListUsersDefaults(user: Option<Principal>, total: nat)
    requires EnsureAdmin(user)
    ensures var r := ListUsers(user, map[], total);
      r.Ok? && r.value.offset == Finite(0) && r.value.limit == Finite(20) && r.value.dir == Desc
      && r.value.role.None? && r.value.active.None?
  {
    var r := ListUsers(user, map[], total);
    assert Field(map[], "dir") == Undefined;
    assert Upper("DESC")[0] == 'D';
  }

  // ---------------------------------------------------------------------
  // Reading, creating and updating users

  /** `getUser`: admin only; then the row or 404. */
  function GetUser(store: Store, user: Option<Principal>, id: JsVal): (r: Reply<UserRow>)
    ensures !EnsureAdmin(user) ==> r == Err(403, AdminsOnly)
    ensures EnsureAdmin(user) && FindByPk(store, id).None? ==> r == Err(404, UnknownUser)
    ensures r.Ok? <==> EnsureAdmin(user) && FindByPk(store, id).Some?
    ensures r.Ok? ==> r.value == FindByPk(store, id).value
  {
    if !EnsureAdmin(user) then Err(403, AdminsOnly)
    else match FindByPk(store, id)
      case None => Err(404, UnknownUser)
      case Some(row) => Ok(200, row)
  }

  /** The crypto oracle of the user handlers: `bcrypt.hash`. */
  type Hasher = string -> string

  /** The row `createUser` adds. A new account is active. */
  function CreatedRow(id: int, body: Body, hash: Hasher): (row: UserRow)
    ensures row.id == id && row.isActive
    ensures row.email == ToStr(Field(body, "email")) && row.username == ToStr(Field(body, "username"))
    ensures row.passwordHash == hash(ToStr(Field(body, "password")))
    ensures row.roleId == AdminRoleId <==> Field(body, "role") == Str("admin")
  {
    UserRow(id, ToStr(Field(body, "email")), ToStr(Field(body, "username")),
            hash(ToStr(Field(body, "password"))), OptionalColumn(Field(body, "display_name")),
            IdOfRoleValue(Field(body, "role")), true)
  }

  /** Some row already holds the e-mail or the username. */
  predicate Duplicate(store: Store, email: string, username: string) {
    exists k :: k in store && (store[k].email == email || store[k].username == username)
  }

  /** `createUser`: admin only; missing fields 400; a used e-mail or
      username 409 with the table unchanged; a non-string password makes
      `bcrypt.hash` reject, and with no `try` the exception escapes before
      anything is stored; otherwise the new row, whose `role_id` is 1
      exactly for `'admin'`. */
  function CreateUser(store: Store, user: Option<Principal>, body: Body, hash: Hasher, newId: int): (e: Effect<Store, UserRow>)
    requires Wf(store) && newId !in store
    ensures Wf(e.store)
    ensures !EnsureAdmin(user) ==> e == Effect(store, Err(403, AdminsOnly))
    ensures EnsureAdmin(user) && !(Truthy(Field(body, "email")) && Truthy(Field(body, "username")) && Truthy(Field(body, "password")))
      ==> e == Effect(store, Err(400, MissingUserFields))
    ensures e.reply == Err(409, UserInUse) <==>
      && EnsureAdmin(user) && e.store == store
      && Truthy(Field(body, "email")) && Truthy(Field(body, "username")) && Truthy(Field(body, "password"))
      && Duplicate(store, ToStr(Field(body, "email")), ToStr(Field(body, "username")))
    ensures e.reply.Unhandled? <==>
      && EnsureAdmin(user)
      && Truthy(Field(body, "email")) && Truthy(Field(body, "username")) && Truthy(Field(body, "password"))
      && !Duplicate(store, ToStr(Field(body, "email")), ToStr(Field(body, "username")))
      && !BcryptAccepts(Field(body, "password"))
    ensures e.reply.Ok? <==>
      && EnsureAdmin(user)
      && Truthy(Field(body, "email")) && Truthy(Field(body, "username")) && Truthy(Field(body, "password"))
      && !Duplicate(store, ToStr(Field(body, "email")), ToStr(Field(body, "username")))
      && BcryptAccepts(Field(body, "password"))
    ensures e.reply.Ok? ==> e.reply == Ok(201, CreatedRow(newId, body, hash)) && e.store == store[newId := e.reply.value]
    ensures !e.reply.Ok? ==> e.store == store
  {
    var email, username, password := Field(body, "email"), Field(body, "username"), Field(body, "password");
    if !EnsureAdmin(user) then Effect(store, Err(403, AdminsOnly))
    else if !Truthy(email) || !Truthy(username) || !Truthy(password) then Effect(store, Err(400, MissingUserFields))
    else if Duplicate(store, ToStr(email), ToStr(username)) then Effect(store, Err(409, UserInUse))
    else if !BcryptAccepts(password) then Effect(store, Unhandled)
    else
      var row := CreatedRow(newId, body, hash);
      InsertPreservesWf(store, row);
      Effect(store[newId := row], Ok(201, row))
  }

  /** The row `updateUser` saves: e-mail, username, password and role change
      only when the body's value is truthy, the display name whenever it is
      not `undefined`, and the active flag becomes `Boolean(is_active)`
      whenever it is not `undefined`. `UpdateUser` saves it only when a
      truthy password is a string, the only kind `bcrypt.hash` accepts. */
  function UpdatedRow(row: UserRow, body: Body, hash: Hasher): (r: UserRow)
    ensures r.id == row.id
    ensures r.email == if Truthy(Field(body, "email")) then ToStr(Field(body, "email")) else row.email
    ensures r.username == if Truthy(Field(body, "username")) then ToStr(Field(body, "username")) else row.username
    ensures r.passwordHash != row.passwordHash ==> Truthy(Field(body, "password"))
    ensures Truthy(Field(body, "password")) ==> r.passwordHash == hash(ToStr(Field(body, "password")))
    ensures r.displayName == if Field(body, "display_name").Undefined? then row.displayName else OptionalColumn(Field(body, "display_name"))
    ensures r.isActive == if Field(body, "is_active").Undefined? then row.isActive else Truthy(Field(body, "is_active"))
    ensures r.roleId == if Truthy(Field(body, "role")) then IdOfRoleValue(Field(body, "role")) else row.roleId
  {
    var email, username, password := Field(body, "email"), Field(body, "username"), Field(body, "password");
    var name, active, role := Field(body, "display_name"), Field(body, "is_active"), Field(body, "role");
    row.(email := if Truthy(email) then ToStr(email) else row.email,
         username := if Truthy(username) then ToStr(username) else row.username,
         displayName := if name.Undefined? then row.displayName else OptionalColumn(name),
         isActive := if active.Undefined? then row.isActive else Truthy(active),
         passwordHash := if Truthy(password) then hash(ToStr(password)) else row.passwordHash,
         roleId := if Truthy(role) then IdOfRoleValue(role) else row.roleId)
  }

  /** `if (password) bcrypt.hash(password)` rejects: the password is truthy
      but not a string. */
  predicate HashRejects(password: JsVal) {
    Truthy(password) && !BcryptAccepts(password)
  }

  /** Another row already holds the e-mail or username a save would write. */
  predicate Collides(store: Store, row: UserRow) {
    exists j :: j in store && j != row.id && (store[j].email == row.email || store[j].username == row.username)
  }

  /** `updateUser`: admin only; 404 for an unknown id; otherwise the merged
      row is saved. A truthy non-string password makes `bcrypt.hash`
      reject, and a save that would break the e-mail or username uniqueness
      throws; either exception escapes the handler, leaving the table
      unchanged. */
  function UpdateUser(store: Store, user: Option<Principal>, id: JsVal, body: Body, hash: Hasher): (e: Effect<Store, UserRow>)
    requires Wf(store)
    ensures Wf(e.store)
    ensures !EnsureAdmin(user) ==> e == Effect(store, Err(403, AdminsOnly))
    ensures EnsureAdmin(user) && FindByPk(store, id).None? ==> e == Effect(store, Err(404, UnknownUser))
    ensures e.reply.Unhandled? <==>
      && EnsureAdmin(user) && FindByPk(store, id).Some?
      && (HashRejects(Field(body, "password")) || Collides(store, UpdatedRow(FindByPk(store, id).value, body, hash)))
    ensures e.reply.Ok? <==>
      && EnsureAdmin(user) && FindByPk(store, id).Some?
      && !HashRejects(Field(body, "password")) && !Collides(store, UpdatedRow(FindByPk(store, id).value, body, hash))
    ensures e.reply.Ok? ==>
      var row := FindByPk(store, id).value;
      && e.reply == Ok(200, UpdatedRow(row, body, hash))
      && e.store == store[row.id := e.reply.value]
    ensures !e.reply.Ok? ==> e.store == store
  {
    if !EnsureAdmin(user) then Effect(store, Err(403, AdminsOnly))
    else match FindByPk(store, id)
      case None => Effect(store, Err(404, UnknownUser))
      case Some(row) =>
        var updated := UpdatedRow(row, body, hash);
        if HashRejects(Field(body, "password")) || Collides(store, updated) then Effect(store, Unhandled)
        else
          assert Wf(store[row.id := updated]) by {
            assert forall k :: k in store ==> store[k].id == k;
          }
          Effect(store[row.id := updated], Ok(200, updated))
  }

  /** An update with an empty body saves the row unchanged. */
  lemma UpdateUserEmptyBody(store: Store, user: Option<Principal>, id: JsVal, hash: Hasher)
    requires Wf(store) && EnsureAdmin(user) && FindByPk(store, id).Some?
    ensures UpdateUser(store, user, id, map[], hash) == Effect(store, Ok(200, FindByPk(store, id).value))
  {
    var row := FindByPk(store, id).value;
    assert UpdatedRow(row, map[], hash) == row;
    assert row.id in store && store[row.id] == row;
    assert !Collides(store, row);
    assert store[row.id := row] == store;
  }

  // ---------------------------------------------------------------------
  // Deleting a user and changing a role: the self-protection guards

  /** The self check as written: `String(req.user?.sub) === String(id)`. */
  predicate SelfTargetAsWritten(sub: JsVal, id: JsVal) {
    ToStr(sub) == ToStr(id)
  }

  /** The self check as intended: the id param names the caller's own row,
      read the way the lookup reads it, `Number(id)`. */
  predicate SelfTarget(sub: JsVal, id: JsVal) {
    ToNumber(sub).Finite? && ToNumber(sub) == ToNumber(id)
  }

  /** For the principals the server's own tokens produce and an id written
      in its canonical form, the two checks agree. */
  lemma SelfTargetOnPrintedIds(me: int, target: int)
    ensures SelfTargetAsWritten(Str(IntToString(me)), Str(IntToString(target)))
        <==> SelfTarget(Str(IntToString(me)), Str(IntToString(target)))
  {
    StringToNumberOfIntToString(me);
    StringToNumberOfIntToString(target);
    assert ToNumber(Str(IntToString(me))) == Finite(me);
    assert ToNumber(Str(IntToString(target))) == Finite(target);
    if me == target {
    } else if IntToString(me) == IntToString(target) {
      IntToStringInjective(me, target);
    }
  }

  /** The handler shape shared by both readings of `deleteUser`. */
  function DeleteUserWith(store: Store, user: Option<Principal>, id: JsVal, self: bool): (e: Effect<Store, ()>)
    requires Wf(store)
    ensures Wf(e.store)
    ensures !EnsureAdmin(user) ==> e == Effect(store, Err(403, AdminsOnly))
    ensures EnsureAdmin(user) && self ==> e == Effect(store, Err(400, CannotDeleteSelf))
    ensures e.reply.Ok? <==> EnsureAdmin(user) && !self && FindByPk(store, id).Some?
    ensures e.reply.Ok? ==> e.reply.status == 204 && e.store == store - {ToNumber(id).v}
    ensures !e.reply.Ok? ==> e.store == store
  {
    if !EnsureAdmin(user) then Effect(store, Err(403, AdminsOnly))
    else if self then Effect(store, Err(400, CannotDeleteSelf))
    else match FindByPk(store, id)
      case None => Effect(store, Err(404, UnknownUser))
      case Some(row) =>
        RemovePreservesWf(store, ToNumber(id).v);
        Effect(store - {ToNumber(id).v}, Ok(204, ()))
  }

  /** `deleteUser` as written: the self check compares the printed forms. */
  function DeleteUserAsWritten(store: Store, user: Option<Principal>, id: JsVal): (e: Effect<Store, ()>)
    requires Wf(store)
    ensures Wf(e.store)
    ensures EnsureAdmin(user) && SelfTargetAsWritten(user.value.sub, id) ==> e.reply == Err(400, CannotDeleteSelf)
    ensures e.reply.Ok? ==> ToNumber(id).Finite? && e.store == store - {ToNumber(id).v}
  {
    DeleteUserWith(store, user, id, EnsureAdmin(user) && SelfTargetAsWritten(user.value.sub, id))
  }

  /** As written, an admin whose token names row 7 deletes their own row by
      asking for id `07`: the printed forms differ, the numbers do not. */
  lemma DeleteUserAsWrittenDeletesSelf(store: Store, row: UserRow)
    requires Wf(store) && row.id == 7 && 7 in store && store[7] == row
    ensures var admin := Some(Principal(Str("7"), Admin));
      && DeleteUserAsWritten(store, admin, Str("07")).reply.Ok?
      && 7 !in DeleteUserAsWritten(store, admin, Str("07")).store
  {
    SevenWithLeadingZero();
    assert ToStr(Str("7")) != ToStr(Str("07"));
  }

  /** `Number("07")` is 7. */
  lemma SevenWithLeadingZero()
    ensures ToNumber(Str("07")) == Finite(7)
  {
    var s := "07";
    TrimOfTrimmed(s);
    SevenDigits();
    assert NumericLiteral(s) == Finite(7);
  }

  lemma SevenDigits()
    ensures AllDigits("07") && DigitsValue("07") == 7
  {
    var s := "07";
    assert s[..1] == "0" && s[..1][..0] == [];
    assert DigitsValue(s[..1]) == 0;
  }

  /** `deleteUser` with the intended self check, which compares the
      numbers the lookup uses. */
  function DeleteUser(store: Store, user: Option<Principal>, id: JsVal): (e: Effect<Store, ()>)
    requires Wf(store)
    ensures Wf(e.store)
    ensures !EnsureAdmin(user) ==> e == Effect(store, Err(403, AdminsOnly))
    ensures EnsureAdmin(user) && SelfTarget(user.value.sub, id) ==> e == Effect(store, Err(400, CannotDeleteSelf))
    ensures e.reply.Ok? ==> ToNumber(id).Finite? && e.reply.status == 204 && e.store == store - {ToNumber(id).v}
    ensures !e.reply.Ok? ==> e.store == store
  {
    DeleteUserWith(store, user, id, EnsureAdmin(user) && SelfTarget(user.value.sub, id))
  }

  /** With the intended check, an admin's own row (the one their subject
      names) survives every delete they make. */
  lemma DeleteUserKeepsOwnRow(store: Store, user: Option<Principal>, id: JsVal)
    requires Wf(store) && user.Some? && ToNumber(user.value.sub).Finite?
    requires ToNumber(user.value.sub).v in store
    ensures ToNumber(user.value.sub).v in DeleteUser(store, user, id).store
  {
  }

  /** The outcome of `setUserRole`: the id and the role string. */
  datatype RoleChange = RoleChange(id: int, role: Role)

  function SetUserRoleWith(store: Store, user: Option<Principal>, id: JsVal, body: Body, self: bool): (e: Effect<Store, RoleChange>)
    requires Wf(store)
    ensures Wf(e.store)
    ensures !EnsureAdmin(user) ==> e == Effect(store, Err(403, AdminsOnly))
    ensures EnsureAdmin(user) && ParseRole(Field(body, "role")).None? ==> e == Effect(store, Err(400, BadRoleValue))
    ensures EnsureAdmin(user) && self && Field(body, "role") == Str("user") ==> e == Effect(store, Err(400, CannotDemoteSelf))
    ensures e.reply.Ok? <==>
      EnsureAdmin(user) && ParseRole(Field(body, "role")).Some? && !(self && Field(body, "role") == Str("user"))
      && FindByPk(store, id).Some?
    ensures e.reply.Ok? ==>
      var k := ToNumber(id).v;
      && e.reply.value == RoleChange(k, ParseRole(Field(body, "role")).value)
      && e.store == store[k := store[k].(roleId := IdOfRoleValue(Field(body, "role")))]
      && RoleOfId(e.store[k].roleId) == e.reply.value.role
    ensures !e.reply.Ok? ==> e.store == store
  {
    var role := Field(body, "role");
    if !EnsureAdmin(user) then Effect(store, Err(403, AdminsOnly))
    else if ParseRole(role).None? then Effect(store, Err(400, BadRoleValue))
    else if self && role == Str("user") then Effect(store, Err(400, CannotDemoteSelf))
    else match FindByPk(store, id)
      case None => Effect(store, Err(404, UnknownUser))
      case Some(row) =>
        var k := ToNumber(id).v;
        var updated := row.(roleId := IdOfRoleValue(role));
        ReplacePreservesWf(store, updated);
        Effect(store[k := updated], Ok(200, RoleChange(k, ParseRole(role).value)))
  }

  /** `setUserRole` as written: the self check compares printed forms. */
  function SetUserRoleAsWritten(store: Store, user: Option<Principal>, id: JsVal, body: Body): (e: Effect<Store, RoleChange>)
    requires Wf(store)
    ensures Wf(e.store)
    ensures EnsureAdmin(user) && SelfTargetAsWritten(user.value.sub, id) && Field(body, "role") == Str("user")
      ==> e.reply == Err(400, CannotDemoteSelf)
  {
    SetUserRoleWith(store, user, id, body, EnsureAdmin(user) && SelfTargetAsWritten(user.value.sub, id))
  }

  /** As written, an admin whose token names row 7 demotes themself by
      asking for id `07`. */
  lemma SetUserRoleAsWrittenDemotesSelf(store: Store, row: UserRow)
    requires Wf(store) && row.id == 7 && 7 in store && store[7] == row
    ensures var admin := Some(Principal(Str("7"), Admin));
      var e := SetUserRoleAsWritten(store, admin, Str("07"), map["role" := Str("user")]);
      e.reply.Ok? && RoleOfId(e.store[7].roleId) == User
  {
    SevenWithLeadingZero();
    assert ToStr(Str("7")) != ToStr(Str("07"));
    assert Field(map["role" := Str("user")], "role") == Str("user");
  }

  /** `setUserRole` with the intended self check. */
  function SetUserRole(store: Store, user: Option<Principal>, id: JsVal, body: Body): (e: Effect<Store, RoleChange>)
    requires Wf(store)
    ensures Wf(e.store)
    ensures !EnsureAdmin(user) ==> e == Effect(store, Err(403, AdminsOnly))
    ensures EnsureAdmin(user) && ParseRole(Field(body, "role")).None? ==> e == Effect(store, Err(400, BadRoleValue))
    ensures EnsureAdmin(user) && SelfTarget(user.value.sub, id) && Field(body, "role") == Str("user")
      ==> e == Effect(store, Err(400, CannotDemoteSelf))
    ensures e.reply.Ok? ==> e.reply.value.id in e.store && RoleOfId(e.store[e.reply.value.id].roleId) == e.reply.value.role
  {
    SetUserRoleWith(store, user, id, body, EnsureAdmin(user) && SelfTarget(user.value.sub, id))
  }

  /** With the intended check, an admin never loses the admin role on their
      own row through this handler. */
  lemma SetUserRoleKeepsOwnAdmin(store: Store, user: Option<Principal>, id: JsVal, body: Body)
    requires Wf(store) && user.Some? && ToNumber(user.value.sub).Finite?
    requires var me := ToNumber(user.value.sub).v; me in store && store[me].roleId == AdminRoleId
    ensures var me := ToNumber(user.value.sub).v;
      me in SetUserRole(store, user, id, body).store && SetUserRole(store, user, id, body).store[me].roleId == AdminRoleId
  {
  }

  /** `toggleActive`: admin only; 404 for an unknown id; otherwise the flag
      becomes `Boolean(is_active)` and nothing else changes. */
  function ToggleActive(store: Store, user: Option<Principal>, id: JsVal, body: Body): (e: Effect<Store, (int, bool)>)
    requires Wf(store)
    ensures Wf(e.store)
    ensures !EnsureAdmin(user) ==> e == Effect(store, Err(403, AdminsOnly))
    ensures e.reply.Ok? <==> EnsureAdmin(user) && FindByPk(store, id).Some?
    ensures e.reply.Ok? ==>
      var k := ToNumber(id).v;
      && e.reply.value == (k, Truthy(Field(body, "is_active")))
      && e.store == store[k := store[k].(isActive := Truthy(Field(body, "is_active")))]
    ensures !e.reply.Ok? ==> e.store == store
  {
    if !EnsureAdmin(user) then Effect(store, Err(403, AdminsOnly))
    else match FindByPk(store, id)
      case None => Effect(store, Err(404, UnknownUser))
      case Some(row) =>
        var k := ToNumber(id).v;
        var active := Truthy(Field(body, "is_active"));
        ReplacePreservesWf(store, row.(isActive := active));
        Effect(store[k := row.(isActive := active)], Ok(200, (k, active)))
  }

  // ---------------------------------------------------------------------
  // The public profile

  /** `Math.max(1, Number(page) || 1)`: at least 1, possibly infinite. */
  function ProfilePage(v: JsVal): (p: Number)
    ensures p == PosInf || (p.Finite? && p.v >= 1)
    ensures !Truthy(Num(ToNumber(v))) ==> p == Finite(1)
    ensures ToNumber(v).Finite? && ToNumber(v).v >= 1 ==> p == ToNumber(v)
  {
    var n := ToNumber(v);
    match n
    case Finite(x) => if x >= 1 then n else Finite(1)
    case PosInf => PosInf
    case _ => Finite(1)
  }

  /** `Math.min(50, Math.max(1, Number(limit) || 10))`: always 1..50, 10
      when the parameter is absent, zero or not a number, 1 for any
      negative number (`-Infinity` included, which is truthy) and 50 above
      fifty. */
  function ProfileLimit(v: JsVal): (l: int)
    ensures 1 <= l <= 50
    ensures !Truthy(Num(ToNumber(v))) ==> l == 10
    ensures ToNumber(v).Finite? && 1 <= ToNumber(v).v <= 50 ==> l == ToNumber(v).v
    ensures ToNumber(v) == NegInf || (ToNumber(v).Finite? && ToNumber(v).v < 0) ==> l == 1
    ensures ToNumber(v) == PosInf || (ToNumber(v).Finite? && ToNumber(v).v > 50) ==> l == 50
  {
    match ToNumber(v)
    case Finite(x) => if x == 0 then 10 else if x < 1 then 1 else if x > 50 then 50 else x
    case PosInf => 50
    case NegInf => 1
    case NaN => 10
  }

  /** The user fields a profile shows: never the password hash. */
  datatype PublicUser = PublicUser(id: int, email: string, username: string, displayName: Option<string>)

  datatype ProfilePagination = ProfilePagination(page: Number, limit: int, offset: Number, total: nat, totalPages: int)

  /** The profile answer: the user, the ids of the posts the query selects
      (the rows of one page and their order belong to the database), and the
      pagination when posts were asked for. */
  datatype Profile = Profile(user: PublicUser, posts: set<int>, pagination: Option<ProfilePagination>)

  /** The posts a profile lists: the user's own, only the published ones
      unless the status parameter is exactly `'all'`. */
  function ProfilePosts(posts: D.Store, author: int, status: JsVal): (ids: set<int>)
    ensures forall k :: k in ids <==> k in posts && posts[k].authorId == author
                                      && (status == Str("all") || posts[k].status == D.Published)
  {
    set k | k in posts && posts[k].authorId == author && (status == Str("all") || posts[k].status == D.Published)
  }

  /** `getUserProfile`: 404 for an unknown user; posts and pagination only
      when `includePosts` reads `'true'`; the page is at least 1, the limit
      1..50, `offset = (page - 1) * limit` and `totalPages` is at least 1
      and the least page count that holds every post. */
  function GetUserProfile(users: Store, posts: D.Store, id: JsVal, query: Body): (r: Reply<Profile>)
    ensures r.Err? <==> FindByPk(users, id).None?
    ensures r.Err? ==> r == Err(404, UnknownUser)
    ensures r.Ok? ==>
      var row := FindByPk(users, id).value;
      && r.value.user == PublicUser(row.id, row.email, row.username, row.displayName)
      && (r.value.pagination.Some? <==> ToStr(Coalesce(Field(query, "includePosts"), Str("false"))) == "true")
      && (r.value.pagination.None? ==> r.value.posts == {})
      && (r.value.pagination.Some? ==>
            var p := r.value.pagination.value;
            && r.value.posts == ProfilePosts(posts, row.id, OrElse(Field(query, "status"), Str("published")))
            && p.total == |r.value.posts|
            && p.page == ProfilePage(Field(query, "page"))
            && p.limit == ProfileLimit(Field(query, "limit"))
            && (p.page == PosInf || (p.page.Finite? && p.page.v >= 1))
            && 1 <= p.limit <= 50
            && (p.page.Finite? ==> p.offset == Finite((p.page.v - 1) * p.limit))
            && p.totalPages >= 1
            && p.total <= p.totalPages * p.limit
            && (p.totalPages == 1 || (p.totalPages - 1) * p.limit < p.total))
  {
    match FindByPk(users, id)
    case None => Err(404, UnknownUser)
    case Some(row) =>
      var shown := PublicUser(row.id, row.email, row.username, row.displayName);
      if ToStr(Coalesce(Field(query, "includePosts"), Str("false"))) != "true" then
        Ok(200, Profile(shown, {}, None))
      else
        var page := ProfilePage(Field(query, "page"));
        var limit := ProfileLimit(Field(query, "limit"));
        var ids := ProfilePosts(posts, row.id, OrElse(Field(query, "status"), Str("published")));
        var pages := CeilDiv(|ids|, Finite(limit)).v;
        var totalPages := if pages < 1 then 1 else pages;
        Ok(200, Profile(shown, ids, Some(ProfilePagination(page, limit, Times(MinusOne(page), Finite(limit)), |ids|, totalPages))))
  }

  // ---------------------------------------------------------------------
  // The avatar

  /** The avatar letter: the first character of the username, upper-cased,
      or `U` when there is no such user or the username is empty. */
  function AvatarInitial(user: Option<UserRow>): (initial: string)
    ensures |initial| == 1
    ensures user.None? || user.value.username == "" ==> initial == "U"
    ensures user.Some? && user.value.username != "" ==> initial == [UpperChar(user.value.username[0])]
  {
    if user.Some? && user.value.username != "" then [UpperChar(user.value.username[0])] else "U"
  }

  /** `getUserAvatar` always answers with an image, even for an unknown
      id. */
  function GetUserAvatar(store: Store, id: JsVal): (r: Reply<string>)
    ensures r.Ok? && r.status == 200
    ensures r.value == AvatarInitial(FindByPk(store, id))
  {
    Ok(200, AvatarInitial(FindByPk(store, id)))
  }

  /** The avatar letter is never a lower-case ASCII letter, and a username
      that starts lower-case shows that letter upper-cased. */
  lemma AvatarInitialUpperCase(user: Option<UserRow>)
    ensures !('a' <= AvatarInitial(user)[0] <= 'z')
    ensures user.Some? && user.value.username != "" && 'a' <= user.value.username[0] <= 'z'
      ==> AvatarInitial(user)[0] as int == user.value.username[0] as int - 32
  {
  }
}
