/** The credential handlers: registration, login and promotion to admin,
    over the users table. Hashing, password comparison and token signing
    are oracles; the clock and the signing secret come from the
    environment. */
module AuthController {
  import opened Js
  import opened Options
  import opened Roles
  import opened Http
  import opened Tokens
  import opened Users
  import opened Middleware

  /** The foreign libraries: `bcrypt.hash`, `bcrypt.compare(plain, hash)`
      and `jwt.sign(claims, secret)`. */
  datatype Crypto = Crypto(
    hash: string -> string,
    compare: (string, string) -> bool,
    sign: (Claims, string) -> string)

  /** `process.env.JWT_SECRET` (absent or any string) and `Date.now()` in
      milliseconds. */
  datatype Env = Env(secret: Option<string>, nowMillis: int)

  /** The account summary the handlers answer with; registration leaves the
      role out. */
  datatype Account = Account(id: int, email: string, username: string, role: Option<Role>)

  datatype Session = Session(token: string, user: Account)

  const MissingRegisterFields := "Faltan campos: email, username y password"
  const MissingLoginFields := "Faltan campos: email y password"
  const EmailInUse := "Email en uso"
  const UsernameInUse := "Username en uso"
  const MissingSecret := "Falta JWT_SECRET"
  const BadCredentials := "Credenciales inválidas"
  const UnknownUser := "Usuario no encontrado"
  const InternalError := "Error interno del servidor"

  /** `!secret` is false: the secret is present and non-empty. */
  predicate HasSecret(env: Env) {
    env.secret.Some? && env.secret.value != ""
  }

  /** `Math.floor(Date.now() / 1000)`: the issue time in seconds. */
  function IssuedAt(env: Env): (iat: int)
    ensures iat * 1000 <= env.nowMillis < iat * 1000 + 1000
  {
    env.nowMillis / 1000
  }

  /** E-mail, username and password are all truthy. */
  predicate RegisterFieldsPresent(body: Body) {
    Truthy(Field(body, "email")) && Truthy(Field(body, "username")) && Truthy(Field(body, "password"))
  }

  /** The row `User.create` adds for a registration. */
  function RegisteredRow(id: int, body: Body, crypto: Crypto): (row: UserRow)
    ensures row.id == id && row.roleId == UserRoleId && row.isActive
    ensures row.email == ToStr(Field(body, "email")) && row.username == ToStr(Field(body, "username"))
    ensures row.passwordHash == crypto.hash(ToStr(Field(body, "password")))
  {
    UserRow(id, ToStr(Field(body, "email")), ToStr(Field(body, "username")),
            crypto.hash(ToStr(Field(body, "password"))), OptionalColumn(Field(body, "display_name")),
            UserRoleId, true)
  }

  /** `register`: missing fields (400), a used e-mail (409, checked first), a
      used username (409), then the password is hashed (a non-string
      password makes `bcrypt.hash` reject, and the catch answers 500 before
      anything is stored), then the row is created, and only then is the
      secret checked (500, with the row already stored). The token names the
      new id and the role `'user'`. `newId` is the id the table assigns. */
  function Register(store: Store, body: Body, crypto: Crypto, env: Env, newId: int): (e: Effect<Store, Session>)
    requires Wf(store) && newId !in store
    ensures Wf(e.store)
    ensures !RegisterFieldsPresent(body) ==> e == Effect(store, Err(400, MissingRegisterFields))
    ensures e.reply == Err(409, EmailInUse) <==>
      && e.store == store && RegisterFieldsPresent(body)
      && EmailTaken(store, ToStr(Field(body, "email")))
    ensures e.reply == Err(409, UsernameInUse) <==>
      && e.store == store && RegisterFieldsPresent(body)
      && !EmailTaken(store, ToStr(Field(body, "email"))) && UsernameTaken(store, ToStr(Field(body, "username")))
    ensures e.store != store <==> e.store == store[newId := RegisteredRow(newId, body, crypto)]
    ensures e.store != store && !HasSecret(env) ==> e.reply == Err(500, MissingSecret)
    ensures RegisterFieldsPresent(body) && !EmailTaken(store, ToStr(Field(body, "email")))
            && !UsernameTaken(store, ToStr(Field(body, "username"))) && !BcryptAccepts(Field(body, "password")) ==>
      e == Effect(store, Err(500, InternalError))
    ensures RegisterFieldsPresent(body) && !EmailTaken(store, ToStr(Field(body, "email")))
            && !UsernameTaken(store, ToStr(Field(body, "username"))) && BcryptAccepts(Field(body, "password")) ==>
      && e.store == store[newId := RegisteredRow(newId, body, crypto)]
      && (e.reply.Ok? <==> HasSecret(env))
      && (!HasSecret(env) ==> e.reply == Err(500, MissingSecret))
    ensures e.reply.Ok? ==>
      && e.store != store && e.reply.status == 201
      && e.reply.value.user == Account(newId, e.store[newId].email, e.store[newId].username, None)
      && e.reply.value.token == crypto.sign(Claims(IntToString(newId), User, IssuedAt(env)), env.secret.value)
  {
    var email, username := Field(body, "email"), Field(body, "username");
    if !RegisterFieldsPresent(body) then
      Effect(store, Err(400, MissingRegisterFields))
    else if EmailTaken(store, ToStr(email)) then
      Effect(store, Err(409, EmailInUse))
    else if UsernameTaken(store, ToStr(username)) then
      Effect(store, Err(409, UsernameInUse))
    else if !BcryptAccepts(Field(body, "password")) then
      Effect(store, Err(500, InternalError))
    else
      var row := RegisteredRow(newId, body, crypto);
      var stored := store[newId := row];
      InsertPreservesWf(store, row);
      assert stored != store by { assert newId in stored; }
      if !HasSecret(env) then
        Effect(stored, Err(500, MissingSecret))
      else
        var token := crypto.sign(Claims(IntToString(newId), User, IssuedAt(env)), env.secret.value);
        Effect(stored, Ok(201, Session(token, Account(newId, row.email, row.username, None))))
  }

  /** `String(email).toLowerCase().trim()`: the address login looks up. */
  function LoginEmail(email: JsVal): string {
    Trim(Lower(ToStr(email)))
  }

  /** Some row holds this e-mail and a hash the password matches. */
  predicate CredentialsMatch(store: Store, email: JsVal, password: JsVal, crypto: Crypto) {
    exists k :: k in store && store[k].email == LoginEmail(email) && crypto.compare(ToStr(password), store[k].passwordHash)
  }

  /** The role a token and a login answer carry for a row. */
  function RowRole(row: UserRow): Role {
    RoleOfId(row.roleId)
  }

  /** `login`: missing fields (400); an unknown e-mail and a wrong password
      give the same 401; for a known e-mail a non-string password makes
      `bcrypt.compare` reject, and the catch answers 500; a missing secret
      500; otherwise a token and an account carrying the same role, mapped
      from `role_id`. The table is never changed. */
  function Login(store: Store, body: Body, crypto: Crypto, env: Env): (r: Reply<Session>)
    requires Wf(store)
    ensures !Truthy(Field(body, "email")) || !Truthy(Field(body, "password")) ==> r == Err(400, MissingLoginFields)
    ensures r == Err(401, BadCredentials) <==>
      && Truthy(Field(body, "email")) && Truthy(Field(body, "password"))
      && (!EmailTaken(store, LoginEmail(Field(body, "email")))
          || (BcryptAccepts(Field(body, "password"))
              && !CredentialsMatch(store, Field(body, "email"), Field(body, "password"), crypto)))
    ensures r == Err(500, InternalError) <==>
      && Truthy(Field(body, "email")) && Truthy(Field(body, "password"))
      && EmailTaken(store, LoginEmail(Field(body, "email"))) && !BcryptAccepts(Field(body, "password"))
    ensures Truthy(Field(body, "email")) && Truthy(Field(body, "password")) && BcryptAccepts(Field(body, "password"))
            && CredentialsMatch(store, Field(body, "email"), Field(body, "password"), crypto) ==>
      && (r.Ok? <==> HasSecret(env))
      && (!HasSecret(env) ==> r == Err(500, MissingSecret))
    ensures r.Ok? ==>
      && HasSecret(env) && BcryptAccepts(Field(body, "password")) && r.status == 200 && r.value.user.id in store
      && var row := store[r.value.user.id];
        && row.email == LoginEmail(Field(body, "email"))
        && crypto.compare(ToStr(Field(body, "password")), row.passwordHash)
        && r.value.user == Account(row.id, row.email, row.username, Some(RowRole(row)))
        && r.value.token == crypto.sign(Claims(IntToString(row.id), RowRole(row), IssuedAt(env)), env.secret.value)
  {
    var email, password := Field(body, "email"), Field(body, "password");
    if !Truthy(email) || !Truthy(password) then
      Err(400, MissingLoginFields)
    else
      match FindByEmail(store, LoginEmail(email))
      case None => Err(401, BadCredentials)
      case Some(row) =>
        if !BcryptAccepts(password) then
          Err(500, InternalError)
        else if !crypto.compare(ToStr(password), row.passwordHash) then
          Err(401, BadCredentials)
        else if !HasSecret(env) then
          Err(500, MissingSecret)
        else
          var role := RowRole(row);
          var token := crypto.sign(Claims(IntToString(row.id), role, IssuedAt(env)), env.secret.value);
          Ok(200, Session(token, Account(row.id, row.email, row.username, Some(role))))
  }

  /** `promoteToAdmin`: 404 for an unknown id; otherwise only that row's
      `role_id` becomes 1. */
  function PromoteToAdmin(store: Store, id: JsVal): (e: Effect<Store, int>)
    ensures FindByPk(store, id).None? ==> e == Effect(store, Err(404, UnknownUser))
    ensures FindByPk(store, id).Some? ==>
      var k := ToNumber(id).v;
      && e.reply == Ok(200, store[k].id)
      && e.store.Keys == store.Keys
      && e.store[k] == store[k].(roleId := AdminRoleId)
      && RowRole(e.store[k]) == Admin
      && (forall j :: j in store && j != k ==> e.store[j] == store[j])
  {
    match FindByPk(store, id)
    case None => Effect(store, Err(404, UnknownUser))
    case Some(row) =>
      var k := ToNumber(id).v;
      Effect(store[k := row.(roleId := AdminRoleId)], Ok(200, row.id))
  }

  /** Promoting twice has the effect of promoting once. */
  lemma PromoteIdempotent(store: Store, id: JsVal)
    ensures PromoteToAdmin(PromoteToAdmin(store, id).store, id).store == PromoteToAdmin(store, id).store
  {
  }

  /** Promotion keeps the users table well formed. */
  lemma PromotePreservesWf(store: Store, id: JsVal)
    requires Wf(store)
    ensures Wf(PromoteToAdmin(store, id).store)
  {
    if FindByPk(store, id).Some? {
      var k := ToNumber(id).v;
      ReplacePreservesWf(store, store[k].(roleId := AdminRoleId));
    }
  }

  /** The token oracle round-trips: whatever the server signs with this
      secret, `verify` decodes to the signed claims, and no signed token is
      empty. */
  ghost predicate TokensRoundTrip(crypto: Crypto, verify: string -> Verified, secret: string) {
    forall c :: crypto.sign(c, secret) != "" && verify(crypto.sign(c, secret)) == DecodedClaims(c)
  }

  /** Matching credentials, with a non-empty string password and the secret
      set, log in, and the token, presented as `Bearer <token>`, passes
      `requireAuth` and attaches a principal whose subject is the row's id
      as a string and whose role is the row's mapped role. */
  lemma LoginTokenPassesRequireAuth(store: Store, body: Body, crypto: Crypto, env: Env, verify: string -> Verified)
    requires Wf(store) && HasSecret(env)
    requires Truthy(Field(body, "email")) && BcryptAccepts(Field(body, "password")) && Field(body, "password") != Str("")
    requires CredentialsMatch(store, Field(body, "email"), Field(body, "password"), crypto)
    requires TokensRoundTrip(crypto, verify, env.secret.value)
    ensures Login(store, body, crypto, env).Ok?
    ensures var s := Login(store, body, crypto, env).value;
      RequireAuth(Ctx(Some(BearerPrefix + s.token), None), verify)
        == Next(Ctx(Some(BearerPrefix + s.token), Some(Principal(Str(IntToString(s.user.id)), s.user.role.value))))
  {
    var s := Login(store, body, crypto, env).value;
    var row := store[s.user.id];
    var c := Claims(IntToString(row.id), RowRole(row), IssuedAt(env));
    assert s.token == crypto.sign(c, env.secret.value);
    var h := Some(BearerPrefix + s.token);
    assert (BearerPrefix + s.token)[|BearerPrefix|..] == s.token;
    assert BearerToken(h) == Some(s.token);
    IssuedClaimsAccepted(c);
  }

  /** With the secret set, registering a complete body with a string
      password and an e-mail and username that are unused and already
      normalized succeeds, and logging in
      with the same body then succeeds too whenever the password oracle
      accepts a password against its own hash; the session names the new
      row as a plain user. */
  lemma RegisterThenLogin(store: Store, body: Body, crypto: Crypto, env: Env, newId: int)
    requires Wf(store) && newId !in store && HasSecret(env)
    requires RegisterFieldsPresent(body) && BcryptAccepts(Field(body, "password"))
    requires !EmailTaken(store, ToStr(Field(body, "email"))) && !UsernameTaken(store, ToStr(Field(body, "username")))
    requires LoginEmail(Field(body, "email")) == ToStr(Field(body, "email"))
    requires forall p :: crypto.compare(p, crypto.hash(p))
    ensures Register(store, body, crypto, env, newId).reply.Ok?
    ensures var s := Register(store, body, crypto, env, newId).store;
      Login(s, body, crypto, env).Ok?
      && Login(s, body, crypto, env).value.user == Account(newId, s[newId].email, s[newId].username, Some(User))
  {
    var s := Register(store, body, crypto, env, newId).store;
    var row := RegisteredRow(newId, body, crypto);
    assert s[newId] == row;
    assert crypto.compare(ToStr(Field(body, "password")), row.passwordHash);
    assert CredentialsMatch(s, Field(body, "email"), Field(body, "password"), crypto);
    var found := FindByEmail(s, LoginEmail(Field(body, "email")));
    assert found == Some(row);
  }
}
