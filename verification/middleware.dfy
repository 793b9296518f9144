/** The request guards: `requireAuth`, `requireAdmin`, `optionalAuth` and
    `checkRole`. A guard either passes the request on (Express calls `next`
    exactly once) with a possibly updated context, or halts it with a JSON
    error and never calls `next`. */
module Middleware {
  import opened Js
  import opened Options
  import opened Roles
  import opened Tokens

  /** The part of a request the guards read and write: the `Authorization`
      header (absent or a string) and `req.user`. */
  datatype Ctx = Ctx(authorization: Option<string>, user: Option<Principal>)

  /** A guard's verdict: `Next` means `next()` was called once with the given
      context; `Halt` means a response was sent and `next` was never called. */
  datatype Step = Next(ctx: Ctx) | Halt(status: int, error: string)

  const BearerPrefix := "Bearer "
  const NoTokenError := "No token"
  const BadTokenError := "Token inválido"

  /** `(header || '')`: an absent header reads as the empty string. */
  function HeaderText(h: Option<string>): string {
    h.GetOr("")
  }

  /** Whether the header carries the exact `"Bearer "` prefix. */
  predicate HasBearerPrefix(h: Option<string>) {
    StartsWith(HeaderText(h), BearerPrefix)
  }

  /** The token `requireAuth` extracts: the text after `"Bearer "`, and only
      when that text is non-empty. */
  function BearerToken(h: Option<string>): (t: Option<string>)
    ensures t.Some? <==> HasBearerPrefix(h) && |HeaderText(h)| > |BearerPrefix|
    ensures t.Some? ==> t.value != "" && h == Some(BearerPrefix + t.value)
  {
    var text := HeaderText(h);
    if StartsWith(text, BearerPrefix) && text[|BearerPrefix|..] != "" then
      assert text == BearerPrefix + text[|BearerPrefix|..];
      Some(text[|BearerPrefix|..])
    else None
  }

  /** `requireAuth`: 401 `'No token'` without a usable bearer token, 401
      `'Token inválido'` when `verify` throws or the payload fails the strict
      check, and otherwise `req.user` becomes the decoded payload. */
  function RequireAuth(ctx: Ctx, verify: string -> Verified): (r: Step)
    ensures BearerToken(ctx.authorization).None? ==> r == Halt(401, NoTokenError)
    ensures BearerToken(ctx.authorization).Some? && verify(BearerToken(ctx.authorization).value) == Throws
            ==> r == Halt(401, BadTokenError)
    ensures r.Halt? ==> r.status == 401 && (r.error == NoTokenError || r.error == BadTokenError)
    ensures r.Next? <==> BearerToken(ctx.authorization).Some?
                         && AcceptStrict(verify(BearerToken(ctx.authorization).value)).Some?
    ensures r.Next? ==> r.ctx.authorization == ctx.authorization && r.ctx.user.Some?
                        && PayloadOf(r.ctx.user.value) == verify(BearerToken(ctx.authorization).value)
  {
    match BearerToken(ctx.authorization)
    case None => Halt(401, NoTokenError)
    case Some(token) =>
      match AcceptStrict(verify(token))
      case None => Halt(401, BadTokenError)
      case Some(p) => Next(ctx.(user := Some(p)))
  }

  /** `requireAdmin`: 401 `'No auth'` without a principal (checked first),
      403 `'Sin permisos'` for a non-admin, otherwise pass unchanged. */
  function RequireAdmin(ctx: Ctx): (r: Step)
    ensures ctx.user.None? ==> r == Halt(401, "No auth")
    ensures ctx.user.Some? && ctx.user.value.role != Admin ==> r == Halt(403, "Sin permisos")
    ensures r.Next? <==> ctx.user.Some? && ctx.user.value.role == Admin
    ensures r.Next? ==> r.ctx == ctx
  {
    match ctx.user
    case None => Halt(401, "No auth")
    case Some(p) => if p.role != Admin then Halt(403, "Sin permisos") else Next(ctx)
  }

  /** `optionalAuth`: never rejects. With the `"Bearer "` prefix it asks
      `verify` about the rest of the header (even if empty); a payload that
      passes the lenient check becomes `req.user`, anything else (including
      an exception) leaves the request as it was. */
  function OptionalAuth(ctx: Ctx, verify: string -> Verified): (r: Step)
    ensures r.Next? && r.ctx.authorization == ctx.authorization
    ensures !HasBearerPrefix(ctx.authorization) ==> r.ctx == ctx
    ensures r.ctx.user != ctx.user ==>
              HasBearerPrefix(ctx.authorization)
              && r.ctx.user == AcceptLenient(verify(HeaderText(ctx.authorization)[|BearerPrefix|..]))
              && r.ctx.user.Some?
    ensures HasBearerPrefix(ctx.authorization)
            && AcceptLenient(verify(HeaderText(ctx.authorization)[|BearerPrefix|..])).Some?
            ==> r.ctx.user == AcceptLenient(verify(HeaderText(ctx.authorization)[|BearerPrefix|..]))
  {
    var text := HeaderText(ctx.authorization);
    if !StartsWith(text, BearerPrefix) then Next(ctx)
    else
      match AcceptLenient(verify(text[|BearerPrefix|..]))
      case None => Next(ctx)
      case Some(p) => Next(ctx.(user := Some(p)))
  }

  /** What reading `req.user` yields inside `checkRole`: a value, or an
      exception thrown by the property access itself. */
  datatype UserRead = Value(user: Option<Principal>) | ReadThrows(message: string)

  /** `checkRole(rolesAllowed)` for a given outcome of reading `req.user`:
      500 with the exception's message (or `'Error interno'` when it has
      none) if the read throws, 401 `'No autenticado'` without a principal,
      403 `'No tienes permisos suficientes'` when the role is not listed,
      and otherwise pass unchanged. */
  function CheckRoleOn(allowed: seq<Role>, ctx: Ctx, read: UserRead): (r: Step)
    ensures read.ReadThrows? ==> r.Halt? && r.status == 500
    ensures read == Value(None) ==> r == Halt(401, "No autenticado")
    ensures r.Next? <==> read.Value? && read.user.Some? && read.user.value.role in allowed
    ensures r.Next? ==> r.ctx == ctx
    ensures read.Value? && read.user.Some? && read.user.value.role !in allowed
            ==> r == Halt(403, "No tienes permisos suficientes")
  {
    match read
    case ReadThrows(m) => Halt(500, if m != "" then m else "Error interno")
    case Value(None) => Halt(401, "No autenticado")
    case Value(Some(p)) =>
      if p.role in allowed then Next(ctx) else Halt(403, "No tienes permisos suficientes")
  }

  /** `checkRole(rolesAllowed)` on an ordinary request, whose `req.user`
      read does not throw. */
  function CheckRole(allowed: seq<Role>, ctx: Ctx): (r: Step)
    ensures r.Next? <==> ctx.user.Some? && ctx.user.value.role in allowed
    ensures r.Next? ==> r.ctx == ctx
    ensures r.Halt? ==> (r.status == 401 <==> ctx.user.None?) && (r.status == 401 || r.status == 403)
  {
    CheckRoleOn(allowed, ctx, Value(ctx.user))
  }

  /** Widening the allowed set never turns a pass into a rejection. */
  lemma CheckRoleMonotone(small: seq<Role>, large: seq<Role>, ctx: Ctx)
    requires forall r :: r in small ==> r in large
    ensures CheckRole(small, ctx).Next? ==> CheckRole(large, ctx).Next?
  {
  }

  /** `checkRole(['admin', 'user'])` admits every principal. */
  lemma CheckRoleAllRolesAdmitsEveryPrincipal(ctx: Ctx)
    requires ctx.user.Some?
    ensures CheckRole([Admin, User], ctx) == Next(ctx)
  {
    var roles := [Admin, User];
    if ctx.user.value.role == Admin {
      assert roles[0] == ctx.user.value.role;
    } else {
      assert roles[1] == ctx.user.value.role;
    }
  }

  /** `checkRole(['admin'])` and `requireAdmin` agree on every request:
      both pass unchanged, or both reject with the same status (401 for no
      principal, 403 for a non-admin); only the message texts differ. */
  lemma CheckRoleAdminMatchesRequireAdmin(ctx: Ctx)
    ensures CheckRole([Admin], ctx).Next? <==> RequireAdmin(ctx).Next?
    ensures CheckRole([Admin], ctx).Next? ==> CheckRole([Admin], ctx) == RequireAdmin(ctx)
    ensures CheckRole([Admin], ctx).Halt? ==> CheckRole([Admin], ctx).status == RequireAdmin(ctx).status
  {
  }

  /** Whenever `requireAuth` passes, `optionalAuth` passes with the same
      principal; without the bearer prefix `requireAuth` rejects with 401
      while `optionalAuth` lets the request through untouched. */
  lemma RequireAuthRefinesOptionalAuth(ctx: Ctx, verify: string -> Verified)
    ensures RequireAuth(ctx, verify).Next? ==> OptionalAuth(ctx, verify) == RequireAuth(ctx, verify)
    ensures !HasBearerPrefix(ctx.authorization) ==>
              RequireAuth(ctx, verify) == Halt(401, NoTokenError) && OptionalAuth(ctx, verify) == Next(ctx)
  {
    if RequireAuth(ctx, verify).Next? {
      var token := BearerToken(ctx.authorization).value;
      assert HeaderText(ctx.authorization)[|BearerPrefix|..] == token;
      StrictImpliesLenient(verify(token));
    }
  }
}
