/** The route table: each mounted route is an ordered list of guards in
    front of its handler, and the handler runs only when every guard lets
    the request through. The validation guard has two readings: as
    written, it checks a wrapper object and so refuses nearly every
    request (`ValidateAsWritten`, at the end); as the routes mean it, it
    checks the part of the request its schema describes. The pipeline and
    every route lemma here use the intended reading. */
module Routes {
  import opened Js
  import opened Options
  import opened Roles
  import opened Http
  import opened Tokens
  import opened Middleware
  import opened Schemas
  import D = Discoveries
  import A = AsteriumController
  import U = Users
  import Auth = AuthController
  import UC = UserController

  /** A request as the guards see it. */
  datatype Request = Request(ctx: Ctx, params: Body, query: Body, body: Body)

  /** The schemas a route validates with. */
  datatype Schema = RegisterSchema | LoginSchema | NewDiscoverySchema | DiscoveryPatchSchema | IdParamSchema | NewUserSchema

  /** A guard: `requireAuth`, `requireAdmin`, `checkRole(roles)`, or
      `validate(schema)`. */
  datatype Guard = Authenticate | AdminOnly | RoleIn(roles: seq<Role>) | Validate(schema: Schema)

  /** The result of running guards: the request goes on (possibly with a
      principal attached), or a guard answers. */
  datatype Outcome = Pass(req: Request) | Stop(status: int, error: string)

  const ValidationError := "Error de validación"

  /** Whether an object satisfies a schema. */
  predicate SchemaHolds(s: Schema, input: Body, f: Formats) {
    match s
    case RegisterSchema => ValidRegistration(input, f)
    case LoginSchema => ValidLogin(input, f)
    case NewDiscoverySchema => ValidNewDiscovery(input, f)
    case DiscoveryPatchSchema => ValidDiscoveryPatch(input)
    case IdParamSchema => ParseIdParam(input).Some?
    case NewUserSchema => ValidNewUser(input, f)
  }

  /** The part of the request a schema is meant for: the id schema reads
      the route parameters, every other schema the body. */
  function SchemaInput(s: Schema, req: Request): Body {
    if s == IdParamSchema then req.params else req.body
  }

  /** The validation guard as the routes mean it. */
  predicate ValidateIntended(s: Schema, req: Request, f: Formats) {
    SchemaHolds(s, SchemaInput(s, req), f)
  }

  /** One guard step, with `validate` in its intended reading. */
  function RunGuard(g: Guard, req: Request, verify: string -> Verified, f: Formats): (o: Outcome)
    ensures o.Pass? && !g.Authenticate? ==> o.req == req
    ensures o.Pass? && g.Authenticate? ==> o.req == req.(ctx := o.req.ctx) && o.req.ctx.user.Some?
    ensures g.Validate? ==> (o.Pass? <==> ValidateIntended(g.schema, req, f))
    ensures g.Validate? && o.Stop? ==> o == Stop(400, ValidationError)
  {
    match g
    case Authenticate =>
      (match RequireAuth(req.ctx, verify)
       case Next(c) => Pass(req.(ctx := c))
       case Halt(s, e) => Stop(s, e))
    case AdminOnly =>
      (match RequireAdmin(req.ctx)
       case Next(c) => Pass(req.(ctx := c))
       case Halt(s, e) => Stop(s, e))
    case RoleIn(roles) =>
      (match CheckRole(roles, req.ctx)
       case Next(c) => Pass(req.(ctx := c))
       case Halt(s, e) => Stop(s, e))
    case Validate(s) =>
      if ValidateIntended(s, req, f) then Pass(req) else Stop(400, ValidationError)
  }

  /** Runs the guards in order; the first to answer ends the request. */
  function RunPipeline(gs: seq<Guard>, req: Request, verify: string -> Verified, f: Formats): (o: Outcome)
    decreases |gs|
  {
    if gs == [] then Pass(req)
    else match RunGuard(gs[0], req, verify, f)
      case Pass(r) => RunPipeline(gs[1..], r, verify, f)
      case Stop(s, e) => Stop(s, e)
  }

  /** Running `a + b` is running `a` and then, if it passed, `b`. */
  lemma {:induction false} PipelineConcat(a: seq<Guard>, b: seq<Guard>, req: Request, verify: string -> Verified, f: Formats)
    ensures RunPipeline(a + b, req, verify, f)
      == match RunPipeline(a, req, verify, f)
         case Pass(r) => RunPipeline(b, r, verify, f)
         case Stop(s, e) => Stop(s, e)
    decreases |a|
  {
    if a == [] {
      assert a + b == b;
    } else {
      assert (a + b)[0] == a[0];
      assert (a + b)[1..] == a[1..] + b;
      match RunGuard(a[0], req, verify, f)
      case Pass(r) =>
        PipelineConcat(a[1..], b, r, verify, f);
        assert RunPipeline(a + b, req, verify, f) == RunPipeline(a[1..] + b, r, verify, f);
        assert RunPipeline(a, req, verify, f) == RunPipeline(a[1..], r, verify, f);
      case Stop(s, e) =>
    }
  }

  /** Guards only ever attach a principal: the parameters, query and body
      a handler sees are the ones the request arrived with. */
  lemma {:induction false} PipelineOnlySetsPrincipal(gs: seq<Guard>, req: Request, verify: string -> Verified, f: Formats)
    requires RunPipeline(gs, req, verify, f).Pass?
    ensures RunPipeline(gs, req, verify, f).req == req.(ctx := RunPipeline(gs, req, verify, f).req.ctx)
    decreases |gs|
  {
    if gs != [] {
      var r := RunGuard(gs[0], req, verify, f);
      PipelineOnlySetsPrincipal(gs[1..], r.req, verify, f);
    }
  }

  /** Guards other than authentication never change the principal; the
      only way through a pipeline with a principal is to have had one or
      to pass `requireAuth`. */
  lemma {:induction false} PipelineKeepsPrincipal(gs: seq<Guard>, req: Request, verify: string -> Verified, f: Formats)
    requires RunPipeline(gs, req, verify, f).Pass?
    requires forall i :: 0 <= i < |gs| ==> !gs[i].Authenticate?
    ensures RunPipeline(gs, req, verify, f).req == req
    decreases |gs|
  {
    if gs != [] {
      var r := RunGuard(gs[0], req, verify, f);
      assert !gs[0].Authenticate?;
      PipelineKeepsPrincipal(gs[1..], r.req, verify, f);
    }
  }

  /** A guard only ever answers 400, 401 or 403: server errors come from
      handlers, never from the pipeline in front of them. */
  lemma {:induction false} PipelineStopsAreClientErrors(gs: seq<Guard>, req: Request, verify: string -> Verified, f: Formats)
    ensures RunPipeline(gs, req, verify, f).Stop? ==>
      RunPipeline(gs, req, verify, f).status in {400, 401, 403}
    decreases |gs|
  {
    if gs != [] {
      match RunGuard(gs[0], req, verify, f)
      case Pass(r) => PipelineStopsAreClientErrors(gs[1..], r, verify, f);
      case Stop(s, e) =>
    }
  }

  // ---------------------------------------------------------------------
  // The mounted routes

  datatype Route =
    | ListDiscoveries | ReadDiscovery | CreateDiscovery | UpdateDiscovery | DeleteDiscovery
    | ListUsers | ReadUser | CreateUser | UpdateUser | DeleteUser
    | Register | Login | Promote

  predicate IsDiscoveryRoute(r: Route) {
    r.ListDiscoveries? || r.ReadDiscovery? || r.CreateDiscovery? || r.UpdateDiscovery? || r.DeleteDiscovery?
  }

  predicate IsUserRoute(r: Route) {
    r.ListUsers? || r.ReadUser? || r.CreateUser? || r.UpdateUser? || r.DeleteUser?
  }

  /** The guards in front of each handler, in mounting order. */
  function Guards(r: Route): (gs: seq<Guard>)
    ensures IsDiscoveryRoute(r) || IsUserRoute(r) || r.Promote? ==> |gs| > 0 && gs[0] == Authenticate
    ensures r.Register? || r.Login? ==> forall i :: 0 <= i < |gs| ==> gs[i].Validate?
  {
    match r
    case ListDiscoveries => [Authenticate]
    case ReadDiscovery => [Authenticate, Validate(IdParamSchema)]
    case CreateDiscovery => [Authenticate, Validate(NewDiscoverySchema)]
    case UpdateDiscovery => [Authenticate, Validate(IdParamSchema), Validate(DiscoveryPatchSchema)]
    case DeleteDiscovery => [Authenticate, Validate(IdParamSchema)]
    case ListUsers => [Authenticate, RoleIn([Admin])]
    case ReadUser => [Authenticate, RoleIn([Admin])]
    case CreateUser => [Authenticate, RoleIn([Admin]), Validate(NewUserSchema)]
    case UpdateUser => [Authenticate, RoleIn([Admin])]
    case DeleteUser => [Authenticate, RoleIn([Admin])]
    case Register => [Validate(RegisterSchema)]
    case Login => [Validate(LoginSchema)]
    case Promote => [Authenticate, AdminOnly]
  }

  /** A route whose first guard is `requireAuth` answers 401 exactly as
      `requireAuth` does when the token is missing or bad, and lets nothing
      through without the principal that guard attached. */
  lemma TokenFirst(gs: seq<Guard>, req: Request, verify: string -> Verified, f: Formats)
    requires gs != [] && gs[0] == Authenticate
    ensures RequireAuth(req.ctx, verify).Halt? ==>
      RunPipeline(gs, req, verify, f) == Stop(401, RequireAuth(req.ctx, verify).error)
    ensures RunPipeline(gs, req, verify, f).Pass? ==> RequireAuth(req.ctx, verify).Next?
  {
  }

  /** Every discovery route asks for a valid token before anything else. */
  lemma DiscoveryRoutesNeedToken(r: Route, req: Request, verify: string -> Verified, f: Formats)
    requires IsDiscoveryRoute(r)
    ensures RequireAuth(req.ctx, verify).Halt? ==>
      RunPipeline(Guards(r), req, verify, f) == Stop(401, RequireAuth(req.ctx, verify).error)
    ensures RunPipeline(Guards(r), req, verify, f).Pass? ==>
      && RequireAuth(req.ctx, verify).Next?
      && RunPipeline(Guards(r), req, verify, f).req.ctx == RequireAuth(req.ctx, verify).ctx
  {
    TokenFirst(Guards(r), req, verify, f);
    var gs := Guards(r);
    if RequireAuth(req.ctx, verify).Next? {
      var r1 := req.(ctx := RequireAuth(req.ctx, verify).ctx);
      assert gs == [gs[0]] + gs[1..];
      PipelineConcat([gs[0]], gs[1..], req, verify, f);
      assert RunPipeline([gs[0]], req, verify, f) == Pass(r1);
      if RunPipeline(gs[1..], r1, verify, f).Pass? {
        PipelineKeepsPrincipal(gs[1..], r1, verify, f);
      }
    }
  }

  /** Discovery writes carry no role guard: a plain user's valid token with
      valid input reaches the handler, which then decides ownership. */
  lemma DiscoveryWritesOpenToUsers(req: Request, verify: string -> Verified, f: Formats)
    requires RequireAuth(req.ctx, verify).Next?
    requires ValidNewDiscovery(req.body, f) && ValidDiscoveryPatch(req.body) && ParseIdParam(req.params).Some?
    ensures RunPipeline(Guards(CreateDiscovery), req, verify, f).Pass?
    ensures RunPipeline(Guards(UpdateDiscovery), req, verify, f).Pass?
    ensures RunPipeline(Guards(DeleteDiscovery), req, verify, f).Pass?
  {
  }

  /** The update route checks the id before the body: with a bad id the
      answer is the same whatever the body holds. */
  lemma UpdateChecksParamsFirst(req: Request, body: Body, verify: string -> Verified, f: Formats)
    requires RequireAuth(req.ctx, verify).Next? && ParseIdParam(req.params).None?
    ensures RunPipeline(Guards(UpdateDiscovery), req, verify, f) == Stop(400, ValidationError)
    ensures RunPipeline(Guards(UpdateDiscovery), req.(body := body), verify, f) == Stop(400, ValidationError)
  {
  }

  /** Every user route answers 401 without a valid token and 403 for a
      plain user's token, and lets only admins through. */
  lemma UserRoutesAdminOnly(r: Route, req: Request, verify: string -> Verified, f: Formats)
    requires IsUserRoute(r)
    ensures RequireAuth(req.ctx, verify).Halt? ==>
      RunPipeline(Guards(r), req, verify, f).Stop? && RunPipeline(Guards(r), req, verify, f).status == 401
    ensures RequireAuth(req.ctx, verify).Next? && RequireAuth(req.ctx, verify).ctx.user.value.role == User
      ==> RunPipeline(Guards(r), req, verify, f) == Stop(403, "No tienes permisos suficientes")
    ensures RunPipeline(Guards(r), req, verify, f).Pass? ==>
      var u := RunPipeline(Guards(r), req, verify, f).req.ctx.user;
      u.Some? && u.value.role == Admin
  {
    var gs := Guards(r);
    if RequireAuth(req.ctx, verify).Next? {
      var c := RequireAuth(req.ctx, verify).ctx;
      var r1 := req.(ctx := c);
      PipelineConcat(gs[..2], gs[2..], req, verify, f);
      var head := RunPipeline(gs[..2], req, verify, f);
      assert gs[..2] == [Authenticate, RoleIn([Admin])];
      assert RunPipeline(gs[..2], req, verify, f) == RunPipeline([RoleIn([Admin])], r1, verify, f);
      if head.Pass? && RunPipeline(gs[2..], head.req, verify, f).Pass? {
        PipelineKeepsPrincipal(gs[2..], head.req, verify, f);
      }
    }
  }

  /** Promotion answers 401 without a token and 403 for a plain user, as
      `requireAdmin` does. */
  lemma PromoteAdminOnly(req: Request, verify: string -> Verified, f: Formats)
    ensures RequireAuth(req.ctx, verify).Halt? ==>
      RunPipeline(Guards(Promote), req, verify, f).Stop? && RunPipeline(Guards(Promote), req, verify, f).status == 401
    ensures RequireAuth(req.ctx, verify).Next? && RequireAuth(req.ctx, verify).ctx.user.value.role == User
      ==> RunPipeline(Guards(Promote), req, verify, f) == Stop(403, "Sin permisos")
    ensures RunPipeline(Guards(Promote), req, verify, f).Pass? ==>
      RequireAuth(req.ctx, verify).Next? && RequireAuth(req.ctx, verify).ctx.user.value.role == Admin
  {
  }

  /** Registration and login carry no authentication: the token is never
      looked at, and the request passes exactly when its body is valid. */
  lemma OpenRoutes(req: Request, verify: string -> Verified, f: Formats)
    ensures RunPipeline(Guards(Register), req, verify, f).Pass? <==> ValidRegistration(req.body, f)
    ensures RunPipeline(Guards(Login), req, verify, f).Pass? <==> ValidLogin(req.body, f)
    ensures RunPipeline(Guards(Register), req, verify, f).Pass? ==> RunPipeline(Guards(Register), req, verify, f).req == req
  {
  }

  // ---------------------------------------------------------------------
  // Serving whole requests on the routes that change a table

  /** A request to promote a user, from the guards to the handler. */
  function ServePromote(users: U.Store, req: Request, verify: string -> Verified, f: Formats): (e: Effect<U.Store, int>)
    ensures RunPipeline(Guards(Promote), req, verify, f).Stop? ==>
      e == Effect(users, Err(RunPipeline(Guards(Promote), req, verify, f).status, RunPipeline(Guards(Promote), req, verify, f).error))
    ensures RunPipeline(Guards(Promote), req, verify, f).Pass? ==> e == Auth.PromoteToAdmin(users, Field(req.params, "id"))
  {
    var o := RunPipeline(Guards(Promote), req, verify, f);
    if o.Stop? then Effect(users, Err(o.status, o.error)) else Auth.PromoteToAdmin(users, Field(req.params, "id"))
  }

  /** A plain user cannot promote anyone: the table stays as it was. */
  lemma PromoteByUserChangesNothing(users: U.Store, req: Request, verify: string -> Verified, f: Formats)
    requires RequireAuth(req.ctx, verify).Next? && RequireAuth(req.ctx, verify).ctx.user.value.role == User
    ensures ServePromote(users, req, verify, f) == Effect(users, Err(403, "Sin permisos"))
  {
    PromoteAdminOnly(req, verify, f);
  }

  /** What a discovery write answers with. */
  datatype Written = Row(row: D.Discovery) | Removed

  function LiftRow(r: Reply<D.Discovery>): (l: Reply<Written>)
    ensures r.Ok? <==> l.Ok?
    ensures r.Ok? ==> l == Ok(r.status, Row(r.value))
    ensures r.Err? ==> l == Err(r.status, r.error)
    ensures r.Unhandled? <==> l.Unhandled?
  {
    match r
    case Ok(s, v) => Ok(s, Row(v))
    case Err(s, m) => Err(s, m)
    case Unhandled => Unhandled
  }

  function LiftUnit(r: Reply<()>): (l: Reply<Written>)
    ensures r.Ok? <==> l.Ok?
    ensures r.Ok? ==> l == Ok(r.status, Removed)
    ensures r.Err? ==> l == Err(r.status, r.error)
  {
    match r
    case Ok(s, _) => Ok(s, Removed)
    case Err(s, m) => Err(s, m)
    case Unhandled => Unhandled
  }

  /** The oracles and fresh values a discovery write needs: the clock, the
      id the table assigns, the uploaded file, and the database's message
      for an insert it refuses. */
  datatype WriteEnv = WriteEnv(now: D.Timestamp, newId: int, file: Option<string>, failure: string)

  /** A create, update or delete request on the discoveries table, from the
      guards to the handler. */
  function ServeDiscoveryWrite(r: Route, store: D.Store, req: Request, verify: string -> Verified, f: Formats, env: WriteEnv): (e: Effect<D.Store, Written>)
    requires r.CreateDiscovery? || r.UpdateDiscovery? || r.DeleteDiscovery?
    requires D.WellKeyed(store) && env.newId !in store
    ensures D.WellKeyed(e.store)
    ensures RunPipeline(Guards(r), req, verify, f).Stop? ==> e.store == store && e.reply.Err?
    ensures e.store != store ==> RequireAuth(req.ctx, verify).Next?
  {
    DiscoveryRoutesNeedToken(r, req, verify, f);
    match RunPipeline(Guards(r), req, verify, f)
    case Stop(s, m) => Effect(store, Err(s, m))
    case Pass(p) =>
      var user := p.ctx.user;
      var id := Field(req.params, "id");
      if r.CreateDiscovery? then
        match ParseNewDiscovery(req.body, f)
        case Some(input) =>
          var c := A.CreateDiscovery(store, user, input, env.file, env.now, env.newId, env.failure);
          Effect(c.store, LiftRow(c.reply))
        case None => Effect(store, Err(400, ValidationError))
      else if r.UpdateDiscovery? then
        match ParseDiscoveryPatch(req.body)
        case Some(patch) =>
          var u := A.UpdateDiscovery(store, user, id, patch, env.now);
          Effect(u.store, LiftRow(u.reply))
        case None => Effect(store, Err(400, ValidationError))
      else
        var d := A.DeleteDiscovery(store, user, id);
        Effect(d.store, LiftUnit(d.reply))
  }

  /** Past the guards, a discovery write always has a principal, so the
      delete handler's unguarded use of it never throws through the
      routes. */
  lemma RoutedWritesNeverEscape(r: Route, store: D.Store, req: Request, verify: string -> Verified, f: Formats, env: WriteEnv)
    requires r.CreateDiscovery? || r.UpdateDiscovery? || r.DeleteDiscovery?
    requires D.WellKeyed(store) && env.newId !in store
    ensures !ServeDiscoveryWrite(r, store, req, verify, f, env).reply.Unhandled?
  {
    DiscoveryRoutesNeedToken(r, req, verify, f);
    var o := RunPipeline(Guards(r), req, verify, f);
    if o.Pass? {
      var p := o.req;
      assert p.ctx.user.Some?;
      if r.DeleteDiscovery? {
        var d := A.DeleteDiscovery(store, p.ctx.user, Field(req.params, "id"));
        assert !d.reply.Unhandled?;
        assert ServeDiscoveryWrite(r, store, req, verify, f, env) == Effect(d.store, LiftUnit(d.reply));
      } else if r.UpdateDiscovery? {
        match ParseDiscoveryPatch(req.body)
        case Some(patch) =>
          var u := A.UpdateDiscovery(store, p.ctx.user, Field(req.params, "id"), patch, env.now);
          assert !u.reply.Unhandled?;
          assert ServeDiscoveryWrite(r, store, req, verify, f, env) == Effect(u.store, LiftRow(u.reply));
        case None =>
      }
    }
  }

  /** Past the guards, the update handler's missing-principal branch (its
      500 answer) is unreachable. */
  lemma RoutedUpdateHasPrincipal(store: D.Store, req: Request, verify: string -> Verified, f: Formats, env: WriteEnv)
    requires D.WellKeyed(store) && env.newId !in store
    ensures ServeDiscoveryWrite(UpdateDiscovery, store, req, verify, f, env).reply != Err(500, A.InternalError)
  {
    DiscoveryRoutesNeedToken(UpdateDiscovery, req, verify, f);
    PipelineStopsAreClientErrors(Guards(UpdateDiscovery), req, verify, f);
    var o := RunPipeline(Guards(UpdateDiscovery), req, verify, f);
    if o.Pass? {
      var p := o.req;
      assert p.ctx.user.Some?;
      match ParseDiscoveryPatch(req.body)
      case Some(patch) =>
        var u := A.UpdateDiscovery(store, p.ctx.user, Field(req.params, "id"), patch, env.now);
        assert u.reply != Err(500, A.InternalError);
        assert ServeDiscoveryWrite(UpdateDiscovery, store, req, verify, f, env) == Effect(u.store, LiftRow(u.reply));
      case None =>
        assert ServeDiscoveryWrite(UpdateDiscovery, store, req, verify, f, env) == Effect(store, Err(400, ValidationError));
    }
  }

  /** A request to delete a user, from the guards to the handler (with the
      intended self-check). */
  function ServeDeleteUser(users: U.Store, req: Request, verify: string -> Verified, f: Formats): (e: Effect<U.Store, ()>)
    requires U.Wf(users)
    ensures U.Wf(e.store)
    ensures RunPipeline(Guards(DeleteUser), req, verify, f).Stop? ==> e.store == users && e.reply.Err?
    ensures RunPipeline(Guards(DeleteUser), req, verify, f).Pass? ==>
      e == UC.DeleteUser(users, RunPipeline(Guards(DeleteUser), req, verify, f).req.ctx.user, Field(req.params, "id"))
  {
    match RunPipeline(Guards(DeleteUser), req, verify, f)
    case Stop(s, m) => Effect(users, Err(s, m))
    case Pass(r) => UC.DeleteUser(users, r.ctx.user, Field(req.params, "id"))
  }

  /** Through the route, with the intended self-check, only an admin's
      token removes a row, never the row of the admin it names, and only
      the row the id names. As written the handler's text comparison lets
      `07` through for admin `7` (`UserController.DeleteUserAsWrittenDeletesSelf`). */
  lemma DeleteUserRouteSafe(users: U.Store, req: Request, verify: string -> Verified, f: Formats)
    requires U.Wf(users)
    ensures var e := ServeDeleteUser(users, req, verify, f);
      e.store != users ==>
        && RequireAuth(req.ctx, verify).Next?
        && var p := RequireAuth(req.ctx, verify).ctx.user.value;
        && p.role == Admin
        && ToNumber(Field(req.params, "id")).Finite?
        && e.store == users - {ToNumber(Field(req.params, "id")).v}
        && (ToNumber(p.sub).Finite? && ToNumber(p.sub).v in users ==> ToNumber(p.sub).v in e.store)
  {
    UserRoutesAdminOnly(DeleteUser, req, verify, f);
    var o := RunPipeline(Guards(DeleteUser), req, verify, f);
    if o.Pass? {
      var gs := Guards(DeleteUser);
      var c := RequireAuth(req.ctx, verify).ctx;
      assert RunGuard(gs[0], req, verify, f) == Pass(req.(ctx := c));
      assert gs[1..] == [RoleIn([Admin])];
      assert o.req == req.(ctx := c);
      var p := o.req.ctx.user;
      if ToNumber(p.value.sub).Finite? && ToNumber(p.value.sub).v in users {
        UC.DeleteUserKeepsOwnRow(users, p, Field(req.params, "id"));
      }
    }
  }

  // ---------------------------------------------------------------------
  // The validation guard as written

  /** What `validate` hands the schema: an object wrapping the three parts
      of the request under `body`, `params` and `query`. */
  function WrappedInput(req: Request): (w: Body)
    ensures Field(w, "body") == Object && Field(w, "params") == Object && Field(w, "query") == Object
  {
    map["body" := Object, "params" := Object, "query" := Object]
  }

  /** The validation guard as written: the schema checks the wrapper
      object, not the part of the request it was written for. */
  predicate ValidateAsWritten(s: Schema, req: Request, f: Formats) {
    SchemaHolds(s, WrappedInput(req), f)
  }

  /** As written, every schema except the update schema refuses every
      request (its required fields are missing from the wrapper), and the
      update schema accepts every request (all its fields are optional and
      the wrapper's own keys are not among them). */
  lemma ValidateAsWrittenIgnoresRequest(s: Schema, req: Request, f: Formats)
    ensures s != DiscoveryPatchSchema ==> !ValidateAsWritten(s, req, f)
    ensures s == DiscoveryPatchSchema ==> ValidateAsWritten(s, req, f)
  {
    var w := WrappedInput(req);
    assert Field(w, "email") == Undefined && Field(w, "title") == Undefined && Field(w, "id") == Undefined;
    assert Field(w, "image_url") == Undefined && Field(w, "status") == Undefined;
    assert Field(w, "content_md") == Undefined && Field(w, "excerpt") == Undefined;
  }

  /** So, as written, a well-formed registration is refused while the
      update-schema step lets a non-image URL through; read as intended, the
      opposite. On the full update route as written that request still ends
      in 400, because the id step in front of it refuses every request. */
  lemma ValidateReadings(f: Formats)
    requires f.isEmail("a@b.co")
    ensures var req := Request(Ctx(None, None), map[], map[],
                               map["email" := Str("a@b.co"), "username" := Str("ana"), "password" := Str("12345")]);
      !ValidateAsWritten(RegisterSchema, req, f) && ValidateIntended(RegisterSchema, req, f)
    ensures var req := Request(Ctx(None, None), map["id" := Str("1")], map[], map["image_url" := Str("ftp://cdn.io/a.png")]);
      ValidateAsWritten(DiscoveryPatchSchema, req, f) && !ValidateIntended(DiscoveryPatchSchema, req, f)
      && !ValidateAsWritten(IdParamSchema, req, f)
  {
    var b := map["email" := Str("a@b.co"), "username" := Str("ana"), "password" := Str("12345")];
    FiveCharacterPassword(f);
    ValidateAsWrittenIgnoresRequest(RegisterSchema, Request(Ctx(None, None), map[], map[], b), f);
    var req := Request(Ctx(None, None), map["id" := Str("1")], map[], map["image_url" := Str("ftp://cdn.io/a.png")]);
    ValidateAsWrittenIgnoresRequest(DiscoveryPatchSchema, req, f);
    ValidateAsWrittenIgnoresRequest(IdParamSchema, req, f);
    ImageUrlRejectsOtherScheme();
    assert Field(req.body, "image_url") == Str("ftp://cdn.io/a.png");
  }
}
