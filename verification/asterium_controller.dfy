/** The discovery handlers: the published feed, reading one discovery, and
    the create, update and delete operations with their ownership rule. */
module AsteriumController {
  import opened Js
  import opened Options
  import opened Roles
  import opened Http
  import opened Tokens
  import opened Discoveries

  const NotFound := "No encontrado"
  const DiscoveryNotFound := "Descubrimiento no encontrado"
  const NotAuthenticated := "Usuario no autenticado"
  const NoPermission := "Sin permisos"
  const InternalError := "Error interno del servidor"

  // ---------------------------------------------------------------------
  // The published feed

  function Min(a: int, b: int): int {
    if a <= b then a else b
  }

  /** The feed size: 20 when `Number(limit)` is not finite, otherwise the
      number clamped to 1..50. */
  function ListLimit(q: JsVal): (limit: int)
    ensures 1 <= limit <= 50
    ensures !IsFinite(ToNumber(q)) ==> limit == 20
    ensures IsFinite(ToNumber(q)) && 1 <= ToNumber(q).v <= 50 ==> limit == ToNumber(q).v
    ensures IsFinite(ToNumber(q)) && ToNumber(q).v < 1 ==> limit == 1
    ensures IsFinite(ToNumber(q)) && ToNumber(q).v > 50 ==> limit == 50
  {
    var n := ToNumber(q);
    if n.Finite? then (if n.v < 1 then 1 else if n.v > 50 then 50 else n.v) else 20
  }

  /** Asking again with the limit the feed used yields the same limit. */
  lemma ListLimitStable(q: JsVal)
    ensures ListLimit(Str(IntToString(ListLimit(q)))) == ListLimit(q)
  {
    StringToNumberOfIntToString(ListLimit(q));
  }

  /** The ids of the published rows. */
  function PublishedIds(store: Store): set<int> {
    set k | k in store && store[k].status == Published
  }

  /** `ORDER BY published_at DESC`: a publication time ranks at least as high
      as another when it is no earlier; an unset time ranks last. */
  predicate AtLeastAsRecent(a: Option<Timestamp>, b: Option<Timestamp>) {
    match b
    case None => true
    case Some(t) => a.Some? && a.value >= t
  }

  lemma AtLeastAsRecentTotal(a: Option<Timestamp>, b: Option<Timestamp>)
    ensures AtLeastAsRecent(a, b) || AtLeastAsRecent(b, a)
  {
  }

  lemma AtLeastAsRecentTransitive(a: Option<Timestamp>, b: Option<Timestamp>, c: Option<Timestamp>)
    requires AtLeastAsRecent(a, b) && AtLeastAsRecent(b, c)
    ensures AtLeastAsRecent(a, c)
  {
  }

  /** `m` is a most recent row among the ids in `pool`. */
  predicate MostRecentIn(store: Store, pool: set<int>, m: int)
    requires pool <= store.Keys
  {
    m in pool && forall j :: j in pool ==> AtLeastAsRecent(store[m].publishedAt, store[j].publishedAt)
  }

  /** Every non-empty set of rows has a most recent one. */
  lemma {:induction false} MostRecentExists(store: Store, pool: set<int>)
    requires pool != {} && pool <= store.Keys
    ensures exists m :: MostRecentIn(store, pool, m)
    decreases |pool|
  {
    assert exists y :: y in pool by {
      if forall y :: y !in pool {
        assert false;
      }
    }
    var x :| x in pool;
    var rest := pool - {x};
    if rest == {} {
      assert pool == {x};
      assert MostRecentIn(store, pool, x);
    } else {
      MostRecentExists(store, rest);
      var m :| MostRecentIn(store, rest, m);
      AtLeastAsRecentTotal(store[x].publishedAt, store[m].publishedAt);
      if AtLeastAsRecent(store[x].publishedAt, store[m].publishedAt) {
        forall j | j in pool
          ensures AtLeastAsRecent(store[x].publishedAt, store[j].publishedAt)
        {
          if j != x {
            AtLeastAsRecentTransitive(store[x].publishedAt, store[m].publishedAt, store[j].publishedAt);
          }
        }
        assert MostRecentIn(store, pool, x);
      } else {
        assert MostRecentIn(store, pool, m);
      }
    }
  }

  /** `listPublished`: up to `ListLimit(q)` published rows, newest first.
      Exactly `min(limit, published count)` distinct published rows come
      back, in order, and every published row left out is no more recent
      than any row returned. Rows with equal times may come in any order. */
  method ListPublished(store: Store, q: JsVal) returns (rows: seq<Discovery>)
    requires WellKeyed(store)
    ensures |rows| == Min(ListLimit(q), |PublishedIds(store)|)
    ensures forall i :: 0 <= i < |rows| ==> rows[i].id in PublishedIds(store) && store[rows[i].id] == rows[i]
    ensures forall i, j :: 0 <= i < j < |rows| ==> rows[i].id != rows[j].id
    ensures forall i, j :: 0 <= i < j < |rows| ==> AtLeastAsRecent(rows[i].publishedAt, rows[j].publishedAt)
    ensures forall k :: k in PublishedIds(store) && (forall i :: 0 <= i < |rows| ==> rows[i].id != k) ==>
              forall i :: 0 <= i < |rows| ==> AtLeastAsRecent(rows[i].publishedAt, store[k].publishedAt)
  {
    var limit := ListLimit(q);
    var published := PublishedIds(store);
    var pool := published;
    rows := [];
    ghost var ids: seq<int> := [];
    while |rows| < limit && pool != {}
      invariant pool <= published <= store.Keys
      invariant |rows| + |pool| == |published|
      invariant |rows| <= limit
      invariant forall i :: 0 <= i < |rows| ==> rows[i].id in published && rows[i].id !in pool && store[rows[i].id] == rows[i]
      invariant forall i, j :: 0 <= i < j < |rows| ==> rows[i].id != rows[j].id
      invariant forall i, j :: 0 <= i < j < |rows| ==> AtLeastAsRecent(rows[i].publishedAt, rows[j].publishedAt)
      invariant forall i, k :: 0 <= i < |rows| && k in pool ==> AtLeastAsRecent(rows[i].publishedAt, store[k].publishedAt)
      invariant |ids| == |rows| && forall i :: 0 <= i < |rows| ==> ids[i] == rows[i].id
      invariant forall k :: k in published ==> k in pool || k in ids
      decreases |pool|
    {
      MostRecentExists(store, pool);
      var m :| MostRecentIn(store, pool, m);
      assert store[m].id == m;
      rows := rows + [store[m]];
      ids := ids + [m];
      pool := pool - {m};
    }
  }

  // ---------------------------------------------------------------------
  // Reading one discovery

  /** `getDiscovery`: the row, or 404. */
  function GetDiscovery(store: Store, id: JsVal): (r: Reply<Discovery>)
    ensures r.Ok? <==> FindByPk(store, id).Some?
    ensures r.Ok? ==> r.status == 200 && r.value == FindByPk(store, id).value
    ensures r.Err? ==> r == Err(404, DiscoveryNotFound)
  {
    match FindByPk(store, id)
    case None => Err(404, DiscoveryNotFound)
    case Some(row) => Ok(200, row)
  }

  // ---------------------------------------------------------------------
  // Creating

  /** `Number(req.user?.sub)`: NaN when nobody is signed in. */
  function AuthorNumber(user: Option<Principal>): Number {
    match user
    case None => NaN
    case Some(p) => ToNumber(p.sub)
  }

  /** The row a create inserts: the author is the token's subject, the image
      is the uploaded file's path (or null) whatever the body says, the
      status defaults to draft, and the publication time is set exactly when
      the body's status is published. */
  function NewRow(id: int, author: int, input: NewDiscovery, file: Option<string>, now: Timestamp): (row: Discovery)
    ensures row.id == id && row.authorId == author && row.imageUrl == file
    ensures row.title == input.title && row.excerpt == input.excerpt && row.contentMd == input.contentMd
    ensures row.status == input.status.GetOr(Draft)
    ensures row.publishedAt.Some? <==> input.status == Some(Published)
    ensures row.publishedAt.Some? ==> row.publishedAt.value == now
  {
    Discovery(id, author, input.title, input.excerpt, input.contentMd, input.status.GetOr(Draft), file,
              if input.status == Some(Published) then Some(now) else None)
  }

  /** `createDiscovery`: 401 when `Number(sub)` is 0 or NaN (no principal
      reads as NaN); an infinite subject cannot be stored and the insert
      fails with the database's own message (`failure`); otherwise the row is
      inserted under the id the table assigns. */
  function CreateDiscovery(store: Store, user: Option<Principal>, input: NewDiscovery, file: Option<string>,
                           now: Timestamp, newId: int, failure: string): (e: Effect<Store, Discovery>)
    requires WellKeyed(store) && newId !in store
    ensures WellKeyed(e.store)
    ensures AuthorNumber(user) == NaN || AuthorNumber(user) == Finite(0) ==> e == Effect(store, Err(401, NotAuthenticated))
    ensures e.reply.Ok? <==> AuthorNumber(user).Finite? && AuthorNumber(user).v != 0
    ensures e.reply.Ok? ==>
      && e.reply.status == 201
      && e.reply.value == NewRow(newId, AuthorNumber(user).v, input, file, now)
      && e.store == store[newId := e.reply.value]
    ensures !e.reply.Ok? ==> e.store == store
    ensures !e.reply.Unhandled?
  {
    match AuthorNumber(user)
    case NaN => Effect(store, Err(401, NotAuthenticated))
    case Finite(a) =>
      if a == 0 then Effect(store, Err(401, NotAuthenticated))
      else
        var row := NewRow(newId, a, input, file, now);
        Effect(store[newId := row], Ok(201, row))
    case _ => Effect(store, Err(500, failure))
  }

  // ---------------------------------------------------------------------
  // Ownership, update and delete

  /** Only an admin or the author may modify a discovery: the author check
      compares the stored author id with `Number(sub)`. */
  predicate MayModify(p: Principal, row: Discovery) {
    p.role == Admin || ToNumber(p.sub) == Finite(row.authorId)
  }

  /** For the principals the server's own tokens produce (subject is the
      printed user id), a plain user may modify exactly their own
      discoveries. */
  lemma OwnershipOfIssuedSubject(userId: int, row: Discovery)
    ensures MayModify(Principal(Str(IntToString(userId)), User), row) <==> row.authorId == userId
  {
    ToNumberOfPrintedInt(userId);
    var p := Principal(Str(IntToString(userId)), User);
    assert ToNumber(p.sub) == Finite(userId);
  }

  /** The whitelisted merge of an update: each of title, excerpt, content,
      status and image changes only when the body provides it, an empty
      image clears it, and the publication time is stamped only when the
      new status is published and no time was set before. */
  function ApplyPatch(row: Discovery, patch: DiscoveryPatch, now: Timestamp): (r: Discovery)
    ensures r.id == row.id && r.authorId == row.authorId
    ensures r.title == patch.title.GetOr(row.title)
    ensures r.contentMd == patch.contentMd.GetOr(row.contentMd)
    ensures r.status == patch.status.GetOr(row.status)
    ensures r.excerpt == if patch.excerpt.Some? then patch.excerpt else row.excerpt
    ensures patch.imageUrl.None? ==> r.imageUrl == row.imageUrl
    ensures patch.imageUrl == Some("") ==> r.imageUrl.None?
    ensures patch.imageUrl.Some? && patch.imageUrl.value != "" ==> r.imageUrl == patch.imageUrl
    ensures row.publishedAt.Some? ==> r.publishedAt == row.publishedAt
    ensures row.publishedAt.None? ==> (r.publishedAt.Some? <==> patch.status == Some(Published))
  {
    var image := match patch.imageUrl
      case None => row.imageUrl
      case Some(u) => if u == "" then None else Some(u);
    var stamp := if patch.status == Some(Published) && row.publishedAt.None? then Some(now) else row.publishedAt;
    row.(title := patch.title.GetOr(row.title),
         excerpt := if patch.excerpt.Some? then patch.excerpt else row.excerpt,
         contentMd := patch.contentMd.GetOr(row.contentMd),
         status := patch.status.GetOr(row.status),
         imageUrl := image,
         publishedAt := stamp)
  }

  /** The patch with no fields. */
  const EmptyPatch := DiscoveryPatch(None, None, None, None, None)

  /** An empty body changes nothing. */
  lemma EmptyPatchIdentity(row: Discovery, now: Timestamp)
    ensures ApplyPatch(row, EmptyPatch, now) == row
  {
  }

  /** Applying the same update twice, at any two times, has the effect of
      applying it once: a publication time, once written, is never
      overwritten. */
  lemma ApplyPatchIdempotent(row: Discovery, patch: DiscoveryPatch, now: Timestamp, later: Timestamp)
    ensures ApplyPatch(ApplyPatch(row, patch, now), patch, later) == ApplyPatch(row, patch, now)
  {
  }

  /** A publication time survives every later update. */
  lemma PublishedAtWriteOnce(row: Discovery, patch: DiscoveryPatch, now: Timestamp)
    requires row.publishedAt.Some?
    ensures ApplyPatch(row, patch, now).publishedAt == row.publishedAt
  {
  }

  /** `updateDiscovery`: 404 first; then a missing principal throws inside
      the handler's try and gives 500; then 403 unless `MayModify`; then the
      merged row replaces the old one. */
  function UpdateDiscovery(store: Store, user: Option<Principal>, id: JsVal, patch: DiscoveryPatch, now: Timestamp): (e: Effect<Store, Discovery>)
    requires WellKeyed(store)
    ensures WellKeyed(e.store)
    ensures FindByPk(store, id).None? ==> e == Effect(store, Err(404, NotFound))
    ensures FindByPk(store, id).Some? && user.None? ==> e == Effect(store, Err(500, InternalError))
    ensures e.reply == Err(403, NoPermission) <==>
      && FindByPk(store, id).Some? && user.Some? && !MayModify(user.value, FindByPk(store, id).value)
    ensures e.reply.Ok? <==> FindByPk(store, id).Some? && user.Some? && MayModify(user.value, FindByPk(store, id).value)
    ensures e.reply.Ok? ==>
      var row := FindByPk(store, id).value;
      && e.reply == Ok(200, ApplyPatch(row, patch, now))
      && e.store == store[row.id := ApplyPatch(row, patch, now)]
    ensures !e.reply.Ok? ==> e.store == store
  {
    match FindByPk(store, id)
    case None => Effect(store, Err(404, NotFound))
    case Some(row) =>
      match user
      case None => Effect(store, Err(500, InternalError))
      case Some(p) =>
        if !MayModify(p, row) then Effect(store, Err(403, NoPermission))
        else
          var updated := ApplyPatch(row, patch, now);
          Effect(store[row.id := updated], Ok(200, updated))
  }

  /** `deleteDiscovery`: 404 first; a missing principal throws out of the
      handler (there is no try); then 403 unless `MayModify`; then exactly
      the target row is removed and the answer is 204. */
  function DeleteDiscovery(store: Store, user: Option<Principal>, id: JsVal): (e: Effect<Store, ()>)
    requires WellKeyed(store)
    ensures WellKeyed(e.store)
    ensures FindByPk(store, id).None? ==> e == Effect(store, Err(404, NotFound))
    ensures FindByPk(store, id).Some? && user.None? ==> e == Effect(store, Unhandled)
    ensures e.reply == Err(403, NoPermission) <==>
      && FindByPk(store, id).Some? && user.Some? && !MayModify(user.value, FindByPk(store, id).value)
    ensures e.reply.Ok? <==> FindByPk(store, id).Some? && user.Some? && MayModify(user.value, FindByPk(store, id).value)
    ensures e.reply.Ok? ==>
      var k := ToNumber(id).v;
      && e.reply.status == 204
      && e.store.Keys == store.Keys - {k}
      && (forall j :: j in e.store ==> e.store[j] == store[j])
    ensures !e.reply.Ok? ==> e.store == store
  {
    match FindByPk(store, id)
    case None => Effect(store, Err(404, NotFound))
    case Some(row) =>
      match user
      case None => Effect(store, Unhandled)
      case Some(p) =>
        if !MayModify(p, row) then Effect(store, Err(403, NoPermission))
        else Effect(store - {row.id}, Ok(204, ()))
  }

  /** A plain user holding a server-issued token can update or delete a
      discovery exactly when they wrote it. */
  lemma AuthorControlsOwnDiscovery(store: Store, userId: int, id: JsVal, patch: DiscoveryPatch, now: Timestamp)
    requires WellKeyed(store) && FindByPk(store, id).Some?
    ensures var p := Some(Principal(Str(IntToString(userId)), User));
      && (UpdateDiscovery(store, p, id, patch, now).reply.Ok? <==> FindByPk(store, id).value.authorId == userId)
      && (DeleteDiscovery(store, p, id).reply.Ok? <==> FindByPk(store, id).value.authorId == userId)
  {
    OwnershipOfIssuedSubject(userId, FindByPk(store, id).value);
  }
}
