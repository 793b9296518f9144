/** The users table as the controllers see it: rows keyed by id, with the
    uniqueness of e-mail and username the table's unique indexes enforce. */
module Users {
  import opened Js
  import opened Options
  import opened Roles

  datatype UserRow = UserRow(
    id: int,
    email: string,
    username: string,
    passwordHash: string,
    displayName: Option<string>,
    roleId: RoleId,
    isActive: bool)

  type Store = map<int, UserRow>

  /** Rows sit under their own ids, and no two rows share an e-mail or a
      username. */
  predicate Wf(store: Store) {
    && (forall k :: k in store ==> store[k].id == k)
    && (forall k, k' :: k in store && k' in store && store[k].email == store[k'].email ==> k == k')
    && (forall k, k' :: k in store && k' in store && store[k].username == store[k'].username ==> k == k')
  }

  /** `User.findOne({ where: { email } })` found a row. */
  predicate EmailTaken(store: Store, email: string) {
    exists k :: k in store && store[k].email == email
  }

  /** `User.findOne({ where: { username } })` found a row. */
  predicate UsernameTaken(store: Store, username: string) {
    exists k :: k in store && store[k].username == username
  }

  /** The row with the given e-mail, if any. */
  function FindByEmail(store: Store, email: string): (r: Option<UserRow>)
    requires Wf(store)
    ensures r.Some? <==> EmailTaken(store, email)
    ensures r.Some? ==> r.value.id in store && store[r.value.id] == r.value && r.value.email == email
  {
    if EmailTaken(store, email) then
      var k :| k in store && store[k].email == email;
      Some(store[k])
    else None
  }

  /** `display_name ?? null` and the like: an optional text column stores
      null when the value is absent or null. */
  function OptionalColumn(v: JsVal): (c: Option<string>)
    ensures c.None? <==> v.Undefined? || v.Null?
    ensures v.Str? ==> c == Some(v.s)
  {
    if v.Undefined? || v.Null? then None else Some(ToStr(v))
  }

  /** The native `bcrypt` binding hashes and compares strings only (or
      buffers, which a JSON body cannot hold): for any other password
      `bcrypt.hash` and `bcrypt.compare` reject. */
  predicate BcryptAccepts(password: JsVal) {
    password.Str?
  }

  /** Adding a row under a fresh id, with an e-mail and a username nobody
      uses, keeps the table well formed. */
  lemma InsertPreservesWf(store: Store, row: UserRow)
    requires Wf(store)
    requires row.id !in store && !EmailTaken(store, row.email) && !UsernameTaken(store, row.username)
    ensures Wf(store[row.id := row])
  {
  }

  /** Replacing a row by one with the same id, e-mail and username keeps the
      table well formed. */
  lemma ReplacePreservesWf(store: Store, row: UserRow)
    requires Wf(store) && row.id in store
    requires store[row.id].email == row.email && store[row.id].username == row.username
    ensures Wf(store[row.id := row])
  {
  }

  /** Removing any row keeps the table well formed. */
  lemma RemovePreservesWf(store: Store, id: int)
    requires Wf(store)
    ensures Wf(store - {id})
  {
  }
}
