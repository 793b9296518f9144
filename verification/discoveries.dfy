/** The discovery ("asterium") records the posts handlers work on, and the
    typed shapes of the create and update request bodies. */
module Discoveries {
  import opened Js
  import opened Options

  datatype Status = Draft | Published | Archived

  function StatusName(s: Status): (n: string)
    ensures ParseStatus(Str(n)) == Some(s)
  {
    match s
    case Draft => "draft"
    case Published => "published"
    case Archived => "archived"
  }

  /** The status enum of the schemas and the table: only the three exact
      strings are statuses. */
  function ParseStatus(v: JsVal): (r: Option<Status>)
    ensures r.Some? <==> v == Str("draft") || v == Str("published") || v == Str("archived")
    ensures r == Some(Published) <==> v == Str("published")
  {
    if v == Str("draft") then Some(Draft)
    else if v == Str("published") then Some(Published)
    else if v == Str("archived") then Some(Archived)
    else None
  }

  /** An abstract point in time (`new Date()`). */
  type Timestamp = int

  /** A row of the discoveries table. */
  datatype Discovery = Discovery(
    id: int,
    authorId: int,
    title: string,
    excerpt: Option<string>,
    contentMd: string,
    status: Status,
    imageUrl: Option<string>,
    publishedAt: Option<Timestamp>)

  /** The discoveries table, keyed by id. */
  type Store = map<int, Discovery>

  /** Every row sits under its own id. */
  predicate WellKeyed(store: Store) {
    forall k :: k in store ==> store[k].id == k
  }

  /** A validated create body. The status is absent when the body had none
      (the table then defaults to draft). */
  datatype NewDiscovery = NewDiscovery(
    title: string,
    excerpt: Option<string>,
    contentMd: string,
    status: Option<Status>,
    imageUrl: Option<string>)

  /** A validated update body: every field is optional, None is `undefined`. */
  datatype DiscoveryPatch = DiscoveryPatch(
    title: Option<string>,
    excerpt: Option<string>,
    contentMd: Option<string>,
    status: Option<Status>,
    imageUrl: Option<string>)
}
