/** The attribute rules of the standalone user model: the e-mail setter,
    the hash-before-save hook, the role column and the two read scopes. This
    model stores a string `role`, unlike the numeric `role_id` the
    controllers use; the two are kept apart. */
module UserModel {
  import opened Js
  import opened Options
  import opened Roles

  /** What the e-mail setter stores: `String(value).trim().toLowerCase()`. */
  function NormalizeEmail(v: JsVal): (r: string)
    ensures |r| <= |ToStr(v)|
    ensures Lower(r) == r
  {
    LowerIdempotent(Trim(ToStr(v)));
    Lower(Trim(ToStr(v)))
  }

  /** The setter's normal form is the one the login handler computes with
      the operations in the other order (`toLowerCase().trim()`), so an
      address registered in any spelling is found at login. */
  lemma NormalizeEmailMatchesLogin(v: JsVal)
    ensures NormalizeEmail(v) == Trim(Lower(ToStr(v)))
  {
    TrimLowerCommute(ToStr(v));
  }

  /** Lower-casing a trimmed string leaves it trimmed. */
  lemma LowerOfTrimmed(t: string)
    requires t == [] || (!IsSpace(t[0]) && !IsSpace(t[|t| - 1]))
    ensures var r := Lower(t); r == [] || (!IsSpace(r[0]) && !IsSpace(r[|r| - 1]))
  {
    if t != [] {
      LowerCharSpace(t[0]);
      LowerCharSpace(t[|t| - 1]);
    }
  }

  /** The result of `trim()` neither starts nor ends with whitespace. */
  lemma TrimTrimmed(s: string)
    ensures var t := Trim(s); t == [] || (!IsSpace(t[0]) && !IsSpace(t[|t| - 1]))
  {
    var u := TrimStart(s);
    var t := TrimEnd(u);
    if t != [] {
      assert t[0] == u[0];
    }
  }

  /** A normalized address neither starts nor ends with whitespace. */
  lemma NormalizeEmailTrimmed(v: JsVal)
    ensures var r := NormalizeEmail(v); r == [] || (!IsSpace(r[0]) && !IsSpace(r[|r| - 1]))
  {
    TrimTrimmed(ToStr(v));
    LowerOfTrimmed(Trim(ToStr(v)));
  }

  /** Normalizing a normalized e-mail changes nothing. */
  lemma NormalizeEmailIdempotent(v: JsVal)
    ensures NormalizeEmail(Str(NormalizeEmail(v))) == NormalizeEmail(v)
  {
    var n := NormalizeEmail(v);
    NormalizeEmailTrimmed(v);
    TrimOfTrimmed(n);
    assert ToStr(Str(n)) == n;
    LowerIdempotent(Trim(ToStr(v)));
  }

  /** A stored password that already looks like a bcrypt hash. */
  predicate LooksHashed(raw: string) {
    StartsWith(raw, "$2a$") || StartsWith(raw, "$2b$") || StartsWith(raw, "$2y$")
  }

  /** `String(value || "")`: the raw password text the hook inspects. */
  function RawPassword(v: JsVal): (raw: string)
    ensures !Truthy(v) ==> raw == ""
    ensures v.Str? ==> raw == v.s
  {
    ToStr(OrElse(v, Str("")))
  }

  /** The `beforeSave` hook: a changed password that does not look hashed is
      replaced by its hash; any other value is stored as it is. */
  function BeforeSave(changed: bool, password: JsVal, hash: string -> string): (stored: JsVal)
    ensures stored != password ==> changed && !LooksHashed(RawPassword(password))
    ensures changed && !LooksHashed(RawPassword(password)) ==> stored == Str(hash(RawPassword(password)))
  {
    if changed && !LooksHashed(RawPassword(password)) then Str(hash(RawPassword(password))) else password
  }

  /** With a hash function whose output always looks hashed (as bcrypt's
      does), running the hook again on what it stored never hashes twice. */
  lemma BeforeSaveIdempotent(password: JsVal, hash: string -> string)
    requires forall raw :: LooksHashed(hash(raw))
    ensures BeforeSave(true, BeforeSave(true, password, hash), hash) == BeforeSave(true, password, hash)
  {
    var once := BeforeSave(true, password, hash);
    if !LooksHashed(RawPassword(password)) {
      var h := hash(RawPassword(password));
      assert LooksHashed(h);
      assert h != "" by {
        assert StartsWith(h, "$2a$") || StartsWith(h, "$2b$") || StartsWith(h, "$2y$");
      }
      assert RawPassword(once) == h;
    }
  }

  /** `checkPassword(plain)`: the oracle compares `String(plain)` with the
      stored hash, an absent hash reading as the empty string. */
  function CheckPassword(plain: JsVal, stored: JsVal, compare: (string, string) -> bool): (ok: bool)
    ensures !Truthy(stored) ==> ok == compare(ToStr(plain), "")
  {
    compare(ToStr(plain), RawPassword(stored))
  }

  /** A plain password saved through the hook is then accepted by
      `checkPassword`, given a comparison oracle that accepts a password
      against its own hash and a hash whose output looks hashed. */
  lemma CheckPasswordAfterSave(raw: string, hash: string -> string, compare: (string, string) -> bool)
    requires !LooksHashed(raw)
    requires forall p :: LooksHashed(hash(p))
    requires forall p :: compare(p, hash(p))
    ensures CheckPassword(Str(raw), BeforeSave(true, Str(raw), hash), compare)
  {
    var h := hash(raw);
    assert LooksHashed(h);
    assert h != "" by {
      assert StartsWith(h, "$2a$") || StartsWith(h, "$2b$") || StartsWith(h, "$2y$");
    }
    assert BeforeSave(true, Str(raw), hash) == Str(h);
    assert RawPassword(Str(h)) == h;
  }

  /** The outcome of the role column's validation. */
  datatype RoleColumn = RoleStored(value: Option<string>) | RoleRejected(message: string)

  /** The `role` column: an absent value takes the default `'user'`, null is
      stored as null (validators do not run on it), and anything else must
      be `'admin'` or `'user'` or the save fails with `'rol inválido'`. */
  function ValidateRole(v: JsVal): (r: RoleColumn)
    ensures v.Undefined? ==> r == RoleStored(Some("user"))
    ensures r.RoleStored? && r.value.Some? ==> LegacyRole(r.value.value).Some?
    ensures r.RoleRejected? <==> !v.Undefined? && !v.Null? && ParseRole(v).None?
  {
    match v
    case Undefined => RoleStored(Some("user"))
    case Null => RoleStored(None)
    case _ => if ParseRole(Str(ToStr(v))).Some? then RoleStored(Some(ToStr(v))) else RoleRejected("rol inválido")
  }

  /** The token role a stored role string stands for. */
  function LegacyRole(stored: string): (r: Option<Role>)
    ensures r.Some? ==> RoleName(r.value) == stored
  {
    ParseRole(Str(stored))
  }

  /** The read scopes of the model. */
  datatype Scope = DefaultScope | WithPassword

  const Attributes: set<string> := {"id", "name", "email", "password", "role"}

  /** The attributes a read in the given scope returns. */
  function VisibleAttributes(scope: Scope): (attrs: set<string>)
    ensures "password" in attrs <==> scope == WithPassword
    ensures attrs + {"password"} == Attributes
  {
    match scope
    case DefaultScope => Attributes - {"password"}
    case WithPassword => Attributes
  }
}
