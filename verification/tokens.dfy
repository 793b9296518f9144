/** Token payloads: what the token library's `verify` hands back, the claims
    the server signs, and the two acceptance rules that turn a decoded
    payload into the principal attached to a request. Signature checking and
    expiry belong to the library and are an oracle here. */
module Tokens {
  import opened Js
  import opened Options
  import opened Roles

  /** The outcome of `jwt.verify(token, secret)`: it throws (bad signature,
      expired, malformed), or returns a bare string, null, or a claim object
      whose `sub` and `role` may hold any value. */
  datatype Verified = Throws | StringPayload(s: string) | NullPayload | ObjectPayload(sub: JsVal, role: JsVal)

  /** The identity attached to a request (`req.user`). */
  datatype Principal = Principal(sub: JsVal, role: Role)

  /** The claims the server signs at registration and login. The issue time
      is an abstract timestamp. */
  datatype Claims = Claims(sub: string, role: Role, iat: int)

  /** The claim object a principal stands for. */
  function PayloadOf(p: Principal): (d: Verified)
    ensures d.ObjectPayload? && d.sub == p.sub && ParseRole(d.role) == Some(p.role)
  {
    ObjectPayload(p.sub, Str(RoleName(p.role)))
  }

  /** The claim object a signed token decodes to. */
  function DecodedClaims(c: Claims): (d: Verified)
    ensures d.ObjectPayload? && d.sub == Str(c.sub) && ParseRole(d.role) == Some(c.role)
  {
    ObjectPayload(Str(c.sub), Str(RoleName(c.role)))
  }

  /** The payload check of `requireAuth`: a non-string, non-null object whose
      `sub` is a non-empty string and whose `role` is `'admin'` or `'user'`.
      The principal is the payload itself. */
  function AcceptStrict(d: Verified): (r: Option<Principal>)
    ensures r.Some? <==> d.ObjectPayload? && d.sub.Str? && d.sub.s != "" && ParseRole(d.role).Some?
    ensures r.Some? ==> PayloadOf(r.value) == d
  {
    match d
    case ObjectPayload(sub, role) =>
      if sub.Str? && sub.s != "" && ParseRole(role).Some? then Some(Principal(sub, ParseRole(role).value)) else None
    case _ => None
  }

  /** The payload check of `optionalAuth`: a non-string object whose `sub` is
      merely truthy and whose `role` is `'admin'` or `'user'`. */
  function AcceptLenient(d: Verified): (r: Option<Principal>)
    ensures r.Some? <==> d.ObjectPayload? && Truthy(d.sub) && ParseRole(d.role).Some?
    ensures r.Some? ==> PayloadOf(r.value) == d
  {
    match d
    case ObjectPayload(sub, role) =>
      if Truthy(sub) && ParseRole(role).Some? then Some(Principal(sub, ParseRole(role).value)) else None
    case _ => None
  }

  /** Every payload the strict check accepts, the lenient one accepts too,
      with the same principal. */
  lemma StrictImpliesLenient(d: Verified)
    requires AcceptStrict(d).Some?
    ensures AcceptLenient(d) == AcceptStrict(d)
  {
    var p := AcceptStrict(d).value;
    var q := AcceptLenient(d).value;
    ParseRoleExact(d.role);
    assert p.role == q.role;
  }

  /** The two checks differ exactly on a truthy `sub` that is not a string,
      such as a non-zero number. */
  lemma LenientOnlyNonStringSub(d: Verified)
    ensures (AcceptLenient(d).Some? && AcceptStrict(d).None?)
        <==> (d.ObjectPayload? && Truthy(d.sub) && !d.sub.Str? && ParseRole(d.role).Some?)
  {
  }

  /** The converse of `StrictImpliesLenient` fails: `{sub: 7, role: 'user'}`
      passes the lenient check and not the strict one. */
  lemma NumericSubOnlyLenient()
    ensures AcceptLenient(ObjectPayload(Num(Finite(7)), Str("user"))) == Some(Principal(Num(Finite(7)), User))
    ensures AcceptStrict(ObjectPayload(Num(Finite(7)), Str("user"))).None?
  {
  }

  /** The claims the server itself signs are accepted by both checks
      whenever the subject is non-empty, and yield that subject and role. */
  lemma IssuedClaimsAccepted(c: Claims)
    requires c.sub != ""
    ensures AcceptStrict(DecodedClaims(c)) == Some(Principal(Str(c.sub), c.role))
    ensures AcceptLenient(DecodedClaims(c)) == Some(Principal(Str(c.sub), c.role))
  {
    StrictImpliesLenient(DecodedClaims(c));
  }
}
