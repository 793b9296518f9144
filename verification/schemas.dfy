/** The request-body and route-parameter schemas, as explicit predicates.
    E-mail and URL syntax are decided by an oracle (`Formats`); length bounds
    count characters. */
module Schemas {
  import opened Js
  import opened Options
  import opened Http
  import opened Roles
  import opened Discoveries

  /** The format checks of the validation library, left uninterpreted. */
  datatype Formats = Formats(isEmail: string -> bool, isUrl: string -> bool)

  /** `z.string().min(lo).max(hi)` */
  predicate StringBetween(v: JsVal, lo: nat, hi: nat) {
    v.Str? && lo <= |v.s| <= hi
  }

  /** `z.string().min(lo)` */
  predicate StringAtLeast(v: JsVal, lo: nat) {
    v.Str? && |v.s| >= lo
  }

  /** `z.string().optional()`: absent, or any string (null is refused). */
  predicate OptionalString(v: JsVal) {
    v.Undefined? || v.Str?
  }

  /** The string of a field known to hold one; None when it is absent. */
  function OptionalText(v: JsVal): (r: Option<string>)
    requires OptionalString(v)
    ensures r.None? <==> v.Undefined?
    ensures r.Some? ==> v == Str(r.value)
  {
    if v.Str? then Some(v.s) else None
  }

  /** The optional text `o` is what the field value `v` carries: absent
      exactly when the field is, and otherwise the field's own string. */
  predicate ReadsAs(o: Option<string>, v: JsVal) {
    (o.None? <==> v.Undefined?) && (o.Some? ==> v == Str(o.value))
  }

  // ---------------------------------------------------------------------
  // The image-URL rule of the update schema:
  //   /^https?:\/\/.+\.(jpg|jpeg|png|webp)(\?.*)?$/i

  /** The characters the regular-expression `.` does not match. */
  predicate IsLineBreak(c: char) {
    c == '\n' || c == '\r' || c == '\U{2028}' || c == '\U{2029}'
  }

  predicate NoLineBreak(s: string) {
    forall i :: 0 <= i < |s| ==> !IsLineBreak(s[i])
  }

  /** `u` is the extension `e` followed by nothing or by a query string. */
  predicate ExtensionThenQuery(u: string, e: string) {
    StartsWith(u, e) && (|u| == |e| || u[|e|] == '?')
  }

  /** `(jpg|jpeg|png|webp)(\?.*)?$` on a line-break-free string. */
  predicate ImageTail(u: string) {
    || ExtensionThenQuery(u, "jpg")
    || ExtensionThenQuery(u, "jpeg")
    || ExtensionThenQuery(u, "png")
    || ExtensionThenQuery(u, "webp")
  }

  /** Length of the `http://` or `https://` scheme at the start of an already
      lower-cased string, or 0 when there is none. */
  function SchemeLength(t: string): (n: nat)
    ensures n == 0 || n == 7 || n == 8
    ensures n > 0 ==> n <= |t|
  {
    if StartsWith(t, "https://") then 8 else if StartsWith(t, "http://") then 7 else 0
  }

  /** The case-insensitive image-URL pattern: a scheme, at least one
      character, a dot, one of the four image extensions and an optional
      query string, with no line break anywhere after the scheme. */
  predicate ImageUrlPattern(s: string) {
    LowerCaseImageUrl(Lower(s))
  }

  /** The image-URL pattern on an already lower-cased string. */
  predicate LowerCaseImageUrl(t: string) {
    var n := SchemeLength(t);
    && n > 0
    && NoLineBreak(t[n..])
    && exists d :: n + 1 <= d < |t| && t[d] == '.' && ImageTail(t[d + 1..])
  }

  /** The pattern ignores case: a URL matches exactly when its lower-cased
      form does. */
  lemma ImageUrlCaseInsensitive(s: string)
    ensures ImageUrlPattern(s) == ImageUrlPattern(Lower(s))
  {
    LowerIdempotent(s);
  }

  predicate NoUpperCase(s: string) {
    forall i :: 0 <= i < |s| ==> !('A' <= s[i] <= 'Z')
  }

  lemma LowerOfLowerCase(s: string)
    requires NoUpperCase(s)
    ensures Lower(s) == s
  {
  }

  lemma NoUpperCaseConcat(a: string, b: string)
    requires NoUpperCase(a) && NoUpperCase(b)
    ensures NoUpperCase(a + b)
  {
    forall i | 0 <= i < |a + b|
      ensures !('A' <= (a + b)[i] <= 'Z')
    {
      if i >= |a| {
        assert (a + b)[i] == b[i - |a|];
      }
    }
  }

  lemma NoLineBreakConcat(a: string, b: string)
    requires NoLineBreak(a) && NoLineBreak(b)
    ensures NoLineBreak(a + b)
  {
    forall i | 0 <= i < |a + b|
      ensures !IsLineBreak((a + b)[i])
    {
      if i >= |a| {
        assert (a + b)[i] == b[i - |a|];
      }
    }
  }

  /** The tail `.ext?query` after the host, on its own. */
  lemma ImageTailOfParts(ext: string, query: string)
    requires ext == "jpg" || ext == "jpeg" || ext == "png" || ext == "webp"
    requires query == "" || query[0] == '?'
    ensures ImageTail(ext + query)
  {
    assert (ext + query)[..|ext|] == ext;
    if query != "" {
      assert (ext + query)[|ext|] == query[0];
    }
  }

  lemma PartsNoUpperCase(host: string, ext: string, query: string)
    requires NoUpperCase(host) && NoUpperCase(query)
    requires ext == "jpg" || ext == "jpeg" || ext == "png" || ext == "webp"
    ensures NoUpperCase("https://" + host + "." + ext + query)
  {
    assert NoUpperCase(ext);
    NoUpperCaseConcat("https://", host);
    NoUpperCaseConcat("https://" + host, ".");
    NoUpperCaseConcat("https://" + host + ".", ext);
    NoUpperCaseConcat("https://" + host + "." + ext, query);
  }

  lemma HttpsScheme(rest: string)
    ensures SchemeLength("https://" + rest) == 8
    ensures ("https://" + rest)[8..] == rest
  {
    assert ("https://" + rest)[..8] == "https://";
  }

  lemma LowerCaseImageUrlFromParts(host: string, ext: string, query: string)
    requires host != "" && NoLineBreak(host)
    requires ext == "jpg" || ext == "jpeg" || ext == "png" || ext == "webp"
    requires query == "" || (query[0] == '?' && NoLineBreak(query))
    ensures LowerCaseImageUrl("https://" + host + "." + ext + query)
  {
    var tail := "." + (ext + query);
    var rest := host + tail;
    var s := "https://" + rest;
    assert s == "https://" + host + "." + ext + query;
    assert NoLineBreak(ext);
    NoLineBreakConcat(ext, query);
    NoLineBreakConcat(".", ext + query);
    NoLineBreakConcat(host, tail);
    HttpsScheme(rest);
    var d := 8 + |host|;
    assert s[d..] == tail;
    assert s[d] == '.';
    assert s[d + 1..] == tail[1..] == ext + query;
    ImageTailOfParts(ext, query);
  }

  /** Every `https://host.ext` or `https://host.ext?query` with a non-empty
      host, one of the four image extensions and no line break is accepted. */
  lemma ImageUrlFromParts(host: string, ext: string, query: string)
    requires host != "" && NoLineBreak(host) && NoUpperCase(host)
    requires ext == "jpg" || ext == "jpeg" || ext == "png" || ext == "webp"
    requires query == "" || (query[0] == '?' && NoLineBreak(query) && NoUpperCase(query))
    ensures ImageUrlPattern("https://" + host + "." + ext + query)
  {
    PartsNoUpperCase(host, ext, query);
    LowerOfLowerCase("https://" + host + "." + ext + query);
    LowerCaseImageUrlFromParts(host, ext, query);
  }

  /** Only `http` and `https` URLs are accepted. */
  lemma ImageUrlRejectsOtherScheme()
    ensures !ImageUrlPattern("ftp://cdn.io/a.png")
  {
    var s := "ftp://cdn.io/a.png";
    LowerOfLowerCase(s);
    assert s[0] != "https://"[0] && s[0] != "http://"[0];
    assert s[..8] != "https://" && s[..7] != "http://";
    assert SchemeLength(s) == 0;
  }

  /** Other extensions are refused. */
  lemma ImageUrlRejectsGif()
    ensures !ImageUrlPattern("http://a.gif")
  {
    var s := "http://a.gif";
    LowerOfLowerCase(s);
    assert s[4] != "https://"[4];
    assert s[..8] != "https://";
    assert s[..7] == "http://";
    forall d | 8 <= d < |s| && s[d] == '.'
      ensures !ImageTail(s[d + 1..])
    {
      assert d == 8 by {
        assert s[9] != '.' && s[10] != '.' && s[11] != '.';
      }
      assert s[9..] == "gif";
    }
  }

  // ---------------------------------------------------------------------
  // asterium.schema.ts

  /** `image_url` on create: a URL, the empty string, or absent. */
  predicate CreateImageUrlOk(v: JsVal, f: Formats) {
    v.Undefined? || (v.Str? && (v.s == "" || f.isUrl(v.s)))
  }

  /** `image_url` on update: absent, empty, or matching the image pattern. */
  predicate UpdateImageUrlOk(v: JsVal) {
    v.Undefined? || (v.Str? && (v.s == "" || ImageUrlPattern(v.s)))
  }

  /** `status`: absent, or one of the three status strings. */
  predicate OptionalStatus(v: JsVal) {
    v.Undefined? || ParseStatus(v).Some?
  }

  /** The create-discovery schema. */
  predicate ValidNewDiscovery(b: Body, f: Formats) {
    && StringBetween(Field(b, "title"), 3, 200)
    && OptionalString(Field(b, "excerpt"))
    && StringAtLeast(Field(b, "content_md"), 10)
    && OptionalStatus(Field(b, "status"))
    && CreateImageUrlOk(Field(b, "image_url"), f)
  }

  /** The update-discovery schema: every field optional, the create bounds
      on whichever are present, and the image pattern on `image_url`. */
  predicate ValidDiscoveryPatch(b: Body) {
    && (Field(b, "title").Undefined? || StringBetween(Field(b, "title"), 3, 200))
    && OptionalString(Field(b, "excerpt"))
    && (Field(b, "content_md").Undefined? || StringAtLeast(Field(b, "content_md"), 10))
    && OptionalStatus(Field(b, "status"))
    && UpdateImageUrlOk(Field(b, "image_url"))
  }

  /** Parses a create body: the typed fields are the body's own values. */
  function ParseNewDiscovery(b: Body, f: Formats): (r: Option<NewDiscovery>)
    ensures r.Some? <==> ValidNewDiscovery(b, f)
    ensures r.Some? ==>
              && Field(b, "title") == Str(r.value.title) && 3 <= |r.value.title| <= 200
              && Field(b, "content_md") == Str(r.value.contentMd) && |r.value.contentMd| >= 10
              && (r.value.status.Some? ==> Field(b, "status") == Str(StatusName(r.value.status.value)))
              && (r.value.status.None? <==> Field(b, "status").Undefined?)
              && ReadsAs(r.value.excerpt, Field(b, "excerpt"))
              && (r.value.imageUrl.Some? ==> Field(b, "image_url") == Str(r.value.imageUrl.value))
              && (r.value.imageUrl.None? <==> Field(b, "image_url").Undefined?)
  {
    if !ValidNewDiscovery(b, f) then None
    else
      var image := Field(b, "image_url");
      Some(NewDiscovery(
        Field(b, "title").s,
        OptionalText(Field(b, "excerpt")),
        Field(b, "content_md").s,
        ParseStatus(Field(b, "status")),
        if image.Str? then Some(image.s) else None))
  }

  /** Parses an update body: a present field becomes `Some` of its value,
      an absent one `None`. */
  function ParseDiscoveryPatch(b: Body): (r: Option<DiscoveryPatch>)
    ensures r.Some? <==> ValidDiscoveryPatch(b)
    ensures r.Some? ==>
              && ReadsAs(r.value.title, Field(b, "title"))
              && (r.value.title.Some? ==> 3 <= |r.value.title.value| <= 200)
              && ReadsAs(r.value.excerpt, Field(b, "excerpt"))
              && ReadsAs(r.value.contentMd, Field(b, "content_md"))
              && (r.value.contentMd.Some? ==> |r.value.contentMd.value| >= 10)
              && ReadsAs(r.value.imageUrl, Field(b, "image_url"))
              && (r.value.imageUrl.Some? ==> r.value.imageUrl.value == "" || ImageUrlPattern(r.value.imageUrl.value))
              && (r.value.status.None? <==> Field(b, "status").Undefined?)
              && (r.value.status.Some? ==> Field(b, "status") == Str(StatusName(r.value.status.value)))
  {
    if !ValidDiscoveryPatch(b) then None
    else
      Some(DiscoveryPatch(
        OptionalText(Field(b, "title")),
        OptionalText(Field(b, "excerpt")),
        OptionalText(Field(b, "content_md")),
        ParseStatus(Field(b, "status")),
        OptionalText(Field(b, "image_url"))))
  }

  /** An empty update body is valid: nothing is required on update. */
  lemma EmptyPatchValid()
    ensures ParseDiscoveryPatch(map[]) == Some(DiscoveryPatch(None, None, None, None, None))
  {
  }

  /** A create body with no image URL is also a valid update body: the update
      schema only relaxes presence, never the bounds. */
  lemma NewDiscoveryIsPatch(b: Body, f: Formats)
    requires ValidNewDiscovery(b, f)
    requires Field(b, "image_url").Undefined? || Field(b, "image_url") == Str("")
    ensures ValidDiscoveryPatch(b)
  {
  }

  /** The id parameter: `z.coerce.number().int().positive()`. */
  function ParseIdParam(params: Body): (r: Option<int>)
    ensures r.Some? <==> ToNumber(Field(params, "id")).Finite? && ToNumber(Field(params, "id")).v > 0
    ensures r.Some? ==> r.value > 0 && ToNumber(Field(params, "id")) == Finite(r.value)
  {
    var n := ToNumber(Field(params, "id"));
    if n.Finite? && n.v > 0 then Some(n.v) else None
  }

  /** The printed form of every positive id passes the id schema. */
  lemma IdParamOfPrintedId(id: int)
    requires id > 0
    ensures ParseIdParam(map["id" := Str(IntToString(id))]) == Some(id)
  {
    StringToNumberOfIntToString(id);
  }

  /** An id that reads as NaN is refused. */
  lemma IdParamRejectsNaN(s: string)
    requires StringToNumber(s) == NaN
    ensures ParseIdParam(map["id" := Str(s)]).None?
  {
  }

  /** `"not-a-number"` is refused. */
  lemma IdParamRejectsText()
    ensures ParseIdParam(map["id" := Str("not-a-number")]).None?
  {
    var s := "not-a-number";
    TrimOfTrimmed(s);
    NumericLiteralNaN(s);
    IdParamRejectsNaN(s);
  }

  // ---------------------------------------------------------------------
  // auth.schema.ts and the create-user body of the admin routes

  /** The registration schema. */
  predicate ValidRegistration(b: Body, f: Formats) {
    && Field(b, "email").Str? && f.isEmail(Field(b, "email").s) && |Field(b, "email").s| <= 191
    && StringBetween(Field(b, "username"), 3, 50)
    && StringAtLeast(Field(b, "password"), 5)
    && (Field(b, "display_name").Undefined? || StringBetween(Field(b, "display_name"), 0, 100))
  }

  /** The login schema. */
  predicate ValidLogin(b: Body, f: Formats) {
    && Field(b, "email").Str? && f.isEmail(Field(b, "email").s)
    && StringAtLeast(Field(b, "password"), 5)
  }

  /** The inline schema of `POST /users`. */
  predicate ValidNewUser(b: Body, f: Formats) {
    && Field(b, "email").Str? && f.isEmail(Field(b, "email").s)
    && Field(b, "username").Str?
    && StringAtLeast(Field(b, "password"), 6)
    && (Field(b, "role").Undefined? || ParseRole(Field(b, "role")).Some?)
  }

  /** Credentials that pass registration pass login. */
  lemma RegistrationPassesLogin(b: Body, f: Formats)
    requires ValidRegistration(b, f)
    ensures ValidLogin(b, f)
  {
  }

  /** A password of exactly five characters registers but cannot be used to
      create a user from the admin routes, which ask for six. */
  lemma FiveCharacterPassword(f: Formats)
    requires f.isEmail("a@b.co")
    ensures ValidRegistration(map["email" := Str("a@b.co"), "username" := Str("ana"), "password" := Str("12345")], f)
    ensures !ValidNewUser(map["email" := Str("a@b.co"), "username" := Str("ana"), "password" := Str("12345")], f)
  {
    var b := map["email" := Str("a@b.co"), "username" := Str("ana"), "password" := Str("12345")];
    assert Field(b, "password") == Str("12345");
    assert Field(b, "display_name").Undefined?;
  }
}
