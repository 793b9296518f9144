# Aster-Server authentication and authorization, in Dafny

Aster-Server is an Express back end for an astronomy blog ("Asterium 360"):
users register and log in with a JSON Web Token, publish *discoveries*
(posts), send contact messages, and administrators manage users. This
project models the part of it that decides who may do what:

- the request guards `requireAuth`, `requireAdmin`, `optionalAuth` and
  `checkRole`, with the token verifier as an oracle that throws or returns a
  string, `null`, or an object with `sub` and `role`;
- the guard pipeline each route mounts in front of its handler, and the
  `validate` middleware those pipelines use;
- the credential flows `register`, `login` and `promoteToAdmin` over a table
  of users, with hashing, password comparison and token signing as oracles;
- the discovery handlers: feed size clamp and ordering, creation with the
  author taken from the token, ownership checks after the not-found check,
  the whitelisted merge of an update and the write-once publication time;
- the admin user handlers: `ensureAdmin`, listing with pagination
  arithmetic, creation, update, deletion and role change with their
  self-protection checks, activation, the public profile and the avatar
  initial;
- the contact form: body validity, the row it stores, and when mail is sent;
- the zod schemas, as explicit predicates, with the image-URL regular
  expression written out as a string predicate;
- the legacy `User.ts` model: e-mail normalisation, the "looks hashed" rule
  of the save hook, the role column and the attribute scopes.

The JavaScript semantics the handlers lean on are written out in `js.dfy`:
truthiness, `||` and `??`, `String(x)`, `Number(x)`, `parseInt(s, 10)`,
`trim`, `toLowerCase` and `toUpperCase`. Tables are maps from id to row.
Every handler is a pure function from a table and a request to a new table
and a reply (`Http.Effect`). A reply is a status with a value, a status with
an error message, or `Unhandled` when an exception escapes the handler.

The `validate` middleware, as written, checks a wrapper object instead of
the request part its schema describes, so it refuses nearly every request
(first row of "Findings"). The route pipeline `Routes.RunPipeline`, and
every `Routes` lemma about what a route lets through, use the corrected
reading; the as-written reading is modelled beside it
(`Routes.ValidateAsWritten`).

Likewise, `deleteUser` and `setUserRole`, as written, compare the caller's
subject with the requested id as text (`String(sub) === String(id)`) but
act on the row `Number(id)` names, so an admin whose subject is `"7"` can
delete or demote their own row by asking for `07` (second and third rows of
"Findings"; `UserController.DeleteUserAsWritten`,
`UserController.SetUserRoleAsWritten`). `UserController.DeleteUser` and
`UserController.SetUserRole` use the intended numeric self-check, and
`Routes.ServeDeleteUser` runs `UserController.DeleteUser`; so the self-row
guarantees of those members, and of `Routes.DeleteUserRouteSafe`, hold for
the intended program. As written, the same `DELETE /users/:id` route lets an
admin remove their own row through `07`: the guards admit any admin
(`Routes.UserRoutesAdminOnly`), and `UserController.DeleteUserAsWrittenDeletesSelf`
shows the handler then deletes it.

Modules, one per file: `Options`, `Js`, `Http`, `Roles`, `Tokens`,
`Middleware`, `Users`, `UserModel`, `AuthController`, `Discoveries`,
`Schemas`, `AsteriumController`, `UserController`, `ContactController` and
`Routes`.

## Model

| member | source | states |
|---|---|---|
| Middleware.BearerToken | src/middlewares/auth.ts:20-22 | a token exists exactly when the header starts with `"Bearer "` and has more after it; the token is that non-empty suffix and the header is prefix plus token |
| Middleware.RequireAuth | src/middlewares/auth.ts:19-44 | no token gives 401 `No token`; a throwing verifier gives 401 `Token inválido`; the request goes on exactly when the strict payload check accepts; the attached principal's payload is the verifier's result; every rejection is 401 |
| Middleware.RequireAdmin | src/middlewares/auth.ts:46-52 | no principal gives 401 `No auth`, checked before the role; a non-admin gives 403 `Sin permisos`; the request goes on, unchanged, exactly for an admin |
| Middleware.OptionalAuth | src/middlewares/optionalAuth.ts:7-21 | it never rejects and keeps the header; without the prefix nothing changes; the principal changes only to what the lenient check accepts, and is set whenever that check accepts |
| Middleware.CheckRoleOn | src/middlewares/checkRole.ts:3-23 | an exception while reading the principal gives 500; no principal gives 401 `No autenticado`; a role outside the list gives 403 `No tienes permisos suficientes`; the request goes on, unchanged, exactly when the role is in the list |
| Middleware.CheckRole | src/middlewares/checkRole.ts:8-16 | goes on exactly when the principal's role is in the list; 401 exactly when there is no principal, otherwise 403 |
| Middleware.CheckRoleMonotone | src/middlewares/checkRole.ts:12 | widening the allowed roles never turns a pass into a rejection |
| Middleware.CheckRoleAllRolesAdmitsEveryPrincipal | src/middlewares/checkRole.ts:12 | `checkRole(['admin','user'])` passes every principal through unchanged |
| Middleware.CheckRoleAdminMatchesRequireAdmin | src/middlewares/checkRole.ts:8-16 | `checkRole(['admin'])` and `requireAdmin` pass the same requests and answer with the same statuses |
| Middleware.RequireAuthRefinesOptionalAuth | src/middlewares/optionalAuth.ts:9-16 | whatever `requireAuth` accepts, `optionalAuth` attaches identically; without the prefix one answers 401 `No token` and the other passes anonymously |
| Tokens.PayloadOf | src/middlewares/auth.ts:39 | the payload a principal came from is an object with the same subject and a role field naming the same role |
| Tokens.DecodedClaims | src/controllers/auth.controller.ts:26 | the payload of a signed claim set carries its subject as a string and its role by name |
| Tokens.AcceptStrict | src/middlewares/auth.ts:28-36 | a payload is accepted exactly when it is an object whose `sub` is a non-empty string and whose `role` is `admin` or `user`; the principal reproduces the payload |
| Tokens.AcceptLenient | src/middlewares/optionalAuth.ts:14-16 | a payload is accepted exactly when it is an object with a truthy `sub` and a role of `admin` or `user` |
| Tokens.StrictImpliesLenient | src/middlewares/optionalAuth.ts:14 | every payload the strict check accepts, the lenient check accepts with the same principal |
| Tokens.LenientOnlyNonStringSub | src/middlewares/auth.ts:31-33 | the payloads only the lenient check accepts are exactly those whose truthy `sub` is not a string |
| Tokens.NumericSubOnlyLenient | src/middlewares/optionalAuth.ts:14 | a numeric subject 7 is accepted leniently and refused strictly |
| Tokens.IssuedClaimsAccepted | src/controllers/auth.controller.ts:67-71 | the payload of every token the server signs with a non-empty subject passes both checks as that subject and role |
| Roles.RoleName | src/models/User.ts:49-58 | the role's name parses back to the role |
| Roles.ParseRole | src/middlewares/auth.ts:33 | a value names a role exactly when it is the string `admin` or `user`, and names the admin role exactly for `admin` |
| Roles.ParseRoleExact | src/middlewares/auth.ts:33 | a value that parses as a role is that role's name |
| Roles.RoleOfId | src/controllers/auth.controller.ts:66 | `role_id` 1 is admin and every other id is user |
| Roles.IdOfRole | src/controllers/user.controller.ts:266 | the id of a role maps back to that role and is 1 or 2 |
| Roles.IdOfRoleValue | src/controllers/user.controller.ts:298 | any value is stored as 1 exactly when it is `admin`, otherwise 2, in agreement with the role it names |
| Roles.RoleFilter | src/controllers/user.controller.ts:217-218 | the list filter constrains `role_id` exactly when the query names a role, and then to that role's id |
| Roles.StoredRoleRoundTrip | src/controllers/user.controller.ts:339 | storing a role value and reading it back yields admin exactly for `admin`, and the named role whenever one is named |
| Http.Field | src/controllers/auth.controller.ts:8 | reading a missing body key yields `undefined`, a present one its value |
| Users.FindByEmail | src/controllers/auth.controller.ts:14 | a row is found exactly when the e-mail is taken, and it is the table's row with that e-mail |
| Js.FindByPk | src/controllers/auth.controller.ts:92 | a row is found exactly when `Number(id)` is a finite key of the table, and it is that row (the same lookup serves discoveries and users) |
| Users.InsertPreservesWf | src/controllers/user.controller.ts:262-274 | adding a row under a fresh id with an unused e-mail and username keeps ids, e-mails and usernames unique |
| Users.ReplacePreservesWf | src/controllers/auth.controller.ts:95-96 | saving a row that keeps its id, e-mail and username keeps the table well formed |
| Users.RemovePreservesWf | src/controllers/user.controller.ts:318 | removing any row keeps the table well formed |
| UserModel.NormalizeEmail | src/models/User.ts:28-31 | the stored e-mail is no longer than the text given and has no upper-case ASCII letter |
| UserModel.NormalizeEmailMatchesLogin | src/controllers/auth.controller.ts:52 | the model's trim-then-lowercase equals login's lowercase-then-trim |
| UserModel.NormalizeEmailTrimmed | src/models/User.ts:30 | a normalised e-mail neither starts nor ends with white space |
| UserModel.NormalizeEmailIdempotent | src/models/User.ts:30 | normalising an already normalised e-mail changes nothing |
| UserModel.RawPassword | src/models/User.ts:77 | a falsy password reads as the empty text and a string as itself |
| UserModel.BeforeSave | src/models/User.ts:75-84 | the stored password changes only when it changed and does not look hashed, and then becomes the hash of its raw text |
| UserModel.BeforeSaveIdempotent | src/models/User.ts:78-82 | when hashes look hashed, saving an already saved password again leaves it as it is |
| UserModel.CheckPassword | src/models/User.ts:87-90 | a missing stored hash is compared as the empty text |
| UserModel.CheckPasswordAfterSave | src/models/User.ts:87-90 | a raw password saved through the hook is accepted by `checkPassword`, given a comparison that accepts each text's hash |
| UserModel.ValidateRole | src/models/User.ts:49-58 | an absent role stores `user`; a stored role is one of the two names; a present non-null value other than the two names is rejected, and only those |
| UserModel.LegacyRole | src/models/User.ts:53-55 | a stored role string maps to the role with exactly that name |
| UserModel.VisibleAttributes | src/models/User.ts:63-69 | the password column is visible exactly in the `withPassword` scope, and no other column is hidden |
| AuthController.IssuedAt | src/controllers/auth.controller.ts:26 | the issue time is the whole number of seconds in the clock's milliseconds |
| Users.OptionalColumn | src/controllers/auth.controller.ts:21 | `display_name` is stored as null exactly when it is absent or null, and a string as itself |
| AuthController.RegisteredRow | src/controllers/auth.controller.ts:20-21 | the new row has the fresh id, the user role, the e-mail and username sent, and the hash of the password |
| AuthController.Register | src/controllers/auth.controller.ts:6-40 | falsy fields give 400 with no change; 409 `Email en uso` exactly for a taken e-mail, before 409 `Username en uso` for a taken username; the table changes only by the new row; with complete fields and an unused e-mail and username, a non-string password gives 500 `Error interno del servidor` with no change (native `bcrypt.hash` rejects it), and a string password always stores the new row, and then the answer is a success exactly when the secret is set and 500 `Falta JWT_SECRET` otherwise; success is 201 with a token signed over the new id as text and the user role |
| AuthController.Login | src/controllers/auth.controller.ts:43-86 | falsy fields give 400; an unknown e-mail and a wrong password give the same 401 `Credenciales inválidas`, exactly when the e-mail is unknown or a string password does not match; a known e-mail with a non-string password gives 500 `Error interno del servidor` (native `bcrypt.compare` rejects it); when a string password matches, the answer is a success exactly when the secret is set and 500 `Falta JWT_SECRET` otherwise; success means a secret exists and the token and the account carry the same role, mapped from that row's `role_id` |
| AuthController.PromoteToAdmin | src/controllers/auth.controller.ts:90-99 | an unknown id gives 404 with no change; otherwise only that row's `role_id` becomes 1, every other row and the set of ids stay as they were |
| AuthController.PromoteIdempotent | src/controllers/auth.controller.ts:95 | promoting twice leaves the same table as promoting once |
| AuthController.PromotePreservesWf | src/controllers/auth.controller.ts:95-96 | promotion keeps the user table well formed |
| AuthController.LoginTokenPassesRequireAuth | src/middlewares/auth.ts:19-44 | with the secret set, matching credentials with a non-empty string password log in, and with a verifier that undoes signing the token passes `requireAuth` as the row's id and mapped role |
| AuthController.RegisterThenLogin | src/controllers/auth.controller.ts:43-77 | with the secret set, a complete registration with a string password, an unused, normalised e-mail and an unused username succeeds, and logging in with the same body then succeeds as the new user with the user role |
| Discoveries.StatusName | src/models/Asterium.ts:12 | a status's name parses back to that status |
| Discoveries.ParseStatus | src/schemas/asterium.schema.ts:13 | a value is a status exactly when it is `draft`, `published` or `archived` |
| Schemas.OptionalText | src/schemas/asterium.schema.ts:6 | an optional text field is absent exactly when undefined, and otherwise is the string given |
| Schemas.ImageUrlCaseInsensitive | src/schemas/asterium.schema.ts:37 | the image-URL pattern gives the same answer for a text and its lower-case form |
| Schemas.ImageUrlFromParts | src/schemas/asterium.schema.ts:37 | `https://` + a host + `.` + jpg, jpeg, png or webp + an optional `?` query matches the pattern |
| Schemas.ImageUrlRejectsOtherScheme | src/schemas/asterium.schema.ts:37 | an `ftp://` address does not match |
| Schemas.ImageUrlRejectsGif | src/schemas/asterium.schema.ts:37 | a `.gif` address does not match |
| Schemas.ParseNewDiscovery | src/schemas/asterium.schema.ts:4-21 | a create body parses exactly when it is valid; the title has 3 to 200 characters, the content at least 10, the status is the one named or absent when the body had none |
| Schemas.ParseDiscoveryPatch | src/schemas/asterium.schema.ts:24-43 | an update body parses exactly when it is valid; each of the five fields is absent exactly when undefined in the body and otherwise holds the body's own value (the status by name); present fields keep their bounds; an image is empty or matches the pattern |
| Schemas.EmptyPatchValid | src/schemas/asterium.schema.ts:24-28 | the empty update body is valid and changes nothing |
| Schemas.NewDiscoveryIsPatch | src/schemas/asterium.schema.ts:24-28 | a valid create body without an image is also a valid update body |
| Schemas.ParseIdParam | src/schemas/asterium.schema.ts:45-47 | the id parameter is accepted exactly when `Number(id)` is a positive integer, and then is that integer |
| Schemas.IdParamOfPrintedId | src/schemas/asterium.schema.ts:45-47 | every positive id printed in decimal is accepted as itself |
| Schemas.IdParamRejectsNaN | src/schemas/asterium.schema.ts:46 | any text that `Number` reads as NaN is refused |
| Schemas.IdParamRejectsText | src/schemas/asterium.schema.ts:46 | `"not-a-number"` is refused |
| Schemas.RegistrationPassesLogin | src/schemas/auth.schema.ts:20-25 | every valid registration body is a valid login body |
| Schemas.FiveCharacterPassword | src/schemas/auth.schema.ts:13-15 | a five-character password registers but is too short for the admin create-user schema |
| AsteriumController.ListLimit | src/controllers/asterium.controller.ts:10-11 | the feed size is always 1 to 50: 20 when `Number(limit)` is not finite, the number when in range, else the nearer bound |
| AsteriumController.ListLimitStable | src/controllers/asterium.controller.ts:11 | asking again with the size that came out gives that size |
| AsteriumController.AtLeastAsRecentTotal | src/controllers/asterium.controller.ts:15 | the feed order compares any two publication times |
| AsteriumController.AtLeastAsRecentTransitive | src/controllers/asterium.controller.ts:15 | the feed order is transitive |
| AsteriumController.MostRecentExists | src/controllers/asterium.controller.ts:15 | every non-empty set of rows has a most recent one |
| AsteriumController.ListPublished | src/controllers/asterium.controller.ts:7-23 | the feed holds min(size, number of published rows) distinct published rows from the table, newest first, and no published row left out is newer than one shown |
| AsteriumController.GetDiscovery | src/controllers/asterium.controller.ts:35-51 | 200 with the row exactly when it exists, otherwise 404 `Descubrimiento no encontrado` |
| AsteriumController.NewRow | src/controllers/asterium.controller.ts:63-69 | the new row's author is the token subject, its image the uploaded file whatever the body says, its status the one given or draft, and it has a publication time exactly when created published |
| AsteriumController.CreateDiscovery | src/controllers/asterium.controller.ts:54-80 | a subject that reads as 0 or NaN gives 401 with no change; it succeeds exactly for a finite non-zero subject, with 201 and only the new row added; every failure is answered |
| AsteriumController.OwnershipOfIssuedSubject | src/controllers/asterium.controller.ts:119 | for a plain user holding a server-issued token, the ownership check holds exactly on their own discoveries |
| AsteriumController.ApplyPatch | src/controllers/asterium.controller.ts:124-137 | id and author never change; each whitelisted field changes only when provided; an empty image clears it; a set publication time is kept; an unset one is stamped exactly when the new status is published |
| AsteriumController.EmptyPatchIdentity | src/controllers/asterium.controller.ts:124-132 | an update providing nothing leaves the row as it was |
| AsteriumController.ApplyPatchIdempotent | src/controllers/asterium.controller.ts:124-137 | applying the same update twice, at any two times, equals applying it once |
| AsteriumController.PublishedAtWriteOnce | src/controllers/asterium.controller.ts:135-137 | once set, the publication time survives every update |
| AsteriumController.UpdateDiscovery | src/controllers/asterium.controller.ts:113-145 | 404 first for an unknown id; then 500 without a principal; 403 exactly for a principal who is neither admin nor author; otherwise 200 with the merged row written back and nothing else changed |
| AsteriumController.DeleteDiscovery | src/controllers/asterium.controller.ts:149-160 | 404 first for an unknown id; then an escaping exception without a principal; 403 exactly for a non-owner; otherwise 204 with exactly that row removed |
| AsteriumController.AuthorControlsOwnDiscovery | src/controllers/asterium.controller.ts:119-121 | a plain user with a server-issued token may update and delete a discovery exactly when they wrote it |
| UserController.EnsureAdmin | src/controllers/user.controller.ts:187-193 | it allows exactly a present principal with the admin role |
| UserController.EnsureAdminMatchesCheckRole | src/controllers/user.controller.ts:188 | `ensureAdmin` allows exactly the requests `checkRole(['admin'])` passes |
| UserController.MinusOne | src/controllers/user.controller.ts:222 | subtracting one keeps a number finite exactly when it was, and is one less |
| UserController.Times | src/controllers/user.controller.ts:222 | a product is finite exactly when both factors are, and is their product |
| UserController.CeilDiv | src/controllers/user.controller.ts:238 | with a positive page size the page count is the least count of pages that covers every row |
| UserController.CeilDivLeastCover | src/controllers/user.controller.ts:238 | every row's page index is below the page count, and one page fewer would not cover the rows |
| UserController.Direction | src/controllers/user.controller.ts:227 | the order is ascending exactly when the upper-cased `dir` is `ASC` |
| UserController.DirectionIgnoresCase | src/controllers/user.controller.ts:206 | `asc` and `ASC` sort ascending; a missing `dir` sorts descending |
| UserController.ActiveFilter | src/controllers/user.controller.ts:219-220 | the activity filter is true exactly for `'true'` and false exactly for `'false'` |
| UserController.Default | src/controllers/user.controller.ts:203-206 | a destructuring default applies exactly when the value is undefined |
| UserController.ListUsers | src/controllers/user.controller.ts:196-241 | a non-admin gets 403; an admin gets 200 with the role and activity filters, the direction, offset `(page-1)*pageSize` and a page count that covers the total and is least |
| UserController.ListUsersDefaults | src/controllers/user.controller.ts:203-206 | with no query the listing starts at offset 0 with 20 rows, newest first, unfiltered |
| UserController.GetUser | src/controllers/user.controller.ts:244-250 | 403 for a non-admin; 404 for an unknown id; the row exactly when the admin names an existing id |
| UserController.CreatedRow | src/controllers/user.controller.ts:265-274 | the new row has the e-mail and username sent, the hash of the password, and `role_id` 1 exactly for `admin` |
| UserController.CreateUser | src/controllers/user.controller.ts:253-277 | 403 for a non-admin; 400 for falsy fields; 409 exactly when the e-mail or username is already used, with no change; then a non-string password escapes with no change (native `bcrypt.hash` rejects it); an admin with all three fields truthy, no duplicate and a string password always succeeds, and success adds only the new row with 201 |
| UserController.UpdatedRow | src/controllers/user.controller.ts:289-299 | the id never changes; e-mail, username, password and role change only when truthy; the hash changes only for a new password; `is_active` is coerced to a boolean when present; `display_name` is set when present |
| UserController.UpdateUser | src/controllers/user.controller.ts:280-303 | 403 for a non-admin; 404 for an unknown id; a truthy non-string password (rejected by native `bcrypt.hash`) or a save that breaks uniqueness escapes with no change; an admin updating an existing id with neither always succeeds, writing back the merged row |
| UserController.UpdateUserEmptyBody | src/controllers/user.controller.ts:289-299 | an empty update body returns the row and leaves the table as it was |
| UserController.SelfTargetOnPrintedIds | src/controllers/user.controller.ts:311 | for ids printed in decimal, comparing as text and comparing as numbers agree |
| UserController.DeleteUserWith | src/controllers/user.controller.ts:306-320 | 403 for a non-admin; 400 for a self-deletion before any lookup; 204 exactly when an admin deletes another existing row, which alone is removed |
| UserController.DeleteUserAsWritten | src/controllers/user.controller.ts:311-319 | as written, the self check blocks only a text-equal id, and a success removes the row `Number(id)` names |
| UserController.DeleteUserAsWrittenDeletesSelf | src/controllers/user.controller.ts:311-318 | as written, admin 7 deleting id `"07"` removes their own row |
| UserController.DeleteUser | src/controllers/user.controller.ts:306-320 | with the intended (numeric) self-check: 403 for a non-admin; 400 whenever the id names the caller's own row; success removes only the row named |
| UserController.DeleteUserKeepsOwnRow | src/controllers/user.controller.ts:311-313 | with the intended (numeric) self-check, an admin's own row survives every delete they make |
| UserController.SetUserRoleWith | src/controllers/user.controller.ts:323-343 | 403 for a non-admin; 400 for a role other than `admin` or `user`; 400 for a self-demotion; success exactly for an existing id, storing the id of the named role and only that |
| UserController.SetUserRoleAsWritten | src/controllers/user.controller.ts:332-334 | as written, self-demotion is blocked only for a text-equal id |
| UserController.SetUserRoleAsWrittenDemotesSelf | src/controllers/user.controller.ts:332-339 | as written, admin 7 setting the role of `"07"` to `user` demotes themselves |
| UserController.SetUserRole | src/controllers/user.controller.ts:323-343 | with the intended (numeric) self-check: 403 for a non-admin; 400 for a bad role; 400 whenever the id names the caller's own row and the role is `user`; a success stores the role it reports |
| UserController.SetUserRoleKeepsOwnAdmin | src/controllers/user.controller.ts:332-334 | with the intended (numeric) self-check, an admin never loses the admin role through a role change they make |
| UserController.ToggleActive | src/controllers/user.controller.ts:346-358 | 403 for a non-admin; success exactly for an existing id, setting only that row's `is_active` to the truthiness sent |
| UserController.ProfilePage | src/controllers/user.controller.ts:382 | the profile page is at least 1, 1 when the query reads as falsy, the number itself when it is a whole number of at least 1 |
| UserController.ProfileLimit | src/controllers/user.controller.ts:383 | the profile page size is 1 to 50: 10 when the query reads as falsy, the number itself when in range, 1 for any negative number including `-Infinity`, 50 above fifty including `Infinity` |
| UserController.ProfilePosts | src/controllers/user.controller.ts:395-396 | the posts are exactly the author's discoveries, only published ones unless the status asked for is `all` |
| UserController.GetUserProfile | src/controllers/user.controller.ts:376-439 | 404 exactly for an unknown id; pagination exactly when `includePosts` is `'true'`; then the page and limit are those `ProfilePage` and `ProfileLimit` read from the query, offset `(page-1)*limit`, at least one page, and a page count that covers the total and is least |
| UserController.AvatarInitial | src/controllers/user.controller.ts:466-467 | one character: the upper-cased first letter of the username, or `U` without a user or username |
| UserController.GetUserAvatar | src/controllers/user.controller.ts:451-479 | the avatar always answers 200 with the initial of the row `Number(id)` names |
| UserController.AvatarInitialUpperCase | src/controllers/user.controller.ts:467 | the initial is never a lower-case ASCII letter, and a lower-case first letter becomes its capital |
| ContactController.ContactUserId | src/controllers/contact.controller.ts:26 | no principal gives no user id; otherwise it is `parseInt` of the subject as text |
| ContactController.ContactUserIdOfIssuedSubject | src/controllers/contact.controller.ts:26 | a server-issued subject gives back the user's own id |
| ContactController.ContactRow | src/controllers/contact.controller.ts:27-36 | the stored subject is null exactly when falsy; the source defaults to `contact_form`; the user id comes from the token; the agent is null exactly when missing or empty |
| ContactController.NotificationFor | src/controllers/contact.controller.ts:49-54 | the mail goes to the support address, under the subject given or `Nuevo contacto (#id)` |
| ContactController.PostContact | src/controllers/contact.controller.ts:16-58 | an invalid body gives 422 and stores nothing; a valid one is stored before any mail; the handler throws exactly when mail is configured and delivery fails; every other valid body succeeds with 201, the id and `ok`; the mail is sent exactly when configured and is the notification for the stored row |
| ContactController.NotificationDescribesStoredRow | src/controllers/contact.controller.ts:27-57 | when mail is configured and the form succeeds, the receipt id names the stored row, which keeps the body's message, and the mail goes to the support address under that row's subject or `Nuevo contacto (#id)` |
| ContactController.AnonymousContact | src/controllers/contact.controller.ts:32-35 | a message without a principal and without a source is stored with a null user id and the `contact_form` source |
| Routes.RunGuard | src/middlewares/validate.ts:6-25 | only authentication changes the request, and then attaches a principal; in the corrected reading of `validate`, a validation step passes exactly when its schema holds for the part of the request it describes, else answers 400 `Error de validación` |
| Routes.PipelineConcat | src/routes/asterium.routes.ts:19-23 | running two lists of guards in a row is running their concatenation |
| Routes.PipelineOnlySetsPrincipal | src/routes/asterium.routes.ts:19-23 | guards never change the parameters, query or body a handler sees |
| Routes.PipelineKeepsPrincipal | src/routes/user.routes.ts:16-23 | guards other than authentication pass the request through unchanged |
| Routes.PipelineStopsAreClientErrors | src/middlewares/checkRole.ts:8-16 | every answer a pipeline of guards gives is 400, 401 or 403 |
| Routes.Guards | src/routes/asterium.routes.ts:10-26 | every discovery, user and promotion route starts with authentication; register and login carry only validation |
| Routes.TokenFirst | src/middlewares/auth.ts:19-44 | a pipeline that starts with authentication answers 401 whenever `requireAuth` does, and passes only what `requireAuth` accepts |
| Routes.DiscoveryRoutesNeedToken | src/routes/asterium.routes.ts:10-26 | every discovery route answers 401 without a valid token, and a handler reached sees the principal `requireAuth` attached |
| Routes.DiscoveryWritesOpenToUsers | src/routes/asterium.routes.ts:16-26 | under the corrected `validate`, a plain user's valid token with valid input reaches the create, update and delete handlers |
| Routes.UpdateChecksParamsFirst | src/routes/asterium.routes.ts:19-23 | under the corrected `validate`, with a bad id the update route answers 400 whatever the body holds |
| Routes.UserRoutesAdminOnly | src/routes/user.routes.ts:14-25 | every user route answers 401 without a token and 403 for a plain user, and reaches its handler only with an admin principal |
| Routes.PromoteAdminOnly | src/routes/auth.routes.ts:16 | promotion answers 401 without a token and 403 `Sin permisos` for a plain user, and passes only admins |
| Routes.OpenRoutes | src/routes/auth.routes.ts:10-13 | under the corrected `validate`, register and login pass exactly when the body is valid, whatever the token, and leave the request as it was |
| Routes.ServePromote | src/routes/auth.routes.ts:16 | a rejected promotion answers the guard's status and changes nothing; an admitted one is the handler's effect |
| Routes.PromoteByUserChangesNothing | src/routes/auth.routes.ts:16 | a plain user's promotion request gets 403 and leaves the user table unchanged |
| Routes.ServeDiscoveryWrite | src/routes/asterium.routes.ts:16-26 | a discovery write stopped by a guard changes nothing, and only a request with a valid token ever changes the table |
| Routes.RoutedWritesNeverEscape | src/controllers/asterium.controller.ts:149-160 | through the routes, discovery writes never throw out of their handler |
| Routes.RoutedUpdateHasPrincipal | src/controllers/asterium.controller.ts:119 | through the routes, the update handler never reaches its missing-principal 500 |
| Routes.ServeDeleteUser | src/routes/user.routes.ts:25 | with the intended (numeric) self-check: a deletion stopped by a guard changes nothing; an admitted one is the effect of `UserController.DeleteUser`, with the table well formed |
| Routes.DeleteUserRouteSafe | src/routes/user.routes.ts:25 | with the intended (numeric) self-check, through the route only an admin's token removes a row, only the row the id names, and never the admin's own (as written, `07` removes admin 7's own row) |
| Routes.WrappedInput | src/middlewares/validate.ts:9-13 | the object `validate` checks holds the body, parameters and query as nested objects |
| Routes.ValidateAsWrittenIgnoresRequest | src/middlewares/validate.ts:9-13 | as written, every schema but the update schema refuses every request, and the update schema accepts every request |
| Routes.ValidateReadings | src/middlewares/validate.ts:9-13 | as written, a well-formed registration is refused and the update-schema step accepts an `ftp://` image while the id step in front of it refuses the same request; read as intended, the first two are the opposite |
| Js.OrElse | src/controllers/user.controller.ts:384 | the or-else operator yields its left operand when truthy, otherwise its right one |
| Js.Coalesce | src/controllers/contact.controller.ts:26 | the nullish default `a ?? b` is `b` exactly when `a` is null or undefined, or already equal to `b` |
| Js.DigitsRoundTrip | src/controllers/auth.controller.ts:68 | a natural number's decimal digits read back as that number |
| Js.IntToString | src/controllers/auth.controller.ts:68 | an integer prints as digits, with a leading minus sign when negative |
| Js.IntToStringInjective | src/controllers/user.controller.ts:311 | two integers that print the same are equal |
| Js.TrimStart | src/models/User.ts:30 | trimming the start removes exactly a run of white space from the front |
| Js.TrimEnd | src/models/User.ts:30 | trimming the end removes exactly a run of white space from the back |
| Js.TrimIdempotent | src/models/User.ts:30 | trimming twice equals trimming once |
| Js.StringToNumberOfIntToString | src/controllers/asterium.controller.ts:57 | `Number(String(n))` is `n` for every integer |
| Js.LeadingDigits | src/controllers/contact.controller.ts:26 | the leading digits are the longest run of digits at the front |
| Js.ParseIntOfIntToString | src/controllers/contact.controller.ts:26 | `parseInt(String(n), 10)` is `n` for every integer |
| Js.Lower | src/controllers/auth.controller.ts:52 | lower-casing keeps the length and maps each character on its own |
| Js.Upper | src/controllers/user.controller.ts:227 | upper-casing keeps the length and maps each character on its own |
| Js.LowerIdempotent | src/models/User.ts:30 | lower-casing twice equals lower-casing once |
| Js.TrimLowerCommute | src/controllers/auth.controller.ts:52 | trimming and lower-casing commute |

## Left out

- Token signing, token verification, expiry and password hashing are oracles (`Tokens.Verified`, `AuthController.Crypto`). No cryptography is modelled.
- Of native `bcrypt`'s own failures, only the argument check is modelled (`Users.BcryptAccepts`): a string password is accepted and anything else is rejected. Salt rounds and any failure on a string password are not modelled.
- The clock (`Date.now()`, `new Date()`) is a parameter, as are the ids the database assigns, the uploaded file's path, the client address, the user agent and whether mail delivery fails.
- Sequelize is replaced by maps from id to row. Not modelled:
  - `findAndCountAll` paging of rows and the `LIKE` text search of `listUsers`; its rows are left out and only the count is a parameter;
  - sorting by an arbitrary column;
  - `paranoid` soft deletion;
  - the `author` association;
  - database errors and the `catch` branches that turn them into 500, except the insert failure of `createDiscovery`;
  - the unique-constraint and validation `catch` branches of `register`;
  - the `slug` column that `Asterium.ts` requires;
  - unsigned and width-limited columns.
- The users table the controllers import (with `username`, `password_hash`, `role_id`, `is_active`) is not part of this model's sources. Its rows are `Users.UserRow`, new rows are active, and `register` stores the e-mail as sent. `User.ts`, the string-role model, is modelled apart in `UserModel`.
- `Number(x)` reads only optionally signed decimal integers, `Infinity` and white space. Fractions, exponents, hexadecimal and binary literals read as NaN here. Arithmetic on fractional page numbers is therefore not modelled either.
- `toLowerCase` and `toUpperCase` are modelled on ASCII letters only (no Unicode case mapping). Text length counts characters, not UTF-16 code units.
- Body fields other than the ones each handler reads (extra keys spread into `create`) and the `like_count` column are left out.
- Nodemailer transport creation and the SMTP exchange are left out; only whether mail is configured and whether delivery fails are modelled.
- The rate limiter of the contact route, the upload middleware, the admin router, `index.ts`, `app.ts`, `db.ts` and the seeders are left out.
- The broken duplicate fragments in `asterium.controller.ts` and the commented-out copy at the top of `user.controller.ts` are not modelled; `listPublished` is modelled as reading its query although its parameter is named `_req`.
- `setUserRole` and `toggleActive` are modelled as handlers but no route mounts them, so `Routes` has no route for them.
- Zod's `.email()` and `.url()` are the uninterpreted predicates `Schemas.Formats`; the error details of a failed validation are not modelled.
- UserModel.CheckPassword: states only the missing-hash case, because the comparison itself is an oracle.
- UserController.SetUserRole: states the guards and that a success stores what it reports; the full success condition is stated on `SetUserRoleWith`, which it calls.
- Routes.ServeDiscoveryWrite: states the guard outcome and the token requirement; the handler outcomes are those of the `AsteriumController` functions it calls.

## Findings

| source | as written | input that shows it | evidently intended | confidence | as-written member | corrected member |
|---|---|---|---|---|---|---|
| src/middlewares/validate.ts:9-13 | the schema is applied to `{body, params, query}`, not to the part of the request it describes, and the second argument the routes pass is ignored | a well-formed `POST /register` body is refused with 400; the update-schema step accepts a body with `image_url: "ftp://cdn.io/a.png"` (on `PUT /:id` the id step before it already answers 400, so as written every update is refused) | apply the id schema to the parameters and every other schema to the body | high (not executed) | Routes.ValidateAsWrittenIgnoresRequest | Routes.RunGuard |
| src/controllers/user.controller.ts:311-315 | the self-deletion check compares `String(sub)` with `String(id)`, while the row deleted is `Number(id)` | admin with `sub` `"7"` sends `DELETE /users/07`: the check passes and row 7 is removed | compare the row the id names with the caller's row | high (not executed) | UserController.DeleteUserAsWrittenDeletesSelf | UserController.DeleteUserKeepsOwnRow |
| src/controllers/user.controller.ts:332-336 | the self-demotion check compares `String(sub)` with `String(id)`, while the row updated is `Number(id)` | admin with `sub` `"7"` sets the role of `"07"` to `user` and loses the admin role | compare the row the id names with the caller's row | high (not executed) | UserController.SetUserRoleAsWrittenDemotesSelf | UserController.SetUserRoleKeepsOwnAdmin |
