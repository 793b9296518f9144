/** The public contact form: the body check, the stored message and the
    optional notification mail. Mail delivery is an oracle outcome. */
module ContactController {
  import opened Js
  import opened Options
  import opened Http
  import opened Tokens
  import opened Schemas

  /** `ContactSchema`: name 2..120 characters, a valid e-mail of at most
      191, a subject of at most 200 (or empty, or absent), a message of at
      least 10, and a source of at most 50 (or absent). */
  predicate ValidContact(b: Body, f: Formats) {
    && StringBetween(Field(b, "name"), 2, 120)
    && Field(b, "email").Str? && f.isEmail(Field(b, "email").s) && |Field(b, "email").s| <= 191
    && (Field(b, "subject").Undefined? || StringBetween(Field(b, "subject"), 0, 200))
    && StringAtLeast(Field(b, "message"), 10)
    && (Field(b, "source").Undefined? || StringBetween(Field(b, "source"), 0, 50))
  }

  datatype ContactStatus = New | Read | Replied | Closed

  /** A row of the contact messages table. */
  datatype ContactMessage = ContactMessage(
    id: int,
    name: string,
    email: string,
    subject: Option<string>,
    message: string,
    userId: Option<int>,
    status: ContactStatus,
    ip: string,
    userAgent: Option<string>,
    source: string)

  type ContactStore = map<int, ContactMessage>

  /** The request data besides the body: the client address and the
      `User-Agent` header. */
  datatype Client = Client(ip: string, userAgent: Option<string>)

  /** `SMTP_HOST` and `SUPPORT_EMAIL`, each absent or any string. */
  datatype MailEnv = MailEnv(smtpHost: Option<string>, supportEmail: Option<string>)

  /** The notification sent to the support address. */
  datatype Mail = Mail(to: string, subject: string, text: string)

  /** What the form answers with, and the mail it sent if any. */
  datatype Receipt = Receipt(id: int, status: string, mail: Option<Mail>)

  const DefaultSource := "contact_form"

  /** The 422 answer carries the schema's flattened issues under `errors`;
      their text is not modelled. */
  const InvalidContact := "errors"

  /** `Number.parseInt(req.user?.sub ?? '', 10)`, NaN read as null: the
      account a message is filed under. */
  function ContactUserId(user: Option<Principal>): (id: Option<int>)
    ensures user.None? ==> id.None?
    ensures user.Some? ==> id == ParseInt10(ToStr(Coalesce(user.value.sub, Str(""))))
  {
    match user
    case None => ParseInt10("")
    case Some(p) => ParseInt10(ToStr(Coalesce(p.sub, Str(""))))
  }

  /** A signed-in user whose token names their printed id is filed under
      that id. */
  lemma ContactUserIdOfIssuedSubject(userId: int, role: Roles.Role)
    ensures ContactUserId(Some(Principal(Str(IntToString(userId)), role))) == Some(userId)
  {
    var s := IntToString(userId);
    assert Coalesce(Str(s), Str("")) == Str(s);
    assert ToStr(Str(s)) == s;
    ParseIntOfIntToString(userId);
  }

  /** The row the form stores. */
  function ContactRow(id: int, b: Body, user: Option<Principal>, client: Client): (row: ContactMessage)
    ensures row.id == id && row.status == New
    ensures row.subject.None? <==> !Truthy(Field(b, "subject"))
    ensures row.source == if Truthy(Field(b, "source")) then ToStr(Field(b, "source")) else DefaultSource
    ensures row.userId == ContactUserId(user)
    ensures row.userAgent.None? <==> client.userAgent.None? || client.userAgent == Some("")
  {
    var subject, source := Field(b, "subject"), Field(b, "source");
    ContactMessage(id, ToStr(Field(b, "name")), ToStr(Field(b, "email")),
                   if Truthy(subject) then Some(ToStr(subject)) else None,
                   ToStr(Field(b, "message")),
                   ContactUserId(user),
                   New,
                   client.ip,
                   if client.userAgent == Some("") then None else client.userAgent,
                   ToStr(OrElse(source, Str(DefaultSource))))
  }

  /** Mail goes out only when both settings are present and non-empty. */
  predicate MailConfigured(env: MailEnv) {
    env.smtpHost.Some? && env.smtpHost.value != "" && env.supportEmail.Some? && env.supportEmail.value != ""
  }

  /** The notification for a stored row: the subject is the message's own,
      or one naming the row id. */
  function NotificationFor(row: ContactMessage, env: MailEnv): (m: Mail)
    requires MailConfigured(env)
    ensures m.to == env.supportEmail.value
    ensures row.subject.Some? ==> m.subject == row.subject.value
    ensures row.subject.None? ==> m.subject == "Nuevo contacto (#" + IntToString(row.id) + ")"
  {
    Mail(env.supportEmail.value,
         if row.subject.Some? then row.subject.value else "Nuevo contacto (#" + IntToString(row.id) + ")",
         "De: " + row.name + " <" + row.email + ">\n\n" + row.message + "\n\nID: " + IntToString(row.id))
  }

  /** `postContact`: an invalid body gives 422 and stores nothing;
      otherwise the row is stored first, then mail is attempted exactly
      when configured (a failed delivery throws out of the handler, the row
      staying stored), and the answer is 201 with the row id and `'ok'`. */
  function PostContact(store: ContactStore, b: Body, f: Formats, user: Option<Principal>, client: Client,
                       env: MailEnv, deliveryFails: bool, newId: int): (e: Effect<ContactStore, Receipt>)
    requires newId !in store
    ensures !ValidContact(b, f) ==> e == Effect(store, Err(422, InvalidContact))
    ensures ValidContact(b, f) ==> e.store == store[newId := ContactRow(newId, b, user, client)]
    ensures e.reply.Unhandled? <==> ValidContact(b, f) && MailConfigured(env) && deliveryFails
    ensures e.reply.Ok? <==> ValidContact(b, f) && !(MailConfigured(env) && deliveryFails)
    ensures e.reply.Ok? ==>
      && e.reply.status == 201
      && e.reply.value.id == newId && e.reply.value.status == "ok"
      && (e.reply.value.mail.Some? <==> MailConfigured(env))
      && (MailConfigured(env) ==> e.reply.value.mail == Some(NotificationFor(ContactRow(newId, b, user, client), env)))
  {
    if !ValidContact(b, f) then Effect(store, Err(422, InvalidContact))
    else
      var row := ContactRow(newId, b, user, client);
      var stored := store[newId := row];
      if !MailConfigured(env) then Effect(stored, Ok(201, Receipt(newId, "ok", None)))
      else if deliveryFails then Effect(stored, Unhandled)
      else Effect(stored, Ok(201, Receipt(newId, "ok", Some(NotificationFor(row, env)))))
  }

  /** A delivered notification describes the stored message: the receipt
      names the stored row, which keeps the body's message, and the mail
      goes to the support address with that row's subject (or one naming
      its id). */
  lemma NotificationDescribesStoredRow(store: ContactStore, b: Body, f: Formats, user: Option<Principal>,
                                       client: Client, env: MailEnv, deliveryFails: bool, newId: int)
    requires newId !in store
    requires PostContact(store, b, f, user, client, env, deliveryFails, newId).reply.Ok?
    requires MailConfigured(env)
    ensures var e := PostContact(store, b, f, user, client, env, deliveryFails, newId);
      && e.reply.value.id in e.store
      && var row := e.store[e.reply.value.id];
        && row.message == ToStr(Field(b, "message"))
        && e.reply.value.mail.Some?
        && e.reply.value.mail.value.to == env.supportEmail.value
        && e.reply.value.mail.value.subject
             == (if row.subject.Some? then row.subject.value else "Nuevo contacto (#" + IntToString(newId) + ")")
  {
  }

  /** An anonymous message is filed under no account, with the default
      source when none is given. */
  lemma AnonymousContact(b: Body, client: Client, id: int)
    requires Field(b, "name").Str? && Field(b, "source").Undefined?
    ensures ContactRow(id, b, None, client).userId.None?
    ensures ContactRow(id, b, None, client).source == DefaultSource
  {
  }
}
