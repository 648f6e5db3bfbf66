/**
 * The public API of the Workers backend: the aggregate data read with its list columns
 * decoded and its defaults, and the contact form handler, which stores the message and
 * then tries the configured notifications, never letting a failed notification fail the
 * request. Outbound calls are described by the request they would send; whether the
 * service accepts it is a parameter.
 */
module PublicRoutes {
  import opened Wrappers
  import Js
  import Store
  import ListFields
  import AdminRoutes

  const OK := 200
  const SERVER_ERROR := 500

  // ---------------------------------------------------------------- getAllData

  /**
   * The parts of the response `getAllData` computes: the `about` row (None for `{}`)
   * and the experience and project rows each paired with its decoded list. Skills,
   * certifications and publications are passed through as the queries return them.
   */
  datatype AllData<A, X, P> = AllData(about: Option<A>, experience: seq<(X, seq<string>)>, projects: seq<(P, seq<string>)>)

  /** Pairs each row with its decoded list. */
  function Pair<T>(rows: seq<(T, Option<string>)>, lists: seq<seq<string>>): (r: seq<(T, seq<string>)>)
    requires |lists| == |rows|
    ensures |r| == |rows| && forall i :: 0 <= i < |rows| ==> r[i] == (rows[i].0, lists[i])
  {
    seq(|rows|, i requires 0 <= i < |rows| => (rows[i].0, lists[i]))
  }

  function Lists<T>(rows: seq<(T, Option<string>)>): (cols: seq<Option<string>>)
    ensures |cols| == |rows| && forall i :: 0 <= i < |rows| ==> cols[i] == rows[i].1
  {
    seq(|rows|, i requires 0 <= i < |rows| => rows[i].1)
  }

  predicate Decodes<T>(rows: seq<(T, Option<string>)>, parse: string -> Option<seq<string>>) {
    forall i :: 0 <= i < |rows| ==> ListFields.DecodeListColumn(rows[i].1, parse).Ok?
  }

  /**
   * `getAllData`: `about` is the first stored row or `{}`; the experience and project
   * lists decode with `JSON.parse(x || '[]')`; any parse failure answers 500.
   */
  function GetAllData<A, X, P>(aboutRows: seq<A>, experience: seq<(X, Option<string>)>, projects: seq<(P, Option<string>)>,
                               parse: string -> Option<seq<string>>): (r: Result<AllData<A, X, P>, int>)
    ensures r.Ok? <==> Decodes(experience, parse) && Decodes(projects, parse)
    ensures r.Err? ==> r.error == SERVER_ERROR
    ensures r.Ok? ==> (r.value.about.None? <==> aboutRows == []) && (r.value.about.Some? ==> r.value.about.value == aboutRows[0])
    ensures r.Ok? ==> |r.value.experience| == |experience| && forall i :: 0 <= i < |experience| ==>
      r.value.experience[i] == (experience[i].0, ListFields.DecodeListColumn(experience[i].1, parse).value)
    ensures r.Ok? ==> |r.value.projects| == |projects| && forall i :: 0 <= i < |projects| ==>
      r.value.projects[i] == (projects[i].0, ListFields.DecodeListColumn(projects[i].1, parse).value)
  {
    var exp := ListFields.DecodeListColumns(Lists(experience), parse);
    var proj := ListFields.DecodeListColumns(Lists(projects), parse);
    if exp.Err? || proj.Err? then Err(SERVER_ERROR)
    else
      var about := if aboutRows == [] then None else Some(aboutRows[0]);
      Ok(AllData(about, Pair(experience, exp.value), Pair(projects, proj.value)))
  }

  /** Rows whose list column is NULL or empty come back with an empty list, and an empty `about` table as `{}`. */
  lemma MissingListsDefault<A, X, P>(experience: seq<(X, Option<string>)>, projects: seq<(P, Option<string>)>,
                                     parse: string -> Option<seq<string>>)
    requires forall i :: 0 <= i < |experience| ==> experience[i].1 == None || experience[i].1 == Some("")
    requires forall i :: 0 <= i < |projects| ==> projects[i].1 == None || projects[i].1 == Some("")
    ensures var r := GetAllData<A, X, P>([], experience, projects, parse);
      && r.Ok?
      && r.value.about.None?
      && (forall i :: 0 <= i < |experience| ==> r.value.experience[i].1 == [])
      && (forall i :: 0 <= i < |projects| ==> r.value.projects[i].1 == [])
  {
    forall i | 0 <= i < |experience| ensures ListFields.DecodeListColumn(experience[i].1, parse) == Ok([]) {
    }
    forall i | 0 <= i < |projects| ensures ListFields.DecodeListColumn(projects[i].1, parse) == Ok([]) {
    }
  }

  // ---------------------------------------------------------------- notifications

  datatype Message = Message(name: string, email: string, subject: string, message: string)

  /** The Worker's environment bindings the notification helpers read. */
  datatype Env = Env(
    mailgunApiKey: Js.Value, mailgunDomain: Js.Value,
    twilioAccountSid: Js.Value, twilioAuthToken: Js.Value, twilioWhatsAppFrom: Js.Value)

  /** The HTTP request a notification helper sends. */
  datatype Outbound =
    | MailgunPost(domain: Js.Value, recipient: Js.Value, subject: string, replyTo: string)
    | TwilioPost(account: Js.Value, from: Js.Value, toNumber: string, body: string)

  /** `sendEmailNotification`: a Mailgun request only when both Mailgun settings are present. */
  function EmailRequest(m: Message, to: Js.Value, env: Env): (r: Option<Outbound>)
    ensures r.Some? <==> Js.Truthy(env.mailgunApiKey) && Js.Truthy(env.mailgunDomain)
    ensures r.Some? ==> r.value == MailgunPost(env.mailgunDomain, to, "New Contact: " + m.subject, m.email)
  {
    if Js.Truthy(env.mailgunApiKey) && Js.Truthy(env.mailgunDomain) then
      Some(MailgunPost(env.mailgunDomain, to, "New Contact: " + m.subject, m.email))
    else None
  }

  /** `sendWhatsAppNotification`: nothing is sent unless all three Twilio settings are present. */
  function WhatsAppRequest(m: Message, to: string, env: Env): (r: Option<Outbound>)
    ensures r.None? <==> !Js.Truthy(env.twilioAccountSid) || !Js.Truthy(env.twilioAuthToken) || !Js.Truthy(env.twilioWhatsAppFrom)
    ensures r.Some? ==> r.value.TwilioPost? && r.value.toNumber == "whatsapp:" + to && r.value.from == env.twilioWhatsAppFrom
  {
    if !Js.Truthy(env.twilioAccountSid) || !Js.Truthy(env.twilioAuthToken) || !Js.Truthy(env.twilioWhatsAppFrom) then None
    else
      var text := "New portfolio contact from " + m.name + " (" + m.email + "): " + m.subject;
      Some(TwilioPost(env.twilioAccountSid, env.twilioWhatsAppFrom, "whatsapp:" + to, text))
  }

  /** An e-mail notification is wanted when the flag is set and an address is configured. */
  predicate WantsEmail(s: AdminRoutes.Settings) {
    s.emailNotifications != 0 && Js.Truthy(s.notificationEmail)
  }

  /** A WhatsApp notification is wanted when the flag is set and a number is configured. */
  predicate WantsWhatsApp(s: AdminRoutes.Settings) {
    s.whatsappNotifications != 0 && Js.Truthy(s.whatsappNumber)
  }

  predicate MailgunConfigured(env: Env) {
    Js.Truthy(env.mailgunApiKey) && Js.Truthy(env.mailgunDomain)
  }

  predicate TwilioConfigured(env: Env) {
    Js.Truthy(env.twilioAccountSid) && Js.Truthy(env.twilioAuthToken) && Js.Truthy(env.twilioWhatsAppFrom)
  }

  /**
   * The requests the handler sends for a stored message: an e-mail to the configured
   * address when wanted and Mailgun is configured, then a WhatsApp message to the
   * configured number when wanted and Twilio is configured.
   */
  function Notifications(settings: Option<AdminRoutes.Settings>, m: Message, env: Env): (out: seq<Outbound>)
    ensures settings.None? ==> out == []
    ensures |out| <= 2
    ensures |out| == 2 ==> out[0].MailgunPost? && out[1].TwilioPost?
    ensures (exists i :: 0 <= i < |out| && out[i].MailgunPost?) ==> settings.Some? && WantsEmail(settings.value)
    ensures (exists i :: 0 <= i < |out| && out[i].TwilioPost?) ==> settings.Some? && WantsWhatsApp(settings.value)
    ensures settings.Some? && WantsEmail(settings.value) && MailgunConfigured(env) ==> |out| >= 1 && out[0].MailgunPost?
    ensures settings.Some? && WantsWhatsApp(settings.value) && TwilioConfigured(env) ==> |out| >= 1 && out[|out| - 1].TwilioPost?
    ensures forall i :: 0 <= i < |out| && out[i].MailgunPost? ==>
      settings.Some? && out[i] == MailgunPost(env.mailgunDomain, settings.value.notificationEmail, "New Contact: " + m.subject, m.email)
    ensures forall i :: 0 <= i < |out| && out[i].TwilioPost? ==>
      settings.Some? && out[i].toNumber == "whatsapp:" + Js.TextOr(settings.value.whatsappNumber, "") && out[i].from == env.twilioWhatsAppFrom
  {
    if settings.None? then []
    else
      var s := settings.value;
      var email := if WantsEmail(s) then EmailRequest(m, s.notificationEmail, env) else None;
      var whatsapp := if WantsWhatsApp(s) then WhatsAppRequest(m, Js.TextOr(s.whatsappNumber, ""), env) else None;
      (if email.Some? then [email.value] else []) + (if whatsapp.Some? then [whatsapp.value] else [])
  }

  /** With every service configured, each wanted notification is sent, once, and no other. */
  lemma ConfiguredSendsWanted(s: AdminRoutes.Settings, m: Message, env: Env)
    requires MailgunConfigured(env) && TwilioConfigured(env)
    ensures var out := Notifications(Some(s), m, env);
      && |out| == (if WantsEmail(s) then 1 else 0) + (if WantsWhatsApp(s) then 1 else 0)
      && ((exists i :: 0 <= i < |out| && out[i].MailgunPost?) <==> WantsEmail(s))
      && ((exists i :: 0 <= i < |out| && out[i].TwilioPost?) <==> WantsWhatsApp(s))
  {
    var out := Notifications(Some(s), m, env);
    if WantsEmail(s) {
      assert out[0].MailgunPost?;
    }
    if WantsWhatsApp(s) {
      assert out[|out| - 1].TwilioPost?;
    }
  }

  // ---------------------------------------------------------------- handleContact

  datatype ContactReply = ContactReply(status: int, success: bool, message: string)

  /**
   * `handleContact`: a body that is not JSON or a failed insert answers 500 `Database
   * error` and nothing is sent. Otherwise the message is stored, the first settings row
   * picks the notifications, and the answer is success whether or not the services
   * accept them (`delivered` says which were accepted; failures are caught).
   */
  method HandleContact(messages: Store.Table<Message>, settings: Store.Table<AdminRoutes.Settings>, body: Option<Message>,
                       insertOk: bool, env: Env, delivered: Outbound -> bool)
    returns (reply: ContactReply, sent: seq<Outbound>)
    requires messages.Valid()
    modifies messages
    ensures messages.Valid()
    ensures body.None? || !insertOk ==>
      && reply == ContactReply(SERVER_ERROR, false, "Database error")
      && sent == []
      && messages.rows == old(messages.rows)
    ensures body.Some? && insertOk ==>
      && reply == ContactReply(OK, true, "Message sent successfully")
      && messages.rows == old(messages.rows) + [Store.Row(old(messages.nextId), body.value)]
      && sent == Notifications(if settings.rows == [] then None else Some(settings.rows[0].data), body.value, env)
  {
    if body.None? || !insertOk {
      return ContactReply(SERVER_ERROR, false, "Database error"), [];
    }
    var m := body.value;
    var _ := messages.Insert(m);
    var first := Store.First(settings.rows);
    sent := [];
    if first.Some? {
      var s := first.value.data;
      if s.emailNotifications != 0 && Js.Truthy(s.notificationEmail) {
        var req := EmailRequest(m, s.notificationEmail, env);
        if req.Some? {
          sent := sent + [req.value];
          var accepted := delivered(req.value);
        }
      }
      if s.whatsappNotifications != 0 && Js.Truthy(s.whatsappNumber) {
        var req := WhatsAppRequest(m, Js.TextOr(s.whatsappNumber, ""), env);
        if req.Some? {
          sent := sent + [req.value];
          var accepted := delivered(req.value);
        }
      }
    }
    reply := ContactReply(OK, true, "Message sent successfully");
  }
}
