/**
 * The `POST /api/contact` handler and the module state it runs in. At load time the
 * module reads six environment variables, logs when one is missing, and creates one
 * mail transporter (`secure` exactly when the port is 465). `POST` reads the JSON body,
 * answers 400 when `name`, `email` or `message` is missing or empty, otherwise hands
 * one envelope to the transporter and answers `{success: true}`; anything thrown on the
 * way becomes a 500 carrying the error's message.
 *
 * The SMTP relay is not modelled: what `sendMail` resolves or throws is an input.
 */
module ContactRoute {
  import opened Wrappers
  import opened JsText
  import JsNumber

  /** `SMTP_HOST`, `SMTP_PORT`, `SMTP_USER`, `SMTP_PASS`, `EMAIL_FROM`, `EMAIL_TO`. */
  datatype Env = Env(
    smtpHost: Option<string>,
    smtpPort: Option<string>,
    smtpUser: Option<string>,
    smtpPass: Option<string>,
    emailFrom: Option<string>,
    emailTo: Option<string>)

  /** `!v` for a value that is a string or `undefined`. */
  predicate Falsy(v: Option<string>) {
    v.None? || v.value == ""
  }

  /** The load-time check: is any of the six variables unset or empty? */
  predicate MissingConfig(env: Env) {
    || Falsy(env.smtpHost) || Falsy(env.smtpPort) || Falsy(env.smtpUser)
    || Falsy(env.smtpPass) || Falsy(env.emailFrom) || Falsy(env.emailTo)
  }

  /** `Number(SMTP_PORT) === 465` */
  predicate SecurePort(port: JsNumber.Number) {
    port == JsNumber.Finite(465.0)
  }

  /** A thrown value as the `catch` block sees it: its `message`, when it has one. */
  datatype Thrown = Thrown(message: Option<string>)

  /** How the relay answers `sendMail`: it resolves, or it throws. */
  datatype SendOutcome = Delivered | Failed(error: Thrown)

  /**
   * What `await request.json()` and the destructuring produce: a thrown error (a body
   * that is not JSON, or the JSON literal `null`), or the three properties, each
   * `None` when absent or a falsy non-string value (`null`, `false`, `0`).
   */
  datatype RequestBody =
    | Unreadable(error: Thrown)
    | Fields(name: Option<string>, email: Option<string>, message: Option<string>)

  /** The three fields once the check has passed. */
  datatype Payload = Payload(name: string, email: string, message: string)

  /** The options object passed to `sendMail`. */
  datatype Envelope = Envelope(
    from: Option<string>,
    to: Option<string>,
    subject: string,
    replyTo: string,
    text: string,
    html: string)

  datatype ResponseBody = SuccessBody | ErrorBody(error: string)

  /** A `NextResponse.json(body, { status })`; the default status is 200. */
  datatype Response = Response(status: nat, body: ResponseBody)

  const MissingFieldsMessage := "Missing required fields"
  const FallbackErrorMessage := "Internal Server Error"
  const BadRequest := Response(400, ErrorBody(MissingFieldsMessage))
  const Success := Response(200, SuccessBody)

  /**
   * The `catch` block's answer: status 500 with the error's message, or with
   * "Internal Server Error" when the message is absent or empty. The error text is
   * therefore never empty.
   */
  function ErrorResponse(e: Thrown): (r: Response)
    ensures r.status == 500 && r.body.ErrorBody? && r.body.error != ""
    ensures !Falsy(e.message) ==> r.body.error == e.message.value
    ensures Falsy(e.message) ==> r.body.error == FallbackErrorMessage
  {
    Response(500, ErrorBody(if Falsy(e.message) then FallbackErrorMessage else e.message.value))
  }

  // ---------------------------------------------------------------------------
  // The envelope
  // ---------------------------------------------------------------------------

  const SubjectPrefix := "New contact from "
  const NameLabel := "Name: "
  const EmailLabel := "Email: "
  const MessageLabel := "Message: "

  /** `Name: ${name}\nEmail: ${email}\nMessage: ${message}` */
  function TextBody(p: Payload): string {
    NameLabel + p.name + "\n" + EmailLabel + p.email + "\n" + MessageLabel + p.message
  }

  const Br := "<br/>"

  /** `message.replace(/\n/g, "<br/>")`: every line feed becomes a `<br/>`. */
  function NewlinesToBreaks(s: string): (r: string)
    ensures '\n' !in r
    ensures '\n' !in s ==> r == s
    ensures |r| == |s| + 4 * CountOf(s, '\n')
  {
    if s == [] then []
    else
      var rest := NewlinesToBreaks(s[1..]);
      assert '\n' !in s ==> '\n' !in s[1..];
      (if s[0] == '\n' then Br else [s[0]]) + rest
  }

  /** The conversion works piece by piece. */
  lemma {:induction false} NewlinesToBreaksAppend(a: string, b: string)
    ensures NewlinesToBreaks(a + b) == NewlinesToBreaks(a) + NewlinesToBreaks(b)
  {
    if a != [] {
      assert (a + b)[1..] == a[1..] + b;
      NewlinesToBreaksAppend(a[1..], b);
    } else {
      assert a + b == b;
    }
  }

  /** A line feed at the head of `s` becomes a `<br/>`. */
  lemma LeadingLineFeed(s: string)
    requires s != [] && s[0] == '\n'
    ensures NewlinesToBreaks(s) == Br + NewlinesToBreaks(s[1..])
  {
  }

  /** A two-line message: its one line feed becomes one `<br/>` between the lines. */
  lemma LineFeedBecomesBreak(first: string, second: string)
    requires '\n' !in first && '\n' !in second
    ensures NewlinesToBreaks(first + ['\n'] + second) == first + Br + second
  {
    var rest := ['\n'] + second;
    assert NewlinesToBreaks(rest) == Br + second by {
      assert rest[1..] == second;
      LeadingLineFeed(rest);
    }
    calc {
      NewlinesToBreaks(first + ['\n'] + second);
      { assert first + ['\n'] + second == first + rest; }
      NewlinesToBreaks(first + rest);
      { NewlinesToBreaksAppend(first, rest); }
      NewlinesToBreaks(first) + NewlinesToBreaks(rest);
      first + (Br + second);
      first + Br + second;
    }
  }

  /** The template literal's own line break: a line feed and 13 spaces of indentation. */
  const HtmlLineBreak := "\n             "

  /** One `<p>…</p>` paragraph of the HTML body. */
  function Paragraph(open: string, content: string): string {
    open + content + "</p>"
  }

  const NameOpen := "<p><strong>Name:</strong> "
  const EmailOpen := "<p><strong>Email:</strong> "
  const MessageOpen := "<p><strong>Message:</strong><br/>"

  /** The HTML body: name and email inserted as they are, the message with `<br/>`s. */
  function HtmlBody(p: Payload): string {
    Paragraph(NameOpen, p.name) + HtmlLineBreak
    + Paragraph(EmailOpen, p.email) + HtmlLineBreak
    + Paragraph(MessageOpen, NewlinesToBreaks(p.message))
  }

  /** The `sendMail` options for a checked payload. */
  function MailFor(env: Env, p: Payload): Envelope {
    Envelope(env.emailFrom, env.emailTo, SubjectPrefix + p.name, p.email, TextBody(p), HtmlBody(p))
  }

  // ---------------------------------------------------------------------------
  // POST as a function of its inputs
  // ---------------------------------------------------------------------------

  /** The response `POST` returns for `request` when the relay answers `outcome`. */
  function PostResponse(request: RequestBody, outcome: SendOutcome): Response {
    match request
    case Unreadable(e) => ErrorResponse(e)
    case Fields(name, email, message) =>
      if Falsy(name) || Falsy(email) || Falsy(message) then BadRequest
      else
        match outcome
        case Delivered => Success
        case Failed(e) => ErrorResponse(e)
  }

  /** The envelopes `POST` hands to `sendMail` for `request`: one, or none. */
  function MailsSent(env: Env, request: RequestBody): seq<Envelope> {
    match request
    case Unreadable(_) => []
    case Fields(name, email, message) =>
      if Falsy(name) || Falsy(email) || Falsy(message) then []
      else [MailFor(env, Payload(name.value, email.value, message.value))]
  }

  // ---------------------------------------------------------------------------
  // The module's state
  // ---------------------------------------------------------------------------

  /** The transporter created once at load time, with the mail handed to it so far. */
  class Transporter {
    const host: Option<string>
    const port: JsNumber.Number
    const secure: bool
    const user: Option<string>
    const pass: Option<string>
    var sent: seq<Envelope>

    /** `nodemailer.createTransport({ host, port: Number(SMTP_PORT), secure, auth })` */
    constructor (env: Env)
      ensures host == env.smtpHost && user == env.smtpUser && pass == env.smtpPass
      ensures port == JsNumber.ToNumber(env.smtpPort)
      ensures secure <==> SecurePort(port)
      ensures sent == []
    {
      host := env.smtpHost;
      port := JsNumber.ToNumber(env.smtpPort);
      secure := JsNumber.ToNumber(env.smtpPort) == JsNumber.Finite(465.0);
      user := env.smtpUser;
      pass := env.smtpPass;
      sent := [];
    }

    /** `sendMail(mail)`: the mail is handed over whatever the relay then answers. */
    method SendMail(mail: Envelope, outcome: SendOutcome) returns (thrown: Option<Thrown>)
      modifies this`sent
      ensures sent == old(sent) + [mail]
      ensures thrown == (match outcome case Delivered => None case Failed(e) => Some(e))
    {
      sent := sent + [mail];
      match outcome
      case Delivered => thrown := None;
      case Failed(e) => thrown := Some(e);
    }
  }

  /** The route module once loaded: its environment, its start-up log, its transporter. */
  class Route {
    const env: Env
    const loggedMissingConfig: bool
    const transporter: Transporter

    /**
     * Module load: a missing variable is only logged; the transporter is created
     * whatever the environment holds.
     */
    constructor Load(env: Env)
      ensures this.env == env
      ensures loggedMissingConfig == MissingConfig(env)
      ensures fresh(transporter) && transporter.sent == []
      ensures transporter.port == JsNumber.ToNumber(env.smtpPort)
      ensures transporter.secure <==> SecurePort(JsNumber.ToNumber(env.smtpPort))
    {
      this.env := env;
      loggedMissingConfig := MissingConfig(env);
      transporter := new Transporter(env);
    }

    /** `POST(request)`, with the relay's answer to `sendMail` given as `outcome`. */
    method Post(request: RequestBody, outcome: SendOutcome) returns (response: Response)
      modifies transporter`sent
      ensures response == PostResponse(request, outcome)
      ensures transporter.sent == old(transporter.sent) + MailsSent(env, request)
    {
      if request.Unreadable? {
        // request.json() threw: the catch block answers.
        response := ErrorResponse(request.error);
        return;
      }
      var name, email, message := request.name, request.email, request.message;
      if Falsy(name) || Falsy(email) || Falsy(message) {
        response := BadRequest;
        return;
      }
      var mail := MailFor(env, Payload(name.value, email.value, message.value));
      var thrown := transporter.SendMail(mail, outcome);
      if thrown.Some? {
        response := ErrorResponse(thrown.value);
        return;
      }
      response := Success;
    }
  }

  // ---------------------------------------------------------------------------
  // Properties
  // ---------------------------------------------------------------------------

  /**
   * A request whose name, email or message is missing or empty gets the 400 answer
   * and no mail is sent; one with all three present gets something else.
   */
  lemma MissingFieldsRejected(env: Env, name: Option<string>, email: Option<string>,
                              message: Option<string>, outcome: SendOutcome)
    ensures var request := Fields(name, email, message);
      && (PostResponse(request, outcome) == BadRequest <==> Falsy(name) || Falsy(email) || Falsy(message))
      && (MailsSent(env, request) == [] <==> Falsy(name) || Falsy(email) || Falsy(message))
  {
  }

  /**
   * The check is only for emptiness: any three non-empty strings, blank or not, with
   * or without an '@', are forwarded as they are.
   */
  lemma OnlyEmptinessChecked(env: Env, p: Payload)
    requires p.name != "" && p.email != "" && p.message != ""
    ensures MailsSent(env, Fields(Some(p.name), Some(p.email), Some(p.message))) == [MailFor(env, p)]
  {
  }

  /** The answer is `{success: true}` exactly when a mail was handed over and delivered. */
  lemma SuccessIffDelivered(env: Env, request: RequestBody, outcome: SendOutcome)
    ensures PostResponse(request, outcome) == Success <==> MailsSent(env, request) != [] && outcome.Delivered?
    ensures PostResponse(request, outcome).status == 200 <==> PostResponse(request, outcome) == Success
  {
  }

  /**
   * Status 500 comes exactly from a body that could not be read or a relay failure
   * after a mail was handed over; every answer is 200, 400 or 500.
   */
  lemma ServerErrorsAreThrown(env: Env, request: RequestBody, outcome: SendOutcome)
    ensures PostResponse(request, outcome).status == 500 <==>
      request.Unreadable? || (MailsSent(env, request) != [] && outcome.Failed?)
    ensures PostResponse(request, outcome).status in {200, 400, 500}
  {
  }

  /** The first `\n`-terminated line of `s`, and what follows the line feed. */
  function SplitLine(s: string): Option<(string, string)> {
    var i := FirstIndexOf(s, '\n');
    if i < |s| then Some((s[..i], s[i + 1..])) else None
  }

  /** Reads the three fields back out of a plain-text body. */
  function ParseTextBody(t: string): Option<Payload> {
    if !StartsWith(t, NameLabel) then None
    else match SplitLine(t[|NameLabel|..])
      case None => None
      case Some((name, rest)) =>
        if !StartsWith(rest, EmailLabel) then None
        else match SplitLine(rest[|EmailLabel|..])
          case None => None
          case Some((email, rest2)) =>
            if !StartsWith(rest2, MessageLabel) then None
            else Some(Payload(name, email, rest2[|MessageLabel|..]))
  }

  lemma SplitAfterLine(line: string, rest: string)
    requires '\n' !in line
    ensures SplitLine(line + "\n" + rest) == Some((line, rest))
  {
    FirstIndexAfter(line, '\n', rest);
    var s := line + "\n" + rest;
    assert s[..|line|] == line && s[|line| + 1..] == rest;
  }

  /** After `tag`, a line without line feed and then `rest`. */
  lemma ReadLabelledLine(tag: string, line: string, rest: string)
    requires '\n' !in line
    ensures StartsWith(tag + line + "\n" + rest, tag)
    ensures SplitLine((tag + line + "\n" + rest)[|tag|..]) == Some((line, rest))
  {
    var s := tag + line + "\n" + rest;
    assert s[..|tag|] == tag;
    assert s[|tag|..] == line + "\n" + rest;
    SplitAfterLine(line, rest);
  }

  lemma ReadLabelled(tag: string, rest: string)
    ensures StartsWith(tag + rest, tag) && (tag + rest)[|tag|..] == rest
  {
    assert (tag + rest)[..|tag|] == tag;
  }

  /**
   * The plain-text body loses nothing: when the name and the email have no line
   * feed, all three fields can be read back from it.
   */
  lemma TextBodyRoundTrip(p: Payload)
    requires '\n' !in p.name && '\n' !in p.email
    ensures ParseTextBody(TextBody(p)) == Some(p)
  {
    var last := MessageLabel + p.message;
    var afterName := EmailLabel + p.email + "\n" + last;
    assert TextBody(p) == NameLabel + p.name + "\n" + afterName;
    ReadLabelledLine(NameLabel, p.name, afterName);
    ReadLabelledLine(EmailLabel, p.email, last);
    ReadLabelled(MessageLabel, p.message);
  }

  /** `<br/>` back to line feeds: the reverse of the HTML conversion. */
  function BreaksToNewlines(s: string): string
    decreases |s|
  {
    if StartsWith(s, Br) then "\n" + BreaksToNewlines(s[|Br|..])
    else if s == [] then []
    else [s[0]] + BreaksToNewlines(s[1..])
  }

  /**
   * For a message with no '<' the HTML conversion loses nothing: turning each
   * `<br/>` back into a line feed gives the message again.
   */
  lemma {:induction false} BreaksRoundTrip(s: string)
    requires '<' !in s
    ensures BreaksToNewlines(NewlinesToBreaks(s)) == s
  {
    if s != [] {
      assert '<' !in s[1..];
      BreaksRoundTrip(s[1..]);
      var r := NewlinesToBreaks(s);
      if s[0] == '\n' {
        assert r == Br + NewlinesToBreaks(s[1..]);
        assert StartsWith(r, Br);
        assert r[|Br|..] == NewlinesToBreaks(s[1..]);
        assert s == "\n" + s[1..];
      } else {
        assert r == [s[0]] + NewlinesToBreaks(s[1..]);
        assert r[0] != Br[0];
        assert r[1..] == NewlinesToBreaks(s[1..]);
        assert s == [s[0]] + s[1..];
      }
    }
  }

  /**
   * The HTML body's line feeds are its own two layout breaks plus those inside the
   * name and the email; the message contributes none.
   */
  lemma HtmlLineFeeds(p: Payload)
    ensures CountOf(HtmlBody(p), '\n') == 2 + CountOf(p.name, '\n') + CountOf(p.email, '\n')
  {
    assert '\n' !in NameOpen && '\n' !in EmailOpen && '\n' !in MessageOpen;
    ParagraphLineFeeds(NameOpen, p.name);
    ParagraphLineFeeds(EmailOpen, p.email);
    ParagraphLineFeeds(MessageOpen, NewlinesToBreaks(p.message));
    LayoutBreakLineFeeds(HtmlLineBreak);
    var p1, p2, p3 := Paragraph(NameOpen, p.name), Paragraph(EmailOpen, p.email),
      Paragraph(MessageOpen, NewlinesToBreaks(p.message));
    CountOfAppend(p1, HtmlLineBreak, '\n');
    CountOfAppend(p1 + HtmlLineBreak, p2, '\n');
    CountOfAppend(p1 + HtmlLineBreak + p2, HtmlLineBreak, '\n');
    CountOfAppend(p1 + HtmlLineBreak + p2 + HtmlLineBreak, p3, '\n');
  }

  lemma ParagraphLineFeeds(open: string, content: string)
    requires '\n' !in open
    ensures CountOf(Paragraph(open, content), '\n') == CountOf(content, '\n')
  {
    assert '\n' !in "</p>";
    CountOfAppend(open, content, '\n');
    CountOfAppend(open + content, "</p>", '\n');
  }

  lemma LayoutBreakLineFeeds(s: string)
    requires s == HtmlLineBreak
    ensures CountOf(s, '\n') == 1
  {
    assert s == "\n" + s[1..];
    assert '\n' !in s[1..];
    CountOfAppend("\n", s[1..], '\n');
  }

  /** The HTML body starts with the name exactly as given: nothing is escaped. */
  lemma HtmlNameUnescaped(p: Payload)
    ensures StartsWith(HtmlBody(p), NameOpen + p.name)
  {
  }

  /** The second paragraph holds the email exactly as given: nothing is escaped. */
  lemma HtmlEmailUnescaped(p: Payload)
    ensures var rest := HtmlBody(p)[|Paragraph(NameOpen, p.name) + HtmlLineBreak|..];
      StartsWith(rest, Paragraph(EmailOpen, p.email))
  {
    var head := Paragraph(NameOpen, p.name) + HtmlLineBreak;
    var tail := Paragraph(EmailOpen, p.email) + HtmlLineBreak
      + Paragraph(MessageOpen, NewlinesToBreaks(p.message));
    assert HtmlBody(p) == head + tail;
    assert HtmlBody(p)[|head|..] == tail;
  }

  /** The subject line with its fixed prefix removed. */
  function SubjectName(subject: string): Option<string> {
    if StartsWith(subject, SubjectPrefix) then Some(subject[|SubjectPrefix|..]) else None
  }

  /**
   * For every checked payload, the envelope goes from `EMAIL_FROM` to `EMAIL_TO`,
   * replies go to the submitted email, and the subject carries the name.
   */
  lemma EnvelopeCarriesPayload(env: Env, p: Payload)
    ensures var mail := MailFor(env, p);
      && mail.from == env.emailFrom && mail.to == env.emailTo
      && mail.replyTo == p.email
      && SubjectName(mail.subject) == Some(p.name)
  {
    assert (SubjectPrefix + p.name)[|SubjectPrefix|..] == p.name;
  }

  /**
   * When the name and the email have no line feed, all three fields can be read back
   * from the envelope's plain-text body.
   */
  lemma EnvelopeTextReadable(env: Env, p: Payload)
    requires '\n' !in p.name && '\n' !in p.email
    ensures ParseTextBody(MailFor(env, p).text) == Some(p)
  {
    TextBodyRoundTrip(p);
  }

  /** The port rule on decimal spellings: `secure` exactly when the port is 465. */
  lemma SecureExactlyFor465(n: nat)
    ensures SecurePort(JsNumber.ToNumber(Some(JsNumber.DecimalText(n)))) <==> n == 465
  {
    JsNumber.DecimalRoundTrip(n);
  }

  /** An unset port is NaN, so the connection is not secure. */
  lemma UnsetPortNotSecure()
    ensures !SecurePort(JsNumber.ToNumber(None))
  {
  }

}
