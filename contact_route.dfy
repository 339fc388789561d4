/** The POST handler of the contact route (backend/routes/contact.js):
    the completeness check, the mail options built from the submission,
    the retry loop that drives the mail transport, and the mapping of its
    result to a 200, 400 or 500 response.

    The transport is an oracle: `send(mail, i)` is what the mail relay
    answers to attempt `i` (0-based). Console lines, transport construction
    and the two-second sleeps are recorded as events of a trace. */
module ContactRoute {
  import opened Common

  // ---------------------------------------------------------------------
  // Request payload and the completeness check (contact.js:38-42)
  // ---------------------------------------------------------------------

  /** One field of the parsed JSON body: absent, JSON null, or a string. */
  datatype Value = Undefined | Null | Text(s: string)

  type Payload = Fields<Value>
  type Submission = Fields<string>

  /** JavaScript truthiness of a payload value: only a non-empty string. */
  predicate Truthy(v: Value)
  {
    v.Text? && v.s != ""
  }

  /** `!name || !email || !subject || !message` rejects; otherwise the four
      strings are taken as they are, with no trimming and no format check. */
  function Validate(p: Payload): (r: Option<Submission>)
    ensures r.Some? <==> forall f: FieldName :: Truthy(Get(p, f))
    ensures r.Some? ==> forall f: FieldName :: Get(p, f) == Text(Get(r.value, f))
  {
    if Truthy(p.name) && Truthy(p.email) && Truthy(p.subject) && Truthy(p.message) then
      Some(Fields(p.name.s, p.email.s, p.subject.s, p.message.s))
    else
      assert !Truthy(Get(p, Name)) || !Truthy(Get(p, Email))
          || !Truthy(Get(p, Subject)) || !Truthy(Get(p, Message));
      None
  }

  /** Whitespace is a non-empty string: a submission made only of blanks
      passes the check unchanged. */
  lemma WhitespaceOnlyAccepted()
    ensures Validate(Fields(Text("   "), Text(" "), Text("\t"), Text("\n")))
         == Some(Fields("   ", " ", "\t", "\n"))
  {
  }

  // ---------------------------------------------------------------------
  // Mail options (contact.js:44-131)
  // ---------------------------------------------------------------------

  /** The operator account and its password, read from the environment. */
  datatype Env = Env(emailUser: string, emailPass: string)

  /** What the clock supplies, already rendered: `new Date().toLocaleString()`
      and `new Date().getFullYear()`. */
  datatype Clock = Clock(receivedAt: string, year: string)

  datatype MailOptions = MailOptions(from: string, to: string, replyTo: string, subject: string, html: string)

  const SenderDisplayName: string := "\"Portfolio Contact Form\""
  const SubjectPrefix: string := "\U{1F4EC} New Portfolio Message: "

  /** The places in the HTML body where a value is interpolated. */
  datatype Slot = NameSlot | EmailSlot | SubjectSlot | ReceivedSlot | MessageSlot | YearSlot

  /** A template literal: fixed text and interpolation holes. */
  datatype Piece = Lit(text: string) | Hole(slot: Slot)

  // The fixed markup between the holes. Inline styles and decoration are
  // abbreviated; only their position relative to the holes matters here.
  const BeforeName: string := "<!DOCTYPE html><html><body><h1>New Contact Form Submission</h1><table><tr><td>Name:</td><td>"
  const BeforeEmailLink: string := "</td></tr><tr><td>Email:</td><td><a href=\"mailto:"
  const BeforeEmailText: string := "\">"
  const BeforeSubject: string := "</a></td></tr><tr><td>Subject:</td><td>"
  const BeforeReceived: string := "</td></tr><tr><td>Received:</td><td>"
  const BeforeMessage: string := "</td></tr></table><h2>Message Content</h2><p>"
  const BeforeYear: string := "</p><p>This email was sent from your portfolio website contact form.</p><p>© "
  const AfterYear: string := " Nandu Vasanthi Portfolio</p></body></html>"

  const BodyTemplate: seq<Piece> := [
    Lit(BeforeName), Hole(NameSlot),
    Lit(BeforeEmailLink), Hole(EmailSlot),
    Lit(BeforeEmailText), Hole(EmailSlot),
    Lit(BeforeSubject), Hole(SubjectSlot),
    Lit(BeforeReceived), Hole(ReceivedSlot),
    Lit(BeforeMessage), Hole(MessageSlot),
    Lit(BeforeYear), Hole(YearSlot),
    Lit(AfterYear)
  ]

  /** What each hole of the body receives: the submitted strings and the
      clock's strings, verbatim (no HTML escaping). */
  function SlotValue(sub: Submission, clock: Clock, s: Slot): string
  {
    match s
    case NameSlot => sub.name
    case EmailSlot => sub.email
    case SubjectSlot => sub.subject
    case ReceivedSlot => clock.receivedAt
    case MessageSlot => sub.message
    case YearSlot => clock.year
  }

  function BodyValues(sub: Submission, clock: Clock): Slot -> string
  {
    s => SlotValue(sub, clock, s)
  }

  /** Evaluation of a template literal. */
  function Fill(t: seq<Piece>, values: Slot -> string): string
  {
    if t == [] then ""
    else
      (match t[0]
       case Lit(x) => x
       case Hole(s) => values(s)) + Fill(t[1..], values)
  }

  /** `x` occurs in `s` as a contiguous run of characters. */
  ghost predicate Occurs(x: string, s: string)
  {
    exists k :: 0 <= k <= |s| && x <= s[k..]
  }

  function BuildMailOptions(sub: Submission, env: Env, clock: Clock): (m: MailOptions)
    ensures m.to == env.emailUser
    ensures m.from == SenderDisplayName + " <" + m.to + ">"
    ensures m.replyTo == sub.email
    ensures SubjectPrefix <= m.subject && m.subject[|SubjectPrefix|..] == sub.subject
  {
    MailOptions(
      SenderDisplayName + " <" + env.emailUser + ">",
      env.emailUser,
      sub.email,
      SubjectPrefix + sub.subject,
      Fill(BodyTemplate, BodyValues(sub, clock)))
  }

  lemma {:induction false} FillAppend(a: seq<Piece>, b: seq<Piece>, values: Slot -> string)
    ensures Fill(a + b, values) == Fill(a, values) + Fill(b, values)
  {
    if a == [] {
      assert a + b == b;
    } else {
      assert (a + b)[1..] == a[1..] + b;
      FillAppend(a[1..], b, values);
    }
  }

  /** Whatever a hole receives appears unchanged in the filled text. */
  lemma HoleVerbatim(t: seq<Piece>, values: Slot -> string, i: nat)
    requires i < |t| && t[i].Hole?
    ensures Occurs(values(t[i].slot), Fill(t, values))
  {
    var v := values(t[i].slot);
    assert t == t[..i] + t[i..];
    FillAppend(t[..i], t[i..], values);
    assert Fill(t[i..], values) == v + Fill(t[i + 1..], values) by {
      assert t[i..][1..] == t[i + 1..];
    }
    var k := |Fill(t[..i], values)|;
    assert Fill(t, values)[k..] == Fill(t[i..], values);
  }

  /** Every value interpolated into the body (name, email, subject and
      message, and the two clock strings) appears in it character for
      character: nothing is escaped, so markup in a submitted field becomes
      markup of the message. */
  lemma BodyShowsFieldsVerbatim(sub: Submission, env: Env, clock: Clock, s: Slot)
    ensures Occurs(SlotValue(sub, clock, s), BuildMailOptions(sub, env, clock).html)
  {
    var i: nat := match s
      case NameSlot => 1
      case EmailSlot => 3
      case SubjectSlot => 7
      case ReceivedSlot => 9
      case MessageSlot => 11
      case YearSlot => 13;
    assert BodyTemplate[i] == Hole(s);
    HoleVerbatim(BodyTemplate, BodyValues(sub, clock), i);
  }

  // ---------------------------------------------------------------------
  // The retry loop sendEmailWithRetry (contact.js:6-34)
  // ---------------------------------------------------------------------

  datatype MailError = MailError(message: string)

  /** The relay's answer to one `sendMail`: the message id, or an error. */
  datatype SendResult = Accepted(messageId: string) | Failed(error: MailError)

  type Transport = (MailOptions, nat) -> SendResult

  /** The configuration every attempt's transport is created with (host,
      port, TLS and timeouts are fixed and not modelled). */
  datatype TransportConfig = TransportConfig(user: string, pass: string)

  function TransportFor(env: Env): TransportConfig
  {
    TransportConfig(env.emailUser, env.emailPass)
  }

  datatype Event =
    | CreateTransport(config: TransportConfig)
    | SendMail(mail: MailOptions)
    | LogAttemptFailed(attempt: nat, message: string)
    | Wait(ms: nat)
    | LogSent(messageId: string)
    | LogFinalError(message: string)

  /** How `sendEmailWithRetry` ends: it returns `{success: true, info}`,
      throws the last error, or falls out of the loop returning
      `undefined` (only when `retries < 1`). */
  datatype RetryResult = Delivered(messageId: string) | Thrown(error: MailError) | NoResult

  const DefaultRetries: int := 3
  const RetryDelayMs: nat := 2000

  /** The loop from iteration `i` on, as a recursive definition: the result
      and the events it produces. */
  function RunFrom(mail: MailOptions, config: TransportConfig, send: Transport, i: nat, retries: int)
    : (RetryResult, seq<Event>)
    decreases retries - i
  {
    if i >= retries then (NoResult, [])
    else
      match send(mail, i)
      case Accepted(id) => (Delivered(id), [CreateTransport(config), SendMail(mail)])
      case Failed(e) =>
        var logged := [CreateTransport(config), SendMail(mail), LogAttemptFailed(i + 1, e.message)];
        if i == retries - 1 then (Thrown(e), logged)
        else
          var next := RunFrom(mail, config, send, i + 1, retries);
          (next.0, logged + [Wait(RetryDelayMs)] + next.1)
  }

  method SendEmailWithRetry(mail: MailOptions, config: TransportConfig, send: Transport, retries: int)
    returns (result: RetryResult, trace: seq<Event>)
    ensures (result, trace) == RunFrom(mail, config, send, 0, retries)
  {
    trace := [];
    var i := 0;
    while i < retries
      invariant 0 <= i
      invariant i > 0 ==> i < retries
      invariant RunFrom(mail, config, send, i, retries).0 == RunFrom(mail, config, send, 0, retries).0
      invariant trace + RunFrom(mail, config, send, i, retries).1 == RunFrom(mail, config, send, 0, retries).1
    {
      ghost var rest := RunFrom(mail, config, send, i, retries);
      ghost var before := trace;
      trace := trace + [CreateTransport(config), SendMail(mail)];
      var answer := send(mail, i);
      if answer.Accepted? {
        result := Delivered(answer.messageId);
        assert rest == (result, [CreateTransport(config), SendMail(mail)]);
        return;
      }
      trace := trace + [LogAttemptFailed(i + 1, answer.error.message)];
      ghost var logged := [CreateTransport(config), SendMail(mail), LogAttemptFailed(i + 1, answer.error.message)];
      assert trace == before + logged;
      if i == retries - 1 {
        result := Thrown(answer.error);
        assert rest == (result, logged);
        return;
      }
      trace := trace + [Wait(RetryDelayMs)];
      ghost var next := RunFrom(mail, config, send, i + 1, retries);
      assert rest == (next.0, logged + [Wait(RetryDelayMs)] + next.1);
      assert trace + next.1 == before + rest.1;
      i := i + 1;
    }
    result := NoResult;
  }

  // ---------------------------------------------------------------------
  // What the retry loop does, counted
  // ---------------------------------------------------------------------

  datatype Kind = TransportCreated | MailSent | FailureLogged | Waited | Other

  function KindOf(e: Event): Kind
  {
    match e
    case CreateTransport(_) => TransportCreated
    case SendMail(_) => MailSent
    case LogAttemptFailed(_, _) => FailureLogged
    case Wait(_) => Waited
    case _ => Other
  }

  /** The number of events of kind `k` in `t`. */
  function Count(t: seq<Event>, k: Kind): nat
  {
    if t == [] then 0
    else (if KindOf(t[0]) == k then 1 else 0) + Count(t[1..], k)
  }

  /** The time spent sleeping, in milliseconds. */
  function TotalWaitMs(t: seq<Event>): nat
  {
    if t == [] then 0
    else (if t[0].Wait? then t[0].ms else 0) + TotalWaitMs(t[1..])
  }

  lemma {:induction false} CountAppend(a: seq<Event>, b: seq<Event>)
    ensures forall k :: Count(a + b, k) == Count(a, k) + Count(b, k)
    ensures TotalWaitMs(a + b) == TotalWaitMs(a) + TotalWaitMs(b)
  {
    if a == [] {
      assert a + b == b;
    } else {
      assert (a + b)[1..] == a[1..] + b;
      CountAppend(a[1..], b);
    }
  }

  lemma CountSingle(e: Event)
    ensures forall k :: Count([e], k) == if KindOf(e) == k then 1 else 0
    ensures TotalWaitMs([e]) == if e.Wait? then e.ms else 0
  {
  }

  /** The events of one attempt: transport, send, and on failure the log line. */
  lemma AttemptCounts(config: TransportConfig, mail: MailOptions, n: nat, msg: string)
    ensures var attempt := [CreateTransport(config), SendMail(mail)];
      && Count(attempt, TransportCreated) == 1 && Count(attempt, MailSent) == 1
      && Count(attempt, FailureLogged) == 0 && Count(attempt, Waited) == 0
      && TotalWaitMs(attempt) == 0
    ensures var logged := [CreateTransport(config), SendMail(mail), LogAttemptFailed(n, msg)];
      && Count(logged, TransportCreated) == 1 && Count(logged, MailSent) == 1
      && Count(logged, FailureLogged) == 1 && Count(logged, Waited) == 0
      && TotalWaitMs(logged) == 0
    ensures Count([Wait(RetryDelayMs)], Waited) == 1 && TotalWaitMs([Wait(RetryDelayMs)]) == RetryDelayMs
    ensures forall k :: k != Waited ==> Count([Wait(RetryDelayMs)], k) == 0
  {
    var attempt := [CreateTransport(config), SendMail(mail)];
    assert attempt == [CreateTransport(config)] + [SendMail(mail)];
    CountAppend([CreateTransport(config)], [SendMail(mail)]);
    assert [CreateTransport(config), SendMail(mail), LogAttemptFailed(n, msg)] == attempt + [LogAttemptFailed(n, msg)];
    CountAppend(attempt, [LogAttemptFailed(n, msg)]);
  }

  /** Attempts `i` to `k - 1`, all failing: each builds a transport, sends,
      logs "Attempt j+1 failed" with the error's message, and waits 2 s. */
  function FailedAttempts(mail: MailOptions, config: TransportConfig, send: Transport, i: nat, k: nat)
    : (t: seq<Event>)
    requires forall j :: i <= j < k ==> send(mail, j).Failed?
    decreases k - i
  {
    if i >= k then []
    else
      [CreateTransport(config), SendMail(mail), LogAttemptFailed(i + 1, send(mail, i).error.message)]
      + [Wait(RetryDelayMs)] + FailedAttempts(mail, config, send, i + 1, k)
  }

  lemma {:induction false} FailedAttemptsCount(mail: MailOptions, config: TransportConfig, send: Transport, i: nat, k: nat)
    requires i <= k
    requires forall j :: i <= j < k ==> send(mail, j).Failed?
    ensures var t := FailedAttempts(mail, config, send, i, k);
      && Count(t, TransportCreated) == k - i && Count(t, MailSent) == k - i
      && Count(t, FailureLogged) == k - i && Count(t, Waited) == k - i
      && TotalWaitMs(t) == RetryDelayMs * (k - i)
    decreases k - i
  {
    if i < k {
      var logged := [CreateTransport(config), SendMail(mail), LogAttemptFailed(i + 1, send(mail, i).error.message)];
      FailedAttemptsCount(mail, config, send, i + 1, k);
      CountAppend(logged, [Wait(RetryDelayMs)]);
      CountAppend(logged + [Wait(RetryDelayMs)], FailedAttempts(mail, config, send, i + 1, k));
      AttemptCounts(config, mail, i + 1, send(mail, i).error.message);
    }
  }

  /** If attempt `k` is the first to be accepted, the loop makes the `k`
      failed attempts (each with its log line and 2 s wait), then the
      successful one, and returns its message id. */
  lemma {:induction false} FirstSuccessFrom(mail: MailOptions, config: TransportConfig, send: Transport, retries: int, i: nat, k: nat)
    requires i <= k < retries
    requires forall j :: i <= j < k ==> send(mail, j).Failed?
    requires send(mail, k).Accepted?
    ensures RunFrom(mail, config, send, i, retries)
         == (Delivered(send(mail, k).messageId),
             FailedAttempts(mail, config, send, i, k) + [CreateTransport(config), SendMail(mail)])
    decreases k - i
  {
    if i < k {
      FirstSuccessFrom(mail, config, send, retries, i + 1, k);
      var logged := [CreateTransport(config), SendMail(mail), LogAttemptFailed(i + 1, send(mail, i).error.message)];
      var later := FailedAttempts(mail, config, send, i + 1, k);
      assert logged + [Wait(RetryDelayMs)] + (later + [CreateTransport(config), SendMail(mail)])
          == (logged + [Wait(RetryDelayMs)] + later) + [CreateTransport(config), SendMail(mail)];
    } else {
      assert FailedAttempts(mail, config, send, i, k) == [];
      assert [] + [CreateTransport(config), SendMail(mail)] == [CreateTransport(config), SendMail(mail)];
    }
  }

  /** If every attempt from `i` on fails, the loop makes all of them, waits
      after each but the last, and throws the last attempt's error. */
  lemma {:induction false} AllFailFrom(mail: MailOptions, config: TransportConfig, send: Transport, retries: int, i: nat)
    requires i < retries
    requires forall j :: i <= j < retries ==> send(mail, j).Failed?
    ensures RunFrom(mail, config, send, i, retries)
         == (Thrown(send(mail, retries - 1).error),
             FailedAttempts(mail, config, send, i, retries - 1)
             + [CreateTransport(config), SendMail(mail), LogAttemptFailed(retries, send(mail, retries - 1).error.message)])
    decreases retries - i
  {
    if i < retries - 1 {
      AllFailFrom(mail, config, send, retries, i + 1);
      var logged := [CreateTransport(config), SendMail(mail), LogAttemptFailed(i + 1, send(mail, i).error.message)];
      var later := FailedAttempts(mail, config, send, i + 1, retries - 1);
      var last := [CreateTransport(config), SendMail(mail), LogAttemptFailed(retries, send(mail, retries - 1).error.message)];
      assert logged + [Wait(RetryDelayMs)] + (later + last) == (logged + [Wait(RetryDelayMs)] + later) + last;
    } else {
      var last := [CreateTransport(config), SendMail(mail), LogAttemptFailed(retries, send(mail, retries - 1).error.message)];
      assert FailedAttempts(mail, config, send, i, retries - 1) == [];
      assert [] + last == last;
    }
  }

  /** The first success at attempt `k` (0-based): exactly `k + 1` attempts,
      each on a freshly created transport, and `k` waits of 2 s. */
  lemma FirstSuccessCounts(mail: MailOptions, config: TransportConfig, send: Transport, retries: int, k: nat)
    requires k < retries
    requires forall j :: 0 <= j < k ==> send(mail, j).Failed?
    requires send(mail, k).Accepted?
    ensures var (result, t) := RunFrom(mail, config, send, 0, retries);
      && result == Delivered(send(mail, k).messageId)
      && Count(t, MailSent) == k + 1 && Count(t, TransportCreated) == k + 1
      && Count(t, FailureLogged) == k && Count(t, Waited) == k
      && TotalWaitMs(t) == RetryDelayMs * k
  {
    FirstSuccessFrom(mail, config, send, retries, 0, k);
    FailedAttemptsCount(mail, config, send, 0, k);
    AttemptCounts(config, mail, 0, "");
    CountAppend(FailedAttempts(mail, config, send, 0, k), [CreateTransport(config), SendMail(mail)]);
  }

  /** Every error is retried the same way, whatever it says: when all
      attempts fail there are exactly `retries` of them, `retries - 1`
      waits of 2 s (none after the last), and the last error is thrown. */
  lemma AllFailCounts(mail: MailOptions, config: TransportConfig, send: Transport, retries: int)
    requires retries >= 1
    requires forall j :: 0 <= j < retries ==> send(mail, j).Failed?
    ensures var (result, t) := RunFrom(mail, config, send, 0, retries);
      && result == Thrown(send(mail, retries - 1).error)
      && Count(t, MailSent) == retries && Count(t, TransportCreated) == retries
      && Count(t, FailureLogged) == retries && Count(t, Waited) == retries - 1
      && TotalWaitMs(t) == RetryDelayMs * (retries - 1)
  {
    AllFailFrom(mail, config, send, retries, 0);
    FailedAttemptsCount(mail, config, send, 0, retries - 1);
    AttemptCounts(config, mail, retries, send(mail, retries - 1).error.message);
    CountAppend(FailedAttempts(mail, config, send, 0, retries - 1),
      [CreateTransport(config), SendMail(mail), LogAttemptFailed(retries, send(mail, retries - 1).error.message)]);
  }

  /** The converse: a returned message id comes from the first accepted
      attempt below the cap; a thrown error means every attempt failed and
      is the last one's; falling out of the loop happens exactly when
      `retries < 1`, and then nothing is attempted. */
  lemma {:induction false} RunFromOutcome(mail: MailOptions, config: TransportConfig, send: Transport, retries: int, i: nat)
    ensures var (result, t) := RunFrom(mail, config, send, i, retries);
      && (result.Delivered? ==>
            exists k :: i <= k < retries && send(mail, k) == Accepted(result.messageId)
                        && forall j :: i <= j < k ==> send(mail, j).Failed?)
      && (result.Thrown? ==>
            i < retries && (forall j :: i <= j < retries ==> send(mail, j).Failed?)
            && result.error == send(mail, retries - 1).error)
      && (result.NoResult? <==> i >= retries)
      && (result.NoResult? ==> t == [])
    decreases retries - i
  {
    if i < retries && send(mail, i).Failed? && i != retries - 1 {
      RunFromOutcome(mail, config, send, retries, i + 1);
      var result := RunFrom(mail, config, send, i + 1, retries).0;
      if result.Delivered? {
        var k :| i + 1 <= k < retries && send(mail, k) == Accepted(result.messageId)
                 && forall j :: i + 1 <= j < k ==> send(mail, j).Failed?;
        assert forall j :: i <= j < k ==> send(mail, j).Failed?;
      }
    }
  }

  /** Each attempt creates its transport from the same configuration and
      sends the same message; every wait is the fixed 2 s; there are never
      more attempts than `retries`, and one transport per attempt. */
  lemma {:induction false} UniformAttempts(mail: MailOptions, config: TransportConfig, send: Transport, retries: int, i: nat)
    ensures var t := RunFrom(mail, config, send, i, retries).1;
      && (forall e :: e in t && e.CreateTransport? ==> e.config == config)
      && (forall e :: e in t && e.SendMail? ==> e.mail == mail)
      && (forall e :: e in t && e.Wait? ==> e.ms == RetryDelayMs)
      && Count(t, TransportCreated) == Count(t, MailSent)
      && Count(t, MailSent) <= if retries > i then retries - i else 0
    decreases retries - i
  {
    if i < retries {
      match send(mail, i)
      case Accepted(_) =>
        AttemptCounts(config, mail, i + 1, "");
      case Failed(e) =>
        AttemptCounts(config, mail, i + 1, e.message);
        if i != retries - 1 {
          UniformAttempts(mail, config, send, retries, i + 1);
          var logged := [CreateTransport(config), SendMail(mail), LogAttemptFailed(i + 1, e.message)];
          CountAppend(logged, [Wait(RetryDelayMs)]);
          CountAppend(logged + [Wait(RetryDelayMs)], RunFrom(mail, config, send, i + 1, retries).1);
        }
    }
  }

  // ---------------------------------------------------------------------
  // The POST handler and its responses (contact.js:36-146)
  // ---------------------------------------------------------------------

  /** The JSON bodies the route sends. */
  datatype Body =
    | Confirmation(message: string)            // { success: true, message }
    | Rejection(error: string)                 // { error }
    | Failure(error: string, details: string)  // { error, details }

  datatype Response = Response(status: nat, body: Body)

  const RequiredFieldsError: string := "All fields are required"
  const SentMessage: string := "Email sent successfully"
  const SendFailedError: string := "Failed to send message. Please try again later."
  /** What `result.success` throws when `result` is `undefined`. */
  const UndefinedResultError: string := "Cannot read properties of undefined (reading 'success')"

  /** The handler as a function of the request, the environment, the clock
      and the transport: the response and the events of the request. */
  function Route(p: Payload, env: Env, clock: Clock, send: Transport): (Response, seq<Event>)
  {
    match Validate(p)
    case None => (Response(400, Rejection(RequiredFieldsError)), [])
    case Some(sub) =>
      var mail := BuildMailOptions(sub, env, clock);
      var (result, t) := RunFrom(mail, TransportFor(env), send, 0, DefaultRetries);
      match result
      case Delivered(id) => (Response(200, Confirmation(SentMessage)), t + [LogSent(id)])
      case Thrown(e) => (Response(500, Failure(SendFailedError, e.message)), t + [LogFinalError(e.message)])
      case NoResult => (Response(500, Failure(SendFailedError, UndefinedResultError)), t + [LogFinalError(UndefinedResultError)])
  }

  method HandlePost(p: Payload, env: Env, clock: Clock, send: Transport) returns (response: Response, trace: seq<Event>)
    ensures (response, trace) == Route(p, env, clock, send)
  {
    var checked := Validate(p);
    if checked.None? {
      return Response(400, Rejection(RequiredFieldsError)), [];
    }
    var mail := BuildMailOptions(checked.value, env, clock);
    var result;
    result, trace := SendEmailWithRetry(mail, TransportFor(env), send, DefaultRetries);
    match result
    case Delivered(id) =>
      response := Response(200, Confirmation(SentMessage));
      trace := trace + [LogSent(id)];
    case Thrown(e) =>
      response := Response(500, Failure(SendFailedError, e.message));
      trace := trace + [LogFinalError(e.message)];
    case NoResult =>
      response := Response(500, Failure(SendFailedError, UndefinedResultError));
      trace := trace + [LogFinalError(UndefinedResultError)];
  }

  /** The message the handler hands to the transport for a valid request. */
  function MailFor(p: Payload, env: Env, clock: Clock): MailOptions
    requires Validate(p).Some?
  {
    BuildMailOptions(Validate(p).value, env, clock)
  }

  /** A request missing any field, or with one empty, is answered 400 with
      the fixed text and nothing is sent; every other request reaches the
      transport. */
  lemma RouteRejectsIncomplete(p: Payload, env: Env, clock: Clock, send: Transport)
    ensures var (response, t) := Route(p, env, clock, send);
      && (response.status == 400 <==> exists f: FieldName :: !Truthy(Get(p, f)))
      && (response.status == 400 ==> response.body == Rejection(RequiredFieldsError) && t == [])
      && (response.status != 400 ==> Count(t, MailSent) >= 1)
  {
    if Validate(p).Some? {
      UniformAttempts(MailFor(p, env, clock), TransportFor(env), send, DefaultRetries, 0);
      RunFromOutcome(MailFor(p, env, clock), TransportFor(env), send, DefaultRetries, 0);
      var (result, t) := RunFrom(MailFor(p, env, clock), TransportFor(env), send, 0, DefaultRetries);
      if result.Delivered? {
        var k :| 0 <= k < DefaultRetries && send(MailFor(p, env, clock), k) == Accepted(result.messageId)
                 && forall j :: 0 <= j < k ==> send(MailFor(p, env, clock), j).Failed?;
        FirstSuccessCounts(MailFor(p, env, clock), TransportFor(env), send, DefaultRetries, k);
      } else {
        AllFailCounts(MailFor(p, env, clock), TransportFor(env), send, DefaultRetries);
      }
      CountAppend(t, [Route(p, env, clock, send).1[|t|]]);
      assert Route(p, env, clock, send).1 == t + [Route(p, env, clock, send).1[|t|]];
    }
  }

  /** First success on attempt `k` (0-based, below 3): 200 with the fixed
      confirmation, after exactly `k + 1` attempts and `k` waits of 2 s. */
  lemma RouteSucceedsOnAttempt(p: Payload, env: Env, clock: Clock, send: Transport, k: nat)
    requires Validate(p).Some?
    requires k < DefaultRetries
    requires forall j :: 0 <= j < k ==> send(MailFor(p, env, clock), j).Failed?
    requires send(MailFor(p, env, clock), k).Accepted?
    ensures var (response, t) := Route(p, env, clock, send);
      && response == Response(200, Confirmation(SentMessage))
      && Count(t, MailSent) == k + 1 && Count(t, Waited) == k
      && TotalWaitMs(t) == RetryDelayMs * k
  {
    var mail := MailFor(p, env, clock);
    FirstSuccessCounts(mail, TransportFor(env), send, DefaultRetries, k);
    var t := RunFrom(mail, TransportFor(env), send, 0, DefaultRetries).1;
    CountAppend(t, [LogSent(send(mail, k).messageId)]);
    CountSingle(LogSent(send(mail, k).messageId));
  }

  /** All three attempts fail: 500 with the fixed text and, as details, the
      message of the third attempt's error, after three attempts and two
      waits of 2 s. */
  lemma RouteExhausted(p: Payload, env: Env, clock: Clock, send: Transport)
    requires Validate(p).Some?
    requires forall j :: 0 <= j < DefaultRetries ==> send(MailFor(p, env, clock), j).Failed?
    ensures var (response, t) := Route(p, env, clock, send);
      && response == Response(500, Failure(SendFailedError, send(MailFor(p, env, clock), 2).error.message))
      && Count(t, MailSent) == 3 && Count(t, Waited) == 2
      && TotalWaitMs(t) == 4000
  {
    var mail := MailFor(p, env, clock);
    AllFailCounts(mail, TransportFor(env), send, DefaultRetries);
    var t := RunFrom(mail, TransportFor(env), send, 0, DefaultRetries).1;
    CountAppend(t, [LogFinalError(send(mail, 2).error.message)]);
    CountSingle(LogFinalError(send(mail, 2).error.message));
  }

  /** Every request gets exactly one of the three answers: 400 for an
      incomplete request, 200 when some attempt is accepted, and 500
      carrying the last transport error when all three fail. The 500 that
      an `undefined` result would cause never happens. */
  lemma RouteOutcomes(p: Payload, env: Env, clock: Clock, send: Transport)
    ensures Validate(p).Some? ==>
      RunFrom(MailFor(p, env, clock), TransportFor(env), send, 0, DefaultRetries).0 != NoResult
    ensures var response := Route(p, env, clock, send).0;
      && response.status in {200, 400, 500}
      && (response.status == 200 ==>
            && response.body == Confirmation(SentMessage)
            && exists k :: 0 <= k < DefaultRetries && send(MailFor(p, env, clock), k).Accepted?)
      && (response.status == 500 ==>
            && Validate(p).Some?
            && (forall j :: 0 <= j < DefaultRetries ==> send(MailFor(p, env, clock), j).Failed?)
            && response.body == Failure(SendFailedError, send(MailFor(p, env, clock), 2).error.message))
  {
    if Validate(p).Some? {
      RunFromOutcome(MailFor(p, env, clock), TransportFor(env), send, DefaultRetries, 0);
    }
  }

  /** A complete request whose transport times out twice and then accepts:
      200 after three attempts and 4 s of waiting. */
  lemma SucceedsAfterTwoFailures(env: Env, clock: Clock)
    ensures var p := Fields(Text("Ava"), Text("ava@x.com"), Text("Hi"), Text("Hello there"));
      var send: Transport := (m, i) => if i < 2 then Failed(MailError("timeout")) else Accepted("id-1");
      var (response, t) := Route(p, env, clock, send);
      && response == Response(200, Confirmation(SentMessage))
      && Count(t, MailSent) == 3 && TotalWaitMs(t) == 4000
  {
    var p := Fields(Text("Ava"), Text("ava@x.com"), Text("Hi"), Text("Hello there"));
    var send: Transport := (m, i) => if i < 2 then Failed(MailError("timeout")) else Accepted("id-1");
    RouteSucceedsOnAttempt(p, env, clock, send, 2);
  }

  /** A complete request whose transport always answers "auth failed": the
      permanent error is retried like any other, and the client gets 500
      with that message as details after 4 s of waiting. */
  lemma PermanentErrorIsRetried(env: Env, clock: Clock)
    ensures var p := Fields(Text("Ava"), Text("ava@x.com"), Text("Hi"), Text("Hello there"));
      var send: Transport := (m, i) => Failed(MailError("auth failed"));
      var (response, t) := Route(p, env, clock, send);
      && response == Response(500, Failure(SendFailedError, "auth failed"))
      && Count(t, MailSent) == 3 && TotalWaitMs(t) == 4000
  {
    var p := Fields(Text("Ava"), Text("ava@x.com"), Text("Hi"), Text("Hello there"));
    var send: Transport := (m, i) => Failed(MailError("auth failed"));
    RouteExhausted(p, env, clock, send);
  }
}
