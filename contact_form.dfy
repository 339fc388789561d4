/** The contact page's form (frontend/src/pages/Contact.jsx): the four
    field values, kept as one record, and the submission status
    `{ submitted, loading, error, success }`. A submission marks the
    status as loading, posts the form and, depending on the reply, shows
    success (and clears the form), shows an error, or leaves the status
    alone. The HTTP call is abstracted as its reply. */
module ContactForm {
  import opened Common

  type Form = Fields<string>

  const EmptyForm: Form := Fields("", "", "", "")

  datatype Status = Status(submitted: bool, loading: bool, error: Option<string>, success: bool)

  /** The status before anything happened. */
  const InitialStatus: Status := Status(false, false, None, false)

  /** The fallback text shown when the reply carries no error text. */
  const DefaultError: string := "Failed to send message. Please try again."

  /** How long the success notice stays before its timer clears it. */
  const SuccessNoticeMs: nat := 5000

  /** The parts of a JSON reply body the page reads: whether `success` is
      truthy, and the `error` text if there is one. */
  datatype ReplyData = ReplyData(success: bool, error: Option<string>)

  /** The outcome of the POST: an HTTP response, or no response at all
      (the server is unreachable). */
  datatype Reply = HttpReply(status: int, data: ReplyData) | NoResponse

  /** axios resolves for a 2xx status and rejects for everything else. */
  predicate Resolves(reply: Reply)
  {
    reply.HttpReply? && 200 <= reply.status < 300
  }

  /** `error.response?.data?.error || fallback`: the reply's error text
      when there is a response carrying a non-empty one, the fallback
      otherwise. */
  function ShownError(reply: Reply): (r: string)
    ensures r != ""
    ensures (reply.HttpReply? && reply.data.error.Some? && reply.data.error.value != "")
        ==> r == reply.data.error.value
    ensures !(reply.HttpReply? && reply.data.error.Some? && reply.data.error.value != "")
        ==> r == DefaultError
  {
    if reply.HttpReply? && reply.data.error.Some? && reply.data.error.value != "" then
      reply.data.error.value
    else
      DefaultError
  }

  /** `{ ...formData, [name]: value }`: field `f` takes the new value, the
      other three keep theirs. */
  function WithField(form: Form, f: FieldName, value: string): (r: Form)
    ensures Get(r, f) == value
    ensures forall g: FieldName :: g != f ==> Get(r, g) == Get(form, g)
  {
    match f
    case Name => form.(name := value)
    case Email => form.(email := value)
    case Subject => form.(subject := value)
    case Message => form.(message := value)
  }

  /** The status set when a submission starts. */
  function Started(s: Status): (r: Status)
    ensures r.loading && r.error == None && !r.success
    ensures r.submitted == s.submitted
  {
    s.(loading := true, error := None, success := false)
  }

  /** What the page holds after the reply is handled, and the delay of the
      success-notice timer the handler arms, if it arms one. */
  datatype Settlement = Settlement(status: Status, form: Form, noticeTimerMs: Option<nat>)

  /** The end of `handleSubmit`. `captured` is the status the handler saw
      when it was invoked (its error branch spreads that value, not the
      current one), `current` the status at the time of the reply. */
  function Settle(captured: Status, current: Status, form: Form, reply: Reply): (r: Settlement)
  {
    if Resolves(reply) then
      if reply.data.success then Settlement(Status(true, false, None, true), EmptyForm, Some(SuccessNoticeMs))
      else Settlement(current, form, None)
    else
      Settlement(captured.(loading := false, error := Some(ShownError(reply)), success := false), form, None)
  }

  /** The timer armed by a success: it clears the success notice only. */
  function NoticeExpired(s: Status): (r: Status)
    ensures !r.success
    ensures r.submitted == s.submitted && r.loading == s.loading && r.error == s.error
  {
    s.(success := false)
  }

  /** One submission from a page that is not already loading: the
      success notice appears exactly when the reply resolves with a truthy
      `success`, and then the form is cleared; a rejected request shows a
      non-empty error and keeps the form; a resolved reply without
      `success` changes nothing, leaving the page loading with the typed
      form kept and nothing shown. A 5 s timer is
      armed exactly on success. The page is never both successful and in
      error. */
  lemma SubmissionOutcome(s: Status, form: Form, reply: Reply)
    requires !s.loading
    ensures var r := Settle(s, Started(s), form, reply);
      && (r.status.success <==> Resolves(reply) && reply.data.success)
      && (r.status.success ==> r.status.submitted && r.form == EmptyForm)
      && r.noticeTimerMs == (if r.status.success then Some(SuccessNoticeMs) else None)
      && (!Resolves(reply) ==>
            && r.status == Status(s.submitted, false, Some(ShownError(reply)), false)
            && r.form == form)
      && (Resolves(reply) && !reply.data.success ==> r.status == Started(s) && r.form == form)
      && (r.status.loading <==> Resolves(reply) && !reply.data.success)
      && (r.status.error.Some? <==> !Resolves(reply))
      && (r.status.error.Some? ==> r.status.error.value != "")
      && !(r.status.success && r.status.error.Some?)
  {
  }

  /** Spreading the status the handler captured instead of the current one
      makes no difference when nothing else changed the status during the
      request. */
  lemma CapturedStatusHarmless(s: Status, form: Form, reply: Reply)
    ensures Settle(s, Started(s), form, reply) == Settle(Started(s), Started(s), form, reply)
  {
  }

  /** The page's state: the form values, the status and the number of
      success-notice timers scheduled and not yet fired. */
  class ContactPage {
    var form: Form
    var status: Status
    var pendingNotices: nat

    constructor()
      ensures form == EmptyForm && status == InitialStatus && pendingNotices == 0
    {
      form, status, pendingNotices := EmptyForm, InitialStatus, 0;
    }

    /** The submit button is disabled while a request is in flight. */
    predicate SubmitDisabled()
      reads this
    {
      status.loading
    }

    /** A keystroke in field `f`. */
    method HandleChange(f: FieldName, value: string)
      modifies this
      ensures form == WithField(old(form), f, value)
      ensures status == old(status) && pendingNotices == old(pendingNotices)
    {
      form := WithField(form, f, value);
    }

    /** The first half of `handleSubmit`, up to the awaited POST. The
        disabled button admits no submission while one is loading. Returns
        the status the handler captured and the form it posts. */
    method StartSubmit() returns (captured: Status, posted: Form)
      requires !SubmitDisabled()
      modifies this
      ensures captured == old(status) && posted == old(form)
      ensures status == Started(old(status))
      ensures form == old(form) && pendingNotices == old(pendingNotices)
    {
      captured, posted := status, form;
      status := Started(status);
    }

    /** The second half of `handleSubmit`, once the POST settles. */
    method FinishSubmit(captured: Status, reply: Reply)
      modifies this
      ensures var r := Settle(captured, old(status), old(form), reply);
        status == r.status && form == r.form
        && pendingNotices == old(pendingNotices) + (if r.noticeTimerMs.Some? then 1 else 0)
    {
      if Resolves(reply) {
        if reply.data.success {
          status := Status(true, false, None, true);
          form := EmptyForm;
          pendingNotices := pendingNotices + 1;
        }
      } else {
        status := captured.(loading := false, error := Some(ShownError(reply)), success := false);
      }
    }

    /** A scheduled success-notice timer fires after 5 s. */
    method NoticeTimerFires()
      requires pendingNotices > 0
      modifies this
      ensures status == NoticeExpired(old(status))
      ensures form == old(form) && pendingNotices == old(pendingNotices) - 1
    {
      status := status.(success := false);
      pendingNotices := pendingNotices - 1;
    }
  }
}
