/** The contact form and the contact route together: the page posts its
    four strings, the route answers, and the page shows the outcome. The
    route's `error` texts (backend/routes/contact.js) are what the page
    displays (frontend/src/pages/Contact.jsx), because a non-empty
    `error` in a rejected reply wins over the page's own fallback. */
module EndToEnd {
  import opened Common
  import ContactRoute
  import ContactForm

  /** The JSON the page posts: every form field is a string. */
  function PayloadOf(form: ContactForm.Form): (p: ContactRoute.Payload)
    ensures forall f: FieldName :: Get(p, f) == ContactRoute.Text(Get(form, f))
  {
    Fields(ContactRoute.Text(form.name), ContactRoute.Text(form.email),
           ContactRoute.Text(form.subject), ContactRoute.Text(form.message))
  }

  /** A route response as the page reads it: `success` is present (and
      true) only in the confirmation, `error` only in the two failures. */
  function Received(response: ContactRoute.Response): (r: ContactForm.Reply)
    ensures r.HttpReply? && r.status == response.status
    ensures r.data.success <==> response.body.Confirmation?
    ensures response.body.Confirmation? <==> r.data.error.None?
    ensures r.data.error.Some? ==> r.data.error.value == response.body.error
  {
    var data := match response.body
      case Confirmation(_) => ContactForm.ReplyData(true, None)
      case Rejection(e) => ContactForm.ReplyData(false, Some(e))
      case Failure(e, _) => ContactForm.ReplyData(false, Some(e))
      ;
    ContactForm.HttpReply(response.status, data)
  }

  /** One round trip: a submission from a page that is not loading, the
      route's handling of the posted form, and the page's handling of the
      reply. Only a successful submission clears the form, and exactly
      that one arms the 5 s notice timer. */
  function RoundTrip(s: ContactForm.Status, form: ContactForm.Form,
                     env: ContactRoute.Env, clock: ContactRoute.Clock,
                     send: ContactRoute.Transport): (r: ContactForm.Settlement)
    ensures !r.status.success ==> r.form == form
    ensures r.noticeTimerMs == (if r.status.success then Some(ContactForm.SuccessNoticeMs) else None)
  {
    var response := ContactRoute.Route(PayloadOf(form), env, clock, send).0;
    ContactForm.Settle(s, ContactForm.Started(s), form, Received(response))
  }

  /** A form with an empty field is answered 400, and the page shows the
      route's "All fields are required" and keeps what was typed. */
  lemma EmptyFieldShowsRequired(s: ContactForm.Status, form: ContactForm.Form,
                                env: ContactRoute.Env, clock: ContactRoute.Clock,
                                send: ContactRoute.Transport, f: FieldName)
    requires Get(form, f) == ""
    ensures RoundTrip(s, form, env, clock, send)
         == ContactForm.Settlement(
              ContactForm.Status(s.submitted, false, Some(ContactRoute.RequiredFieldsError), false),
              form, None)
  {
    assert !ContactRoute.Truthy(Get(PayloadOf(form), f));
    ContactRoute.RouteRejectsIncomplete(PayloadOf(form), env, clock, send);
  }

  /** A complete form whose mail is accepted on attempt `k`: the page
      shows the success notice, clears the form and arms the 5 s timer. */
  lemma AcceptedShowsSuccess(s: ContactForm.Status, form: ContactForm.Form,
                             env: ContactRoute.Env, clock: ContactRoute.Clock,
                             send: ContactRoute.Transport, k: nat)
    requires forall f: FieldName :: Get(form, f) != ""
    requires k < ContactRoute.DefaultRetries
    requires forall j :: 0 <= j < k ==>
      send(ContactRoute.MailFor(PayloadOf(form), env, clock), j).Failed?
    requires send(ContactRoute.MailFor(PayloadOf(form), env, clock), k).Accepted?
    ensures RoundTrip(s, form, env, clock, send)
         == ContactForm.Settlement(ContactForm.Status(true, false, None, true), ContactForm.EmptyForm,
                                   Some(ContactForm.SuccessNoticeMs))
  {
    ContactRoute.RouteSucceedsOnAttempt(PayloadOf(form), env, clock, send, k);
  }

  /** A complete form whose three attempts all fail: the page shows the
      route's "Failed to send message. Please try again later.", not its
      own fallback, and keeps the form. */
  lemma ExhaustedShowsRouteError(s: ContactForm.Status, form: ContactForm.Form,
                                 env: ContactRoute.Env, clock: ContactRoute.Clock,
                                 send: ContactRoute.Transport)
    requires forall f: FieldName :: Get(form, f) != ""
    requires forall j :: 0 <= j < ContactRoute.DefaultRetries ==>
      send(ContactRoute.MailFor(PayloadOf(form), env, clock), j).Failed?
    ensures RoundTrip(s, form, env, clock, send)
         == ContactForm.Settlement(
              ContactForm.Status(s.submitted, false, Some(ContactRoute.SendFailedError), false),
              form, None)
    ensures ContactRoute.SendFailedError != ContactForm.DefaultError
  {
    ContactRoute.RouteExhausted(PayloadOf(form), env, clock, send);
  }

  /** Against this route a submission always settles: the page never stays
      loading, it ends in success exactly when the route answered 200 and
      otherwise shows one of the route's two error texts. */
  lemma NeverStuckLoading(s: ContactForm.Status, form: ContactForm.Form,
                          env: ContactRoute.Env, clock: ContactRoute.Clock,
                          send: ContactRoute.Transport)
    ensures var r := RoundTrip(s, form, env, clock, send);
      var response := ContactRoute.Route(PayloadOf(form), env, clock, send).0;
      && !r.status.loading
      && (r.status.success <==> response.status == 200)
      && (r.status.error.Some? ==>
            r.status.error.value in {ContactRoute.RequiredFieldsError, ContactRoute.SendFailedError})
  {
    ContactRoute.RouteOutcomes(PayloadOf(form), env, clock, send);
    ContactRoute.RouteRejectsIncomplete(PayloadOf(form), env, clock, send);
  }
}
