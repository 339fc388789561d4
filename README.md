# Portfolio contact path, navigation and headline — a Dafny model

This project models the behaviour of a personal portfolio site. It covers
the Express route that receives the contact form and relays it by e-mail,
and three pieces of client logic: the contact form's state, the navigation
bar's scroll tracking and menu, and the home page's typewriter headline.

| file | module | models |
|---|---|---|
| `common.dfy` | `Common` | the four form fields (name, email, subject, message) as one record type, and `Option` |
| `contact_route.dfy` | `ContactRoute` | `backend/routes/contact.js`, described below |
| `typewriter.dfy` | `Typewriter` | the typing, pausing, deleting and role-switching effect of `frontend/src/pages/Home.jsx` |
| `navbar.dfy` | `Navbar` | the scroll listener, link navigation and menu toggle of `frontend/src/components/Navbar.jsx` |
| `contact_form.dfy` | `ContactForm` | the field updates and the submission status machine of `frontend/src/pages/Contact.jsx` |
| `end_to_end.dfy` | `EndToEnd` | the form posting to the route and showing the route's answer |

`ContactRoute` models four parts of `backend/routes/contact.js`:

- the completeness check;
- the mail options and their HTML body;
- the `sendEmailWithRetry` loop;
- the 200/400/500 answers.

Effects become inputs or recorded events:

- **Mail relay.** It is a function `send(mail, attempt)` that returns the
  relay's answer to each attempt.
- **Clock.** It supplies two rendered strings: the "Received" timestamp
  and the year.
- **Environment.** `EMAIL_USER` and `EMAIL_PASS` are a record.
- **Trace.** Creating a transport, `sendMail`, the console lines and the
  2-second sleeps are recorded as events in a trace.

`SendEmailWithRetry` is an imperative loop. It is proved equal to the
recursive definition `RunFrom`, and the retry lemmas are stated about
`RunFrom`.

The page objects whose fields change in place are classes:

- `Navbar.NavbarState`;
- `ContactForm.ContactPage`.

Their transitions are specified by pure functions, and the lemmas are
stated about those functions.

Three facts about the route's code shape the model:

- **No trimming.** Fields are not trimmed; the check is JavaScript
  truthiness, so a field of blanks is accepted
  (`ContactRoute.WhitespaceOnlyAccepted`).
- **No escaping.** Every field is interpolated into the HTML body
  verbatim (`ContactRoute.BodyShowsFieldsVerbatim`).
- **`retries` below 1.** The loop then returns `undefined`, and the
  handler throws on `result.success`, which yields the 500 answer. The
  model keeps that path (`NoResult`). `RunFromOutcome` shows it happens
  exactly when no attempt is allowed, and `RouteOutcomes` proves it never
  happens for a valid request with the default of 3.

## Model

| member | source | states |
|---|---|---|
| ContactRoute.Validate | backend/routes/contact.js:38-42 | the request is accepted exactly when all four fields are non-empty strings; an accepted submission carries the four strings unchanged |
| ContactRoute.WhitespaceOnlyAccepted | backend/routes/contact.js:40 | fields made only of blanks pass the check unchanged: there is no trimming |
| ContactRoute.BuildMailOptions | backend/routes/contact.js:44-48 | the mail goes to the operator account; the sender is the fixed display name followed by `<operator>`; replies go to the submitter's email; the subject is the fixed prefix followed by the submitted subject |
| ContactRoute.BodyShowsFieldsVerbatim | backend/routes/contact.js:49-130 | each interpolated value appears character for character in the HTML body: name, email, subject, message, timestamp and year (nothing is escaped) |
| ContactRoute.SendEmailWithRetry | backend/routes/contact.js:6-34 | the loop's result and its events equal those of the recursive definition `RunFrom` from attempt 0 |
| ContactRoute.FirstSuccessFrom | backend/routes/contact.js:7-32 | if attempt k is the first accepted, the loop makes k failed attempts, each with a log line and a 2 s wait, then a successful send, and returns that message id |
| ContactRoute.AllFailFrom | backend/routes/contact.js:27-32 | if every attempt fails, the loop makes all of them, waits after every one but the last, and throws the last attempt's error |
| ContactRoute.FirstSuccessCounts | backend/routes/contact.js:6-34 | first success at attempt k: k+1 transports and sends, k failure logs, k waits, 2000·k ms asleep |
| ContactRoute.AllFailCounts | backend/routes/contact.js:27-32 | all attempts fail: exactly `retries` sends and `retries - 1` waits, and the last error is thrown, whatever its message (permanent errors are retried too) |
| ContactRoute.RunFromOutcome | backend/routes/contact.js:6-34 | converse characterisation: a delivered id comes from the first accepted attempt; a thrown error means every attempt failed and is the last one's error; no result happens exactly when no attempt is allowed, with no events |
| ContactRoute.UniformAttempts | backend/routes/contact.js:7-31 | every attempt builds its transport from the same configuration and sends the same mail; every wait is 2000 ms; transports equal sends, and there are at most `retries` of them |
| ContactRoute.HandlePost | backend/routes/contact.js:36-146 | the handler's response and events equal the route definition `Route` |
| ContactRoute.RouteRejectsIncomplete | backend/routes/contact.js:40-41 | 400 exactly when some field is missing or empty; then the body is "All fields are required" and nothing is sent; otherwise at least one send happens |
| ContactRoute.RouteSucceedsOnAttempt | backend/routes/contact.js:133-137 | first acceptance at attempt k < 3: 200 with "Email sent successfully", after k+1 sends and k waits of 2 s |
| ContactRoute.RouteExhausted | backend/routes/contact.js:139-144 | three failures: 500 with the fixed text and the third error's message as details, after 3 sends and 4000 ms of waiting |
| ContactRoute.RouteOutcomes | backend/routes/contact.js:36-146 | for a valid request the loop with the default 3 attempts never falls through without a result; every status is 200, 400 or 500; 200 only with the confirmation body and some accepted attempt; 500 only for a complete request whose three attempts all failed, carrying the last error |
| ContactRoute.SucceedsAfterTwoFailures | backend/routes/contact.js:6-34 | a relay that times out twice and then accepts yields 200 after 3 sends and 4 s of waiting |
| ContactRoute.PermanentErrorIsRetried | backend/routes/contact.js:27-31 | a relay that always answers "auth failed" is still tried three times, and the client gets 500 with that message |
| Typewriter.SlicePrefix | frontend/src/pages/Home.jsx:28 | `slice(0, n)` yields a prefix of the role of length n, clamped to the role's length |
| Typewriter.Step | frontend/src/pages/Home.jsx:22-42 | the role index stays within the five roles |
| Typewriter.StepKeepsPrefix | frontend/src/pages/Home.jsx:26-39 | when the shown text is a prefix of the current role, exactly one of the four branches applies, the effect always schedules a change, and the next text is again a prefix of its role |
| Typewriter.TypingStep | frontend/src/pages/Home.jsx:26-29 | typing appends the role's next character after 100 ms |
| Typewriter.ErasingStep | frontend/src/pages/Home.jsx:30-33 | deleting drops the last character after 50 ms |
| Typewriter.TurnSteps | frontend/src/pages/Home.jsx:34-39 | a fully typed role starts deleting after 2000 ms; an emptied line moves at once to the next role, the fifth wrapping to the first |
| Typewriter.Run | frontend/src/pages/Home.jsx:22-42 | any number of effect runs keeps the role index within the five roles |
| Typewriter.RunKeepsPrefix | frontend/src/pages/Home.jsx:22-42 | the prefix invariant holds in every state reached from a state that satisfies it |
| Typewriter.ReachableStates | frontend/src/pages/Home.jsx:10-20 | from the initial state (first role, empty, typing) the headline only ever shows a prefix of one of the five roles |
| Typewriter.TypingPhase | frontend/src/pages/Home.jsx:26-29 | from k typed characters, the rest of the role is typed in |role|-k runs of 100 ms |
| Typewriter.ErasingPhase | frontend/src/pages/Home.jsx:30-33 | from k shown characters, deleting empties the line in k runs of 50 ms |
| Typewriter.TypeAndPause | frontend/src/pages/Home.jsx:26-35 | from an empty line, |role|+1 runs later the whole role is shown and deleting has begun, after 100·|role| + 2000 ms |
| Typewriter.EraseAndSwitch | frontend/src/pages/Home.jsx:30-39 | from a full role being deleted, |role|+1 runs later the line is empty on the next role, after 50·|role| ms |
| Typewriter.FullCycle | frontend/src/pages/Home.jsx:22-42 | one full cycle of 2·|role|+2 runs takes 150 ms per character plus 2000 ms and ends empty on the next role |
| Navbar.ReverseInPlace | frontend/src/components/Navbar.jsx:18 | `reverse()` leaves the array holding its old contents back to front |
| Navbar.LastQualifying | frontend/src/components/Navbar.jsx:16-27 | the index found qualifies (its element exists with top ≤ 100), and no later id qualifies; -1 only when none does |
| Navbar.ActiveAfterScroll | frontend/src/components/Navbar.jsx:16-27 | the new active section is the last qualifying section in page order; with none it is the previous one; an id without an element is never chosen; the result stays one of the seven ids |
| Navbar.NavbarState.constructor | frontend/src/components/Navbar.jsx:7-9 | menu closed, not scrolled, active section "home" |
| Navbar.NavbarState.HandleScroll | frontend/src/components/Navbar.jsx:13-28 | keeps the active section one of the seven ids; `scrolled` is true exactly when the scroll offset exceeds 50; the reversed scan with `break` sets the active section to `ActiveAfterScroll`; the menu is untouched |
| Navbar.NavbarState.ScrollToSection | frontend/src/components/Navbar.jsx:44-50 | the menu closes only when the target element exists; nothing else changes |
| Navbar.NavbarState.ToggleMenu | frontend/src/components/Navbar.jsx:145 | the menu flips; nothing else changes |
| ContactForm.ShownError | frontend/src/pages/Contact.jsx:75 | the shown error is the reply's non-empty `error` text when there is one, else the fixed fallback; it is never empty |
| ContactForm.WithField | frontend/src/pages/Contact.jsx:37-42 | the named field takes the new value and the other three keep theirs |
| ContactForm.Started | frontend/src/pages/Contact.jsx:46 | a submission sets loading, clears the error and the success flag, and keeps `submitted` |
| ContactForm.NoticeExpired | frontend/src/pages/Contact.jsx:67-69 | the notice timer clears the success flag and nothing else (its 5000 ms delay is stated by `SubmissionOutcome`) |
| ContactForm.SubmissionOutcome | frontend/src/pages/Contact.jsx:44-79 | success exactly when the reply resolves with truthy `success`, and then the form is cleared; a 5000 ms notice timer is armed exactly on success; a rejected request ends not loading with a non-empty error and the form kept; a resolved reply without `success` changes nothing (the status stays as the submission set it and the form is kept), and only then does the page stay loading; never success and error at once |
| ContactForm.CapturedStatusHarmless | frontend/src/pages/Contact.jsx:72-77 | spreading the status captured at the start of the handler gives the same result as spreading the current one |
| ContactForm.ContactPage.constructor | frontend/src/pages/Contact.jsx:23-35 | empty form, idle status, no timer pending |
| ContactForm.ContactPage.HandleChange | frontend/src/pages/Contact.jsx:37-42 | the form becomes `WithField` of the old form; the status is unchanged |
| ContactForm.ContactPage.StartSubmit | frontend/src/pages/Contact.jsx:44-50 | allowed only while the button is enabled (not loading); the status becomes `Started`; it returns the captured status and the posted form |
| ContactForm.ContactPage.FinishSubmit | frontend/src/pages/Contact.jsx:52-78 | the status and the form become what `Settle` prescribes for the reply, and one more notice timer is pending exactly when `Settle` arms one |
| ContactForm.ContactPage.NoticeTimerFires | frontend/src/pages/Contact.jsx:67-69 | the success flag is cleared and the form is untouched |
| EndToEnd.PayloadOf | frontend/src/pages/Contact.jsx:50 | every field of the posted JSON is the form's string |
| EndToEnd.Received | backend/routes/contact.js:137-143 | the page reads `success` only from the 200 confirmation, and reads the route's `error` text from both failure bodies |
| EndToEnd.EmptyFieldShowsRequired | backend/routes/contact.js:41 | a form with an empty field ends showing "All fields are required", no longer loading, with the typed values kept |
| EndToEnd.RoundTrip | frontend/src/pages/Contact.jsx:44-78 | one submission posted to the route and settled by the page: the form is kept unless the submission succeeded, and the 5000 ms notice timer is armed exactly on success |
| EndToEnd.AcceptedShowsSuccess | frontend/src/pages/Contact.jsx:52-69 | a complete form whose mail is accepted ends in success with the form cleared and the 5000 ms notice timer armed |
| EndToEnd.ExhaustedShowsRouteError | backend/routes/contact.js:142 | when all attempts fail, the page shows the route's "Please try again later." text rather than its own fallback, and keeps the form |
| EndToEnd.NeverStuckLoading | frontend/src/pages/Contact.jsx:52-77 | against this route a submission never stays loading; it succeeds exactly when the route answers 200; any error shown is one of the route's two texts |

## Left out

- **The mail transport.** Nodemailer, SMTP, TLS, the host/port and the
  connection timeouts (contact.js:9-23) are a function from (mail,
  attempt) to an answer. A real relay's answer may depend on more than
  these two.
- **Console output and sleeping.** These are events in a trace, not I/O.
  Real time passing is not modelled; delays are numbers of milliseconds.
- **An unset `EMAIL_USER`/`EMAIL_PASS`.** The environment is two strings.
  An unset variable would render as "undefined" in the template; that is
  not modelled.
- **Non-string JSON values.** Payload fields are absent, `null` or a
  string. Numbers, booleans, arrays and objects are not modelled, nor is
  how they would be coerced into the template.
- **Express itself.** Body parsing, and an exception thrown while building
  the mail options, are not modelled.
- **Static text of the HTML body.** It is abbreviated to a few fixed
  fragments; the inline styles and layout are not reproduced. The positions
  and order of the interpolated values are kept.
- **Rendering dates.** `toLocaleString()` and `getFullYear()` are supplied
  as already-rendered strings.
- **Concurrency.** Concurrent requests and overlapping React updates are
  not modelled. The route handles one request at a time. The page handles
  one submission at a time, which the disabled button enforces.
- **React scheduling.** Re-renders, effect clean-up (`clearTimeout`) and
  batching of state setters are abstracted: each handler's setters are
  applied together as one transition.
- **Typewriter timers.** `Typewriter.Step` returns the delay and the next
  state instead of arming a `setTimeout`. A cancelled timer is not
  modelled, because the effect's dependencies only change when the timer
  fires.
- **DOM, browser and animation.** These are not modelled:
  - `getElementById`, `getBoundingClientRect`, `scrollIntoView` and
    `window.scrollY` are represented by a map from element id to integer
    top edge and an integer scroll offset; fractional pixel values are not
    modelled;
  - framer-motion animations, Tailwind classes, JSX rendering and the
    theme toggle;
  - the browser's own `required`/`type="email"` checks, which may stop
    a submission before `handleSubmit` runs;
  - the resume download anchor (Home.jsx:44-51).
- **axios.** The HTTP call is its reply: a status and the two body
  properties the page reads, or no response. Only the default rule that
  2xx resolves is modelled. The API base URL (Contact.jsx:49) is not.
- ContactForm.ContactPage.FinishSubmit: the captured status is passed
  in by the caller. `StartSubmit` returns the status it found, so a caller
  that passes that value on matches the handler's closure.
  `CapturedStatusHarmless` shows that spreading that pre-submit status
  gives the same settlement as spreading the current, `Started` one. A
  second submission overlapping the first is not modelled.
- **The other pages.** About, Education, Projects, Internships, TechStack,
  App and ThemeToggle are not part of this model.
