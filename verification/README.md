# Event registration and single-play credits: a Dafny model

The golf prize-competition app takes payments through three serverless
handlers:

- `create-event-checkout` registers a signed-in user for an event. A free
  event registers them at once. A paid event gets a checkout session tagged
  with the event and the user.
- `verify-event-payment` turns a paid checkout into a registration.
- `verify-single-play` records a single-play credit for the caller from any
  checkout session the payment processor reports paid.

Together these handlers form a small state machine over two tables,
`event_registrations` and `single_play_credits`. They also read the `events`
table.

This project models each handler as a pure function. Each one takes the
request, the answers of the services it calls, and the tables, and returns
the response and the new tables:

- The identity provider's token check is a function argument `getUser`.
- The payment processor is also given as function arguments: the customer
  lookup, session creation, the session list and session retrieval.
- The result of a database insert is an argument, and so is the clock.

Lookups (`select … .single()` / `.maybeSingle()`) are computed from the
tables, with the libraries' rule that data comes back only when exactly one
row matches.

Modules:

- `Types` defines the rows, requests, responses and service answers.
- `Guards` holds the opening checks shared by all three handlers: the
  Authorization header, the bearer token, JavaScript truthiness and required
  body fields.
- `Tables` holds the row queries (filter, single-row select, first match) and
  the two uniqueness invariants, with their lemmas.
- `CreateEventCheckout`, `VerifyEventPayment` and `VerifySinglePlay` model
  one handler each, with lemmas for each guard, each branch, idempotence and
  invariant preservation.
- `Ledger` covers any sequence of calls. It shows that at most one
  registration per (user, event) and at most one credit per payment session
  hold throughout, and that rows are only ever appended.

Registrations and credits are sequences of rows, not sets, so that "at most
one per key" is a property that has to be proved. The handlers check for an
existing row and then insert. A `.single()` / `.maybeSingle()` select returns
no data when two rows match, so the handlers would then insert again. For
this reason the idempotence lemmas take the uniqueness invariant as a
precondition.

Two behaviours of the code are worth knowing. The model follows the code:

- The two handlers that register a caller answer a repeated registration
  differently. `create-event-checkout` answers status 400 with the error
  "You are already registered for this event"
  (supabase/functions/create-event-checkout/index.ts:100-104).
  `verify-event-payment` answers 200 with `alreadyRegistered`
  (supabase/functions/verify-event-payment/index.ts:68-73).
- Payment verification does not look for any matching checkout session. It
  asks for the ten most recent sessions of the whole account (limit 10) and
  searches only those. A paid session outside that list is reported as
  "Payment not found or not completed". In the model the session list is
  whatever the processor returns for that limit.
- `verify-single-play` checks only the session's payment status
  (supabase/functions/verify-single-play/index.ts:77-85). It does not read
  the session's metadata, so it checks neither who paid nor what was
  bought. Any paid session id not yet recorded becomes a credit for the
  caller. This includes an event checkout and another user's unrecorded
  single-play purchase. In the model, `retrieve` returns only the payment
  status, and `RecordsOnlyPaidSessions` holds for every admitted caller and
  every paid session.

## Model

| member | source | states |
|---|---|---|
| Guards.BearerToken | supabase/functions/create-event-checkout/index.ts:37 | The token is the header with the first "Bearer " removed, wherever it stands: when the first occurrence is at index i, the token is the header's first i characters followed by everything after that occurrence. A header starting with "Bearer " yields the rest. A header without it is passed unchanged. |
| Guards.BearerHeaderYieldsToken | supabase/functions/verify-event-payment/index.ts:37 | A "Bearer <t>" header always yields exactly t. |
| Guards.Authenticate | supabase/functions/verify-single-play/index.ts:28-47 | Stops with 401 exactly when the header is null or empty. Otherwise stops with 403 and the handler's message exactly when the provider rejects the token. Continues only with the user the provider returned for that token. |
| Guards.RequiredField | supabase/functions/verify-event-payment/index.ts:50-56 | Continues exactly when the body is an object with a non-empty value for the field, and then with that value. An unreadable body is 500 (the outer catch). A missing or empty field is 400. |
| Tables.FindFirst | supabase/functions/verify-event-payment/index.ts:83-88 | The index returned satisfies the predicate and no earlier element does. None exactly when no element satisfies it. |
| Tables.AtMostOneWithKey | supabase/functions/create-event-checkout/index.ts:93-98 | If no two rows share a key, a select by key matches at most one row. |
| Tables.ExistingRegistrationIffRegistered | supabase/functions/create-event-checkout/index.ts:93-100 | Under the uniqueness invariant, the existing-registration select matches at most one row. It returns data exactly when (event, user) is registered. |
| Tables.RegisterKeepsUnique | supabase/functions/create-event-checkout/index.ts:100-116 | Inserting (event, user) after the select found nothing keeps at most one registration per (user, event). |
| Tables.ExistingCreditIffRecorded | supabase/functions/verify-single-play/index.ts:61-67 | Under the uniqueness invariant, the `.single()` select by session id returns data exactly when some credit, of any owner, has that session id. |
| Tables.RecordKeepsUnique | supabase/functions/verify-single-play/index.ts:61-94 | Appending a credit whose session the select did not find keeps session ids unique. |
| CreateEventCheckout.Pence | supabase/functions/create-event-checkout/index.ts:156 | The unit amount is within half a penny of fee × 100, with halves rounded up (`Math.round` on exact values). |
| CreateEventCheckout.Admit | supabase/functions/create-event-checkout/index.ts:29-64 | Admits a caller exactly when the token check passes, the user has a non-empty e-mail and the body has a non-empty eventId, and then admits that user with that eventId. |
| CreateEventCheckout.Handle | supabase/functions/create-event-checkout/index.ts:26-175 | Never writes events or credits. Any state change is exactly one appended registration (eventId, caller), answered 200 `{success, free}`, with no checkout sent. Any checkout sent leaves the state unchanged and carries metadata event_id = eventId and user_id = caller. Status 200 means a registration or a checkout URL. |
| CreateEventCheckout.AuthFailuresChangeNothing | supabase/functions/create-event-checkout/index.ts:29-54 | A missing header is 401. A rejected token is 403. A user without an e-mail is 403. In all three cases the state is unchanged and no checkout is sent. |
| CreateEventCheckout.MissingEventIdRegistersNothing | supabase/functions/create-event-checkout/index.ts:58-64 | An authenticated caller with no eventId gets 400 "Event ID is required". Nothing changes. |
| CreateEventCheckout.UnknownOrClosedEventRejected | supabase/functions/create-event-checkout/index.ts:69-88 | An unknown event is 404. A disabled event is 400 "not open". The state is unchanged and no checkout is sent, whatever the registrations or the fee. |
| CreateEventCheckout.AlreadyRegisteredRejected | supabase/functions/create-event-checkout/index.ts:93-105 | A caller already registered for an open event gets 400 "already registered". The state is unchanged and no checkout is sent, whatever the fee. |
| CreateEventCheckout.FreeEventRegistersCaller | supabase/functions/create-event-checkout/index.ts:107-131 | A null or non-positive fee appends exactly (eventId, caller) and answers `{success, free}` with no checkout. A failed insert is 500 "Failed to register" with nothing changed. |
| CreateEventCheckout.PaidEventSendsTaggedCheckout | supabase/functions/create-event-checkout/index.ts:133-175 | A positive fee registers nobody. A checkout is sent unless the customer lookup throws. It has metadata {event_id, user_id} = (eventId, caller), one line item with quantity 1 in "gbp" at Pence(fee), and mode "payment". The customer is the first id the e-mail lookup returned, or none when it returned nothing. The e-mail is sent only when that customer id is missing or empty. The answer is the session URL, or 500 when creation throws. |
| CreateEventCheckout.CheckoutKeepsRegistrationsUnique | supabase/functions/create-event-checkout/index.ts:93-116 | At most one registration per (user, event) is preserved by every call. |
| VerifyEventPayment.MatchingSession | supabase/functions/verify-event-payment/index.ts:83-88 | Picks the first listed session whose metadata event_id and user_id equal the request's event and the caller and whose status is "paid". None exactly when no listed session does. |
| VerifyEventPayment.Admit | supabase/functions/verify-event-payment/index.ts:29-56 | Admits a caller exactly when the token check passes and the body has a non-empty eventId, and then admits that user with that eventId. There is no e-mail check. |
| VerifyEventPayment.Handle | supabase/functions/verify-event-payment/index.ts:26-120 | Never writes events or credits. Any state change is exactly one appended registration (eventId, caller), answered 200 `{success}`, and only when the processor's session list holds a paid session for that event and caller. Status 200 means that or `alreadyRegistered`. |
| VerifyEventPayment.RejectedRequestsChangeNothing | supabase/functions/verify-event-payment/index.ts:29-56 | A missing header is 401. A rejected token is 403. A missing eventId is 400. The state is unchanged. |
| VerifyEventPayment.AlreadyRegisteredShortCircuits | supabase/functions/verify-event-payment/index.ts:61-74 | A registered caller gets `{success, alreadyRegistered}` with nothing changed. The result is the same for every session list and every insert result, so neither is consulted. |
| VerifyEventPayment.RegistersOnlyOnPaidMatch | supabase/functions/verify-event-payment/index.ts:79-120 | With no matching paid session the answer is 400 "Payment not found or not completed" and nothing is registered. With one, exactly (eventId, caller) is appended and the answer is `{success}`. A failed insert is 500 with nothing changed. |
| VerifyEventPayment.SettleIdempotent | supabase/functions/verify-event-payment/index.ts:61-106 | Once admitted, a second identical call leaves the state the first left. After a first call that registered, the second answers exactly `alreadyRegistered` with nothing changed. |
| VerifyEventPayment.SettleKeepsRegistrationsUnique | supabase/functions/verify-event-payment/index.ts:61-106 | Once admitted, every call preserves at most one registration per (user, event). |
| VerifyEventPayment.VerifyIdempotent | supabase/functions/verify-event-payment/index.ts:61-106 | A second identical call leaves the state the first left. After a first call that registered, the second answers `alreadyRegistered`. |
| VerifyEventPayment.VerifyKeepsRegistrationsUnique | supabase/functions/verify-event-payment/index.ts:98-106 | At most one registration per (user, event) is preserved by every call. |
| VerifySinglePlay.Admit | supabase/functions/verify-single-play/index.ts:28-56 | Admits a caller exactly when the token check passes and the body has a non-empty session_id, and then admits that user with that session_id. |
| VerifySinglePlay.Handle | supabase/functions/verify-single-play/index.ts:25-108 | Never writes events or registrations. Any state change appends exactly one unredeemed credit for (caller, session_id), keeps the old credits as a prefix, answers 200 `{success}`, and happens only when the processor reports that session "paid". Status 200 means that or `already_recorded`. |
| VerifySinglePlay.RejectedRequestsChangeNothing | supabase/functions/verify-single-play/index.ts:28-56 | A missing header is 401. A rejected token is 403. A missing session_id is 400. No credit is created. |
| VerifySinglePlay.RecordedSessionShortCircuits | supabase/functions/verify-single-play/index.ts:61-73 | A session that any credit was bought with, whoever owns it, is answered `{success, already_recorded}` with nothing changed, for every processor answer and insert result. |
| VerifySinglePlay.RecordsOnlyPaidSessions | supabase/functions/verify-single-play/index.ts:75-108 | For an unrecorded session, a status other than "paid" is 400 "Payment not completed" with no credit. "paid" appends exactly one credit: it belongs to the caller, names the session, is stamped with the clock, and has used_at and course_id null. A failed insert is 500 with the database's message and nothing changed. |
| VerifySinglePlay.RecordIdempotent | supabase/functions/verify-single-play/index.ts:60-94 | Once admitted, after a call that recorded a session, any later admitted call naming that session gets `already_recorded` and leaves the credits unchanged. This holds for any caller, clock or service answers. |
| VerifySinglePlay.RecordKeepsSessionsUnique | supabase/functions/verify-single-play/index.ts:61-94 | Once admitted, a call keeps stripe_session_id unique across credits. |
| VerifySinglePlay.SinglePlayIdempotent | supabase/functions/verify-single-play/index.ts:60-94 | For whole requests, a second identical call leaves the state the first left. |
| VerifySinglePlay.LaterRequestsSeeRecordedSession | supabase/functions/verify-single-play/index.ts:60-73 | For whole requests, after a call that recorded a session, any later admitted request naming it gets `already_recorded` with the credits unchanged. This holds for any user, clock or service answers. |
| VerifySinglePlay.SinglePlayKeepsSessionsUnique | supabase/functions/verify-single-play/index.ts:87-94 | Every call keeps stripe_session_id unique across credits. |
| Ledger.ApplyKeepsValid | supabase/functions/verify-event-payment/index.ts:100-106 | Covers this insert and the two others (create-event-checkout/index.ts:107-116, verify-single-play/index.ts:87-94). Any one handler call keeps both uniqueness invariants, leaves events untouched and only appends to registrations and credits. |
| Ledger.RunKeepsValid | supabase/functions/create-event-checkout/index.ts:107-116 | Covers this insert and the two others (verify-event-payment/index.ts:100-106, verify-single-play/index.ts:87-94). Over any sequence of calls, both uniqueness invariants hold, events are untouched, and earlier registrations and credits stay as a prefix. |
| Ledger.AtMostOnePerKey | supabase/functions/verify-single-play/index.ts:87-94 | Covers this insert and the two others (create-event-checkout/index.ts:107-116, verify-event-payment/index.ts:100-106). Starting from empty tables, any sequence of calls leaves at most one registration per (user, event) and at most one credit per payment session. |

## Left out

- The identity provider, the payment processor and the database are not modelled. They appear only as arguments holding their answers: the user for a token, the customer ids for an e-mail, the URL or exception of session creation, the session list, the payment status of a session, and the success or error of an insert. Stripe's API key, API version and customer-list limit of one are configuration of those calls.
- A failed `select` is not modelled. Every lookup returns the table's true answer. In the source, a failed events select would answer 404, and a failed registration or credit select would be taken as "none".
- Concurrency is not modelled. The source's check-then-insert is not atomic, and whatever unique constraints the database may have are not part of this model. Calls are sequential.
- Body fields are modelled as strings only. A non-string JSON `eventId` or `session_id` (a number, say) is not represented.
- CreateEventCheckout.Pence: works on exact decimals. It does not model the floating-point representation error of `entryFee * 100`, and it does not model a NaN fee, which `entry_fee || 0` would turn into 0.
- CreateEventCheckout.PaidEventSendsTaggedCheckout: does not state the product name, description and redirect URLs. The model builds them (`CheckoutFor`), but no property depends on them.
- Generated columns are not modelled: row ids, `created_at`, and the registration columns the handlers never write.
- Request method handling (OPTIONS/CORS), response headers and logging are left out.
- The other parts of the application are not modelled, for these reasons:
  - The prize-claim e-mail function is a plain HTTP call.
  - Subscription polling is timer-driven client code.
  - Admin edits of claim status are direct updates with no rules.
  - Claim submission is a bare insert.
  - The React pages and components are rendering only.
- The play-eligibility rules (one shot per course per day, one claim per day, one credit redemption per day) and credit redemption itself are not modelled. No handler in the source implements them.
