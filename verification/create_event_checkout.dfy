/**
 The event registration handler: after the caller and the event pass their
 checks, a free event registers the caller at once and a paid event is handed
 to the payment processor as a checkout tagged with the event and the caller.
 */
module CreateEventCheckout {
  import opened Types
  import opened Guards
  import opened Tables

  const DeniedMessage := "Please verify your email before registering"
  const NoEmailMessage := "Email not available"
  const MissingEventMessage := "Event ID is required"
  const UnknownEventMessage := "Event not found"
  const ClosedEventMessage := "Event registration is not open"
  const AlreadyRegisteredMessage := "You are already registered for this event"
  const RegisterFailedMessage := "Failed to register"

  /** One line of a checkout: the price is in the currency's minor unit. */
  datatype LineItem = LineItem(
    currency: string,
    name: string,
    description: string,
    unitAmount: int,
    quantity: nat)

  /** What the handler asks the payment processor to create. The e-mail is
      passed only when no (truthy) customer id is. */
  datatype CheckoutRequest = CheckoutRequest(
    customer: Option<string>,
    customerEmail: Option<string>,
    lineItems: seq<LineItem>,
    mode: string,
    successUrl: string,
    cancelUrl: string,
    metadata: map<string, string>)

  /** The payment processor as this handler uses it: the ids of the customers
      with an e-mail address (at most one is asked for), and the creation of a
      checkout session, which answers the session's (nullable) URL. */
  datatype Processor = Processor(
    listCustomers: string -> Call<seq<string>>,
    createSession: CheckoutRequest -> Call<Option<string>>)

  /** The response, the state left behind, and the checkout request sent to the
      payment processor, if one was. */
  datatype CheckoutOutcome = CheckoutOutcome(
    response: Response,
    state: State,
    sent: Option<CheckoutRequest>)

  /** `event.entry_fee || 0`: a null fee is no fee. */
  function EntryFee(event: Event): real {
    match event.entryFee
    case None => 0.0
    case Some(fee) => fee
  }

  /** `Math.round(fee * 100)`: pounds to pence, to the nearest penny, halves up. */
  function Pence(fee: real): (pence: int)
    ensures fee * 100.0 - 0.5 < pence as real <= fee * 100.0 + 0.5
  {
    (fee * 100.0 + 0.5).Floor
  }

  /** A template literal renders an absent header as "null". */
  function HeaderText(h: Option<string>): string {
    match h
    case None => "null"
    case Some(v) => v
  }

  /** The checks that need no table: the header and token, the e-mail, and the
      `eventId` of the body. */
  function Admit(req: Request, getUser: string -> AuthOutcome): (r: Checked<Admission>)
    ensures r.Continue? ==> Truthy(r.value.user.email) && r.value.target != ""
    ensures r.Continue? ==> Authenticate(req.authorization, getUser, DeniedMessage) == Continue(r.value.user)
    ensures r.Continue? ==> RequiredField(req.payload, "eventId", MissingEventMessage) == Continue(r.value.target)
    ensures var auth := Authenticate(req.authorization, getUser, DeniedMessage);
            var field := RequiredField(req.payload, "eventId", MissingEventMessage);
            auth.Continue? && Truthy(auth.value.email) && field.Continue? ==> r == Continue(Admission(auth.value, field.value))
  {
    match Authenticate(req.authorization, getUser, DeniedMessage)
    case Stop(response) => Stop(response)
    case Continue(user) =>
      if !Truthy(user.email) then Stop(Fail(403, NoEmailMessage))
      else match RequiredField(req.payload, "eventId", MissingEventMessage)
        case Stop(response) => Stop(response)
        case Continue(eventId) => Continue(Admission(user, eventId))
  }

  /** The checkout session for a paid event: one line at the event's fee,
      tagged with the event and the caller. An existing customer is reused,
      otherwise the caller's e-mail is passed. */
  function CheckoutFor(event: Event, eventId: EventId, user: User, customers: seq<string>, origin: Option<string>): CheckoutRequest
    requires user.email.Some?
  {
    var customer := if |customers| > 0 then Some(customers[0]) else None;
    CheckoutRequest(
      customer,
      if Truthy(customer) then None else user.email,
      [LineItem("gbp", event.round + " - " + event.region,
                "Event at " + event.venue + " on " + event.date,
                Pence(EntryFee(event)), 1)],
      "payment",
      HeaderText(origin) + "/?event_success=" + eventId,
      HeaderText(origin) + "/?event_canceled=true",
      map["event_id" := eventId, "user_id" := user.id])
  }

  /** The handler after admission: event lookup, enabled check, existing
      registration, then the free or the paid branch. */
  function Decide(a: Admission, origin: Option<string>, processor: Processor, insert: InsertResult, st: State): CheckoutOutcome
    requires Truthy(a.user.email)
  {
    var eventId, user := a.target, a.user;
    if eventId !in st.events then CheckoutOutcome(Fail(404, UnknownEventMessage), st, None)
    else
      var event := st.events[eventId];
      if !event.enabled then CheckoutOutcome(Fail(400, ClosedEventMessage), st, None)
      else if ExistingRegistration(st.registrations, eventId, user.id).Some? then
        CheckoutOutcome(Fail(400, AlreadyRegisteredMessage), st, None)
      else if EntryFee(event) <= 0.0 then
        match insert
        case Inserted =>
          CheckoutOutcome(Response(200, SuccessFree),
                          st.(registrations := st.registrations + [Registration(eventId, user.id)]), None)
        case InsertFailed(_) => CheckoutOutcome(Fail(500, RegisterFailedMessage), st, None)
      else
        match processor.listCustomers(user.email.value)
        case Threw(message) => CheckoutOutcome(Fail(500, message), st, None)
        case Returned(customers) =>
          var request := CheckoutFor(event, eventId, user, customers, origin);
          match processor.createSession(request)
          case Threw(message) => CheckoutOutcome(Fail(500, message), st, Some(request))
          case Returned(url) => CheckoutOutcome(Response(200, CheckoutUrl(url)), st, Some(request))
  }

  /** The whole handler. Events and credits are never written; the only write
      is one registration of the admitted caller for the requested event, made
      only on the free path and never together with a checkout; a checkout is
      always tagged with that same event and caller. */
  function Handle(req: Request, getUser: string -> AuthOutcome, processor: Processor, insert: InsertResult, st: State): (o: CheckoutOutcome)
    ensures o.state.events == st.events && o.state.credits == st.credits
    ensures o.state != st ==>
      && Admit(req, getUser).Continue?
      && o.state.registrations
         == st.registrations + [Registration(Admit(req, getUser).value.target, Admit(req, getUser).value.user.id)]
      && o.response == Response(200, SuccessFree)
      && o.sent.None?
    ensures o.sent.Some? ==>
      && o.state == st
      && Admit(req, getUser).Continue?
      && o.sent.value.metadata
         == map["event_id" := Admit(req, getUser).value.target, "user_id" := Admit(req, getUser).value.user.id]
    ensures o.response.status == 200 <==> o.state != st || (o.sent.Some? && o.response.body.CheckoutUrl?)
  {
    match Admit(req, getUser)
    case Stop(response) => CheckoutOutcome(response, st, None)
    case Continue(a) => Decide(a, req.origin, processor, insert, st)
  }

  /** A missing header is answered 401, a token the identity provider rejects
      403, and a user without an e-mail 403; none of them changes anything or
      reaches the payment processor. */
  lemma AuthFailuresChangeNothing(req: Request, getUser: string -> AuthOutcome, processor: Processor, insert: InsertResult, st: State)
    ensures !Truthy(req.authorization) ==>
      Handle(req, getUser, processor, insert, st) == CheckoutOutcome(Fail(401, NoAuthorizationMessage), st, None)
    ensures Truthy(req.authorization) && getUser(BearerToken(req.authorization.value)).AuthFailed? ==>
      Handle(req, getUser, processor, insert, st) == CheckoutOutcome(Fail(403, DeniedMessage), st, None)
    ensures Truthy(req.authorization) && getUser(BearerToken(req.authorization.value)).SignedIn?
            && !Truthy(getUser(BearerToken(req.authorization.value)).user.email) ==>
      Handle(req, getUser, processor, insert, st) == CheckoutOutcome(Fail(403, NoEmailMessage), st, None)
  {
  }

  /** An authenticated caller whose body has no `eventId` is answered 400 and
      nothing is registered. */
  lemma MissingEventIdRegistersNothing(req: Request, getUser: string -> AuthOutcome, processor: Processor, insert: InsertResult, st: State, user: User)
    requires Authenticate(req.authorization, getUser, DeniedMessage) == Continue(user)
    requires Truthy(user.email)
    requires req.payload.Fields? && ("eventId" !in req.payload.fields || req.payload.fields["eventId"] == "")
    ensures Handle(req, getUser, processor, insert, st) == CheckoutOutcome(Fail(400, MissingEventMessage), st, None)
  {
  }

  /** An unknown event is answered 404 and a disabled one 400 "not open",
      whether or not the caller is registered and whatever the fee. */
  lemma UnknownOrClosedEventRejected(req: Request, getUser: string -> AuthOutcome, processor: Processor, insert: InsertResult, st: State, user: User, eventId: EventId)
    requires Admit(req, getUser) == Continue(Admission(user, eventId))
    ensures eventId !in st.events ==>
      Handle(req, getUser, processor, insert, st) == CheckoutOutcome(Fail(404, UnknownEventMessage), st, None)
    ensures eventId in st.events && !st.events[eventId].enabled ==>
      Handle(req, getUser, processor, insert, st) == CheckoutOutcome(Fail(400, ClosedEventMessage), st, None)
  {
  }

  /** A caller already registered for an open event is answered 400, before
      the fee is looked at: no registration and no checkout, whatever the fee. */
  lemma AlreadyRegisteredRejected(req: Request, getUser: string -> AuthOutcome, processor: Processor, insert: InsertResult, st: State, user: User, eventId: EventId)
    requires Admit(req, getUser) == Continue(Admission(user, eventId))
    requires eventId in st.events && st.events[eventId].enabled
    requires UniqueRegistrations(st.registrations)
    requires Registration(eventId, user.id) in st.registrations
    ensures Handle(req, getUser, processor, insert, st) == CheckoutOutcome(Fail(400, AlreadyRegisteredMessage), st, None)
  {
    ExistingRegistrationIffRegistered(st.registrations, eventId, user.id);
  }

  /** An open event whose fee is null or at most zero registers the caller
      directly, exactly once, without any checkout; if the insert fails the
      answer is 500 and nothing changes. */
  lemma FreeEventRegistersCaller(req: Request, getUser: string -> AuthOutcome, processor: Processor, insert: InsertResult, st: State, user: User, eventId: EventId)
    requires Admit(req, getUser) == Continue(Admission(user, eventId))
    requires eventId in st.events && st.events[eventId].enabled
    requires UniqueRegistrations(st.registrations)
    requires Registration(eventId, user.id) !in st.registrations
    requires st.events[eventId].entryFee.None? || st.events[eventId].entryFee.value <= 0.0
    ensures insert.Inserted? ==>
      Handle(req, getUser, processor, insert, st)
      == CheckoutOutcome(Response(200, SuccessFree),
                         st.(registrations := st.registrations + [Registration(eventId, user.id)]), None)
    ensures insert.InsertFailed? ==>
      Handle(req, getUser, processor, insert, st) == CheckoutOutcome(Fail(500, RegisterFailedMessage), st, None)
  {
    ExistingRegistrationIffRegistered(st.registrations, eventId, user.id);
  }

  /** An open event with a positive fee registers nobody. Once the customer
      lookup returns, one checkout is sent: one item, quantity one, in pounds
      sterling, at the fee in pence, tagged with the event and the caller; the
      answer is its URL, or 500 if the processor throws. */
  lemma PaidEventSendsTaggedCheckout(req: Request, getUser: string -> AuthOutcome, processor: Processor, insert: InsertResult, st: State, user: User, eventId: EventId)
    requires Admit(req, getUser) == Continue(Admission(user, eventId))
    requires eventId in st.events && st.events[eventId].enabled
    requires UniqueRegistrations(st.registrations)
    requires Registration(eventId, user.id) !in st.registrations
    requires st.events[eventId].entryFee.Some? && st.events[eventId].entryFee.value > 0.0
    ensures Handle(req, getUser, processor, insert, st).state == st
    ensures processor.listCustomers(user.email.value).Threw? ==>
      Handle(req, getUser, processor, insert, st).sent.None?
    ensures processor.listCustomers(user.email.value).Returned? ==>
      var o := Handle(req, getUser, processor, insert, st);
      && o.sent.Some?
      && var customers := processor.listCustomers(user.email.value).value;
      && o.sent.value.customer == (if |customers| > 0 then Some(customers[0]) else None)
      && o.sent.value.metadata == map["event_id" := eventId, "user_id" := user.id]
      && |o.sent.value.lineItems| == 1
      && o.sent.value.lineItems[0].quantity == 1
      && o.sent.value.lineItems[0].currency == "gbp"
      && o.sent.value.lineItems[0].unitAmount == Pence(st.events[eventId].entryFee.value)
      && o.sent.value.mode == "payment"
      && o.sent.value.customerEmail == (if Truthy(o.sent.value.customer) then None else user.email)
      && o.response
         == match processor.createSession(o.sent.value)
            case Returned(url) => Response(200, CheckoutUrl(url))
            case Threw(message) => Fail(500, message)
  {
    ExistingRegistrationIffRegistered(st.registrations, eventId, user.id);
  }

  /** Under sequential calls the handler keeps at most one registration per
      (user, event): it inserts only after its select found none. */
  lemma CheckoutKeepsRegistrationsUnique(req: Request, getUser: string -> AuthOutcome, processor: Processor, insert: InsertResult, st: State)
    requires UniqueRegistrations(st.registrations)
    ensures UniqueRegistrations(Handle(req, getUser, processor, insert, st).state.registrations)
  {
    var o := Handle(req, getUser, processor, insert, st);
    if o.state != st {
      var a := Admit(req, getUser).value;
      RegisterKeepsUnique(st.registrations, a.target, a.user.id);
    }
  }
}
