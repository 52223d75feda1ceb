/**
 The records, requests and responses exchanged by the three payment handlers
 (event checkout, event payment verification, single-play credit recording).

 Every foreign service the handlers call (the identity provider, the payment
 processor, the database's insert) is an input to the model; the two tables
 the handlers write, and the events table they read, form the State.
 */
module Types {

  datatype Option<+T> = None | Some(value: T)

  type UserId = string
  type EventId = string
  type SessionId = string

  /** A row of `events`, as far as the checkout handler reads it.
      `entryFee` is nullable in the table. */
  datatype Event = Event(
    enabled: bool,
    entryFee: Option<real>,
    round: string,
    region: string,
    venue: string,
    date: string)

  /** A row of `event_registrations`: the handlers only ever write its event and
      its user, so a row is its own (event, user) key. */
  datatype Registration = Registration(eventId: EventId, userId: UserId)

  /** A row of `single_play_credits`. `usedAt` and `courseId` are null until the
      credit is redeemed; `stripeSessionId` names the payment that bought it. */
  datatype Credit = Credit(
    userId: UserId,
    stripeSessionId: SessionId,
    purchasedAt: string,
    usedAt: Option<string>,
    courseId: Option<string>)

  /** The persisted state the handlers see: events are only read, the other two
      tables only ever grow by one inserted row. */
  datatype State = State(
    events: map<EventId, Event>,
    registrations: seq<Registration>,
    credits: seq<Credit>)

  /** The account behind a bearer token; the e-mail may be missing. */
  datatype User = User(id: UserId, email: Option<string>)

  /** What the identity provider answers for a token: a user, or an error / no user. */
  datatype AuthOutcome = SignedIn(user: User) | AuthFailed

  /** The payment processor's `payment_status` of a checkout session. */
  datatype PaymentStatus = Paid | Unpaid | NoPaymentRequired

  /** A checkout session as listed by the payment processor. A missing metadata
      object is the empty map. */
  datatype Session = Session(metadata: map<string, string>, paymentStatus: PaymentStatus)

  /** A call into the payment processor either returns or throws; a throw is
      caught by the handler's outer `catch` and answered with status 500. */
  datatype Call<+T> = Returned(value: T) | Threw(message: string)

  /** What the database answers to an insert. */
  datatype InsertResult = Inserted | InsertFailed(message: string)

  /** The JSON request body: either it cannot be read as an object (the body is
      not JSON, or is `null`), or it carries string fields by name. */
  datatype Payload = Unparsable(message: string) | Fields(fields: map<string, string>)

  /** The parts of an HTTP request the handlers read. */
  datatype Request = Request(
    authorization: Option<string>,
    origin: Option<string>,
    payload: Payload)

  /** The JSON body of a response. */
  datatype Body =
    | ErrorBody(message: string)       // { error }
    | Success                          // { success: true }
    | SuccessFree                      // { success: true, free: true }
    | SuccessAlreadyRegistered         // { success: true, alreadyRegistered: true }
    | SuccessAlreadyRecorded           // { success: true, already_recorded: true }
    | CheckoutUrl(url: Option<string>) // { url }

  datatype Response = Response(status: int, body: Body)

  /** A handler's answer together with the state it leaves behind. */
  datatype Outcome = Outcome(response: Response, state: State)
}
