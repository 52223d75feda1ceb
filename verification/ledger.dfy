/**
 Any sequence of handler calls, one after another, each with its own request
 and its own answers from the identity provider, the payment processor, the
 database and the clock.
 */
module Ledger {
  import opened Types
  import opened Tables
  import CreateEventCheckout
  import VerifyEventPayment
  import VerifySinglePlay

  datatype HandlerCall =
    | CheckoutCall(
        req: Request,
        getUser: string -> AuthOutcome,
        processor: CreateEventCheckout.Processor,
        insert: InsertResult)
    | PaymentCall(
        req: Request,
        getUser: string -> AuthOutcome,
        listSessions: nat -> Call<seq<Session>>,
        insert: InsertResult)
    | SinglePlayCall(
        req: Request,
        getUser: string -> AuthOutcome,
        retrieve: SessionId -> Call<PaymentStatus>,
        insert: InsertResult,
        now: string)

  /** The state one call leaves behind. */
  function Apply(st: State, call: HandlerCall): State {
    match call
    case CheckoutCall(req, getUser, processor, insert) =>
      CreateEventCheckout.Handle(req, getUser, processor, insert, st).state
    case PaymentCall(req, getUser, listSessions, insert) =>
      VerifyEventPayment.Handle(req, getUser, listSessions, insert, st).state
    case SinglePlayCall(req, getUser, retrieve, insert, now) =>
      VerifySinglePlay.Handle(req, getUser, retrieve, insert, now, st).state
  }

  /** The state after the calls, in order. */
  function Run(st: State, calls: seq<HandlerCall>): State
    decreases |calls|
  {
    if |calls| == 0 then st else Run(Apply(st, calls[0]), calls[1..])
  }

  /** The two uniqueness invariants of the persisted state. */
  ghost predicate Valid(st: State) {
    UniqueRegistrations(st.registrations) && UniqueSessionIds(st.credits)
  }

  /** Each handler keeps both invariants, never touches the events, and only
      appends to the two tables. */
  lemma ApplyKeepsValid(st: State, call: HandlerCall)
    requires Valid(st)
    ensures Valid(Apply(st, call))
    ensures Apply(st, call).events == st.events
    ensures st.registrations <= Apply(st, call).registrations
    ensures st.credits <= Apply(st, call).credits
  {
    match call
    case CheckoutCall(req, getUser, processor, insert) =>
      CreateEventCheckout.CheckoutKeepsRegistrationsUnique(req, getUser, processor, insert, st);
    case PaymentCall(req, getUser, listSessions, insert) =>
      VerifyEventPayment.VerifyKeepsRegistrationsUnique(req, getUser, listSessions, insert, st);
    case SinglePlayCall(req, getUser, retrieve, insert, now) =>
      VerifySinglePlay.SinglePlayKeepsSessionsUnique(req, getUser, retrieve, insert, now, st);
  }

  /** Under any sequence of calls: at most one registration per (user, event)
      and at most one credit per payment session stay true, the events table is
      untouched, and no registration or credit is ever removed or altered. */
  lemma {:induction false} RunKeepsValid(st: State, calls: seq<HandlerCall>)
    requires Valid(st)
    ensures Valid(Run(st, calls))
    ensures Run(st, calls).events == st.events
    ensures st.registrations <= Run(st, calls).registrations
    ensures st.credits <= Run(st, calls).credits
    decreases |calls|
  {
    if |calls| > 0 {
      ApplyKeepsValid(st, calls[0]);
      RunKeepsValid(Apply(st, calls[0]), calls[1..]);
    }
  }

  /** The invariants restated per key, starting from empty tables. */
  lemma AtMostOnePerKey(events: map<EventId, Event>, calls: seq<HandlerCall>, eventId: EventId, userId: UserId, sessionId: SessionId)
    ensures |RegistrationsOf(Run(State(events, [], []), calls).registrations, eventId, userId)| <= 1
    ensures |WithKey(Run(State(events, [], []), calls).credits, SessionKey, sessionId)| <= 1
  {
    var st := State(events, [], []);
    RunKeepsValid(st, calls);
    var end := Run(st, calls);
    ExistingRegistrationIffRegistered(end.registrations, eventId, userId);
    ExistingCreditIffRecorded(end.credits, sessionId);
  }
}
