/**
 The event payment verification handler, called when the caller returns from
 checkout: an existing registration is success at once; otherwise the most
 recently created checkout sessions are searched for a paid one tagged with
 this event and this caller, and only such a session creates the registration.
 */
module VerifyEventPayment {
  import opened Types
  import opened Guards
  import opened Tables

  const DeniedMessage := "Authentication failed"
  const MissingEventMessage := "Event ID is required"
  const NotPaidMessage := "Payment not found or not completed"
  const RegisterFailedMessage := "Failed to create registration"

  /** How many of the most recent checkout sessions are asked for. */
  const SessionListLimit := 10

  /** A session pays for this event on behalf of this user: its metadata names
      both, and its payment status is "paid". */
  predicate PaysFor(s: Session, eventId: EventId, userId: UserId) {
    && "event_id" in s.metadata && s.metadata["event_id"] == eventId
    && "user_id" in s.metadata && s.metadata["user_id"] == userId
    && s.paymentStatus == Paid
  }

  /** The session the handler settles on: the first of the listed sessions that
      pays for this event and user. */
  function MatchingSession(sessions: seq<Session>, eventId: EventId, userId: UserId): (r: Option<nat>)
    ensures r.Some? ==> r.value < |sessions| && PaysFor(sessions[r.value], eventId, userId)
    ensures r.Some? ==> forall j :: 0 <= j < r.value ==> !PaysFor(sessions[j], eventId, userId)
    ensures r.None? <==> forall j :: 0 <= j < |sessions| ==> !PaysFor(sessions[j], eventId, userId)
  {
    FindFirst(sessions, s => PaysFor(s, eventId, userId))
  }

  /** The header and token, then the `eventId` of the body (no e-mail check here). */
  function Admit(req: Request, getUser: string -> AuthOutcome): (r: Checked<Admission>)
    ensures r.Continue? ==> r.value.target != ""
    ensures r.Continue? ==> Authenticate(req.authorization, getUser, DeniedMessage) == Continue(r.value.user)
    ensures r.Continue? ==> RequiredField(req.payload, "eventId", MissingEventMessage) == Continue(r.value.target)
    ensures var auth := Authenticate(req.authorization, getUser, DeniedMessage);
            var field := RequiredField(req.payload, "eventId", MissingEventMessage);
            auth.Continue? && field.Continue? ==> r == Continue(Admission(auth.value, field.value))
  {
    match Authenticate(req.authorization, getUser, DeniedMessage)
    case Stop(response) => Stop(response)
    case Continue(user) =>
      match RequiredField(req.payload, "eventId", MissingEventMessage)
      case Stop(response) => Stop(response)
      case Continue(eventId) => Continue(Admission(user, eventId))
  }

  /** The whole handler. `listSessions` answers the processor's session list
      for a limit. Events and credits are never written; the only write is one
      registration of the admitted caller for the requested event, made only
      when a listed session pays for exactly that. */
  function Handle(req: Request, getUser: string -> AuthOutcome, listSessions: nat -> Call<seq<Session>>, insert: InsertResult, st: State): (o: Outcome)
    ensures o.state.events == st.events && o.state.credits == st.credits
    ensures o.state != st ==>
      && Admit(req, getUser).Continue?
      && var a := Admit(req, getUser).value;
      && o.state.registrations == st.registrations + [Registration(a.target, a.user.id)]
      && o.response == Response(200, Success)
      && listSessions(SessionListLimit).Returned?
      && exists s :: s in listSessions(SessionListLimit).value && PaysFor(s, a.target, a.user.id)
    ensures o.response.status == 200 <==> o.state != st || o.response.body == SuccessAlreadyRegistered
  {
    match Admit(req, getUser)
    case Stop(response) => Outcome(response, st)
    case Continue(a) => Settle(a, listSessions, insert, st)
  }

  /** The handler after admission: existing registration, then the session
      search, then the insert. */
  function Settle(a: Admission, listSessions: nat -> Call<seq<Session>>, insert: InsertResult, st: State): Outcome {
    var eventId, user := a.target, a.user;
    if ExistingRegistration(st.registrations, eventId, user.id).Some? then
      Outcome(Response(200, SuccessAlreadyRegistered), st)
    else match listSessions(SessionListLimit)
      case Threw(message) => Outcome(Fail(500, message), st)
      case Returned(sessions) =>
        match MatchingSession(sessions, eventId, user.id)
        case None => Outcome(Fail(400, NotPaidMessage), st)
        case Some(i) =>
          assert sessions[i] in sessions;
          match insert
          case Inserted =>
            Outcome(Response(200, Success),
                    st.(registrations := st.registrations + [Registration(eventId, user.id)]))
          case InsertFailed(_) => Outcome(Fail(500, RegisterFailedMessage), st)
  }

  /** A missing header is answered 401, a rejected token 403, and a body
      without `eventId` 400; nothing changes. */
  lemma RejectedRequestsChangeNothing(req: Request, getUser: string -> AuthOutcome, listSessions: nat -> Call<seq<Session>>, insert: InsertResult, st: State)
    ensures !Truthy(req.authorization) ==>
      Handle(req, getUser, listSessions, insert, st) == Outcome(Fail(401, NoAuthorizationMessage), st)
    ensures Truthy(req.authorization) && getUser(BearerToken(req.authorization.value)).AuthFailed? ==>
      Handle(req, getUser, listSessions, insert, st) == Outcome(Fail(403, DeniedMessage), st)
    ensures Authenticate(req.authorization, getUser, DeniedMessage).Continue?
            && req.payload.Fields? && ("eventId" !in req.payload.fields || req.payload.fields["eventId"] == "") ==>
      Handle(req, getUser, listSessions, insert, st) == Outcome(Fail(400, MissingEventMessage), st)
  {
  }

  /** A caller already registered gets `alreadyRegistered` and nothing changes,
      whatever the payment processor would have listed and whatever an insert
      would have done: neither is consulted. */
  lemma AlreadyRegisteredShortCircuits(req: Request, getUser: string -> AuthOutcome, listSessions: nat -> Call<seq<Session>>, insert: InsertResult, st: State, user: User, eventId: EventId)
    requires Admit(req, getUser) == Continue(Admission(user, eventId))
    requires UniqueRegistrations(st.registrations)
    requires Registration(eventId, user.id) in st.registrations
    ensures Handle(req, getUser, listSessions, insert, st) == Outcome(Response(200, SuccessAlreadyRegistered), st)
  {
    ExistingRegistrationIffRegistered(st.registrations, eventId, user.id);
  }

  /** For a caller not yet registered: when no listed session pays for the
      event and the caller (wrong event, wrong user, or not paid), the answer is
      400 and nothing is registered; when one does, exactly the registration
      (event, caller) is appended and nothing else changes, unless the insert
      fails, which is answered 500 with nothing changed. */
  lemma RegistersOnlyOnPaidMatch(req: Request, getUser: string -> AuthOutcome, listSessions: nat -> Call<seq<Session>>, insert: InsertResult, st: State, user: User, eventId: EventId, sessions: seq<Session>)
    requires Admit(req, getUser) == Continue(Admission(user, eventId))
    requires UniqueRegistrations(st.registrations)
    requires Registration(eventId, user.id) !in st.registrations
    requires listSessions(SessionListLimit) == Returned(sessions)
    ensures (forall s :: s in sessions ==> !PaysFor(s, eventId, user.id)) ==>
      Handle(req, getUser, listSessions, insert, st) == Outcome(Fail(400, NotPaidMessage), st)
    ensures (exists s :: s in sessions && PaysFor(s, eventId, user.id)) && insert.Inserted? ==>
      Handle(req, getUser, listSessions, insert, st)
      == Outcome(Response(200, Success), st.(registrations := st.registrations + [Registration(eventId, user.id)]))
    ensures (exists s :: s in sessions && PaysFor(s, eventId, user.id)) && insert.InsertFailed? ==>
      Handle(req, getUser, listSessions, insert, st) == Outcome(Fail(500, RegisterFailedMessage), st)
  {
    ExistingRegistrationIffRegistered(st.registrations, eventId, user.id);
    if exists s :: s in sessions && PaysFor(s, eventId, user.id) {
      var s :| s in sessions && PaysFor(s, eventId, user.id);
      var j :| 0 <= j < |sessions| && sessions[j] == s;
      assert MatchingSession(sessions, eventId, user.id).Some?;
    }
  }

  /** Once admitted, a second identical call leaves the state the first left:
      a first call that registered makes the second answer `alreadyRegistered`. */
  lemma SettleIdempotent(a: Admission, listSessions: nat -> Call<seq<Session>>, insert: InsertResult, st: State)
    requires UniqueRegistrations(st.registrations)
    ensures var once := Settle(a, listSessions, insert, st);
            Settle(a, listSessions, insert, once.state).state == once.state
    ensures var once := Settle(a, listSessions, insert, st);
            once.state != st ==>
              Settle(a, listSessions, insert, once.state) == Outcome(Response(200, SuccessAlreadyRegistered), once.state)
  {
    var once := Settle(a, listSessions, insert, st);
    if once.state != st {
      RegisterKeepsUnique(st.registrations, a.target, a.user.id);
      assert Registration(a.target, a.user.id) in once.state.registrations;
      ExistingRegistrationIffRegistered(once.state.registrations, a.target, a.user.id);
    }
  }

  /** Once admitted, a call keeps at most one registration per (user, event). */
  lemma SettleKeepsRegistrationsUnique(a: Admission, listSessions: nat -> Call<seq<Session>>, insert: InsertResult, st: State)
    requires UniqueRegistrations(st.registrations)
    ensures UniqueRegistrations(Settle(a, listSessions, insert, st).state.registrations)
  {
    if Settle(a, listSessions, insert, st).state != st {
      RegisterKeepsUnique(st.registrations, a.target, a.user.id);
    }
  }

  /** Calling the handler a second time with the same inputs leaves the state
      as the first call left it: a first call that registered makes the second
      one answer `alreadyRegistered`. */
  lemma VerifyIdempotent(req: Request, getUser: string -> AuthOutcome, listSessions: nat -> Call<seq<Session>>, insert: InsertResult, st: State)
    requires UniqueRegistrations(st.registrations)
    ensures var once := Handle(req, getUser, listSessions, insert, st);
            Handle(req, getUser, listSessions, insert, once.state).state == once.state
    ensures var once := Handle(req, getUser, listSessions, insert, st);
            once.state != st ==>
              Handle(req, getUser, listSessions, insert, once.state).response == Response(200, SuccessAlreadyRegistered)
  {
    if Admit(req, getUser).Continue? {
      SettleIdempotent(Admit(req, getUser).value, listSessions, insert, st);
    }
  }

  /** Under sequential calls the handler keeps at most one registration per
      (user, event). */
  lemma VerifyKeepsRegistrationsUnique(req: Request, getUser: string -> AuthOutcome, listSessions: nat -> Call<seq<Session>>, insert: InsertResult, st: State)
    requires UniqueRegistrations(st.registrations)
    ensures UniqueRegistrations(Handle(req, getUser, listSessions, insert, st).state.registrations)
  {
    if Admit(req, getUser).Continue? {
      SettleKeepsRegistrationsUnique(Admit(req, getUser).value, listSessions, insert, st);
    }
  }
}
