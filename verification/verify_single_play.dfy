/**
 The single-play credit handler, called when the caller returns from paying
 for one round: a payment session already recorded is success at once;
 otherwise the payment processor is asked for the session's status, and only a
 paid session becomes a new, unredeemed credit for the caller.
 */
module VerifySinglePlay {
  import opened Types
  import opened Guards
  import opened Tables

  const DeniedMessage := "User not authenticated"
  const MissingSessionMessage := "Session ID required"
  const NotPaidMessage := "Payment not completed"

  /** The credit recorded for a paid session: owned by the caller, bought at
      `now`, not yet redeemed and not yet tied to a course. */
  function NewCredit(userId: UserId, sessionId: SessionId, now: string): Credit {
    Credit(userId, sessionId, now, None, None)
  }

  /** The header and token, then the `session_id` of the body. */
  function Admit(req: Request, getUser: string -> AuthOutcome): (r: Checked<Admission>)
    ensures r.Continue? ==> r.value.target != ""
    ensures r.Continue? ==> Authenticate(req.authorization, getUser, DeniedMessage) == Continue(r.value.user)
    ensures r.Continue? ==> RequiredField(req.payload, "session_id", MissingSessionMessage) == Continue(r.value.target)
    ensures var auth := Authenticate(req.authorization, getUser, DeniedMessage);
            var field := RequiredField(req.payload, "session_id", MissingSessionMessage);
            auth.Continue? && field.Continue? ==> r == Continue(Admission(auth.value, field.value))
  {
    match Authenticate(req.authorization, getUser, DeniedMessage)
    case Stop(response) => Stop(response)
    case Continue(user) =>
      match RequiredField(req.payload, "session_id", MissingSessionMessage)
      case Stop(response) => Stop(response)
      case Continue(sessionId) => Continue(Admission(user, sessionId))
  }

  /** The whole handler. `retrieve` answers the processor's payment status of a
      session; `now` is the clock. Events and registrations are never written;
      the only write appends one unredeemed credit for the admitted caller and
      session, made only when the processor reports that session paid. */
  function Handle(req: Request, getUser: string -> AuthOutcome, retrieve: SessionId -> Call<PaymentStatus>, insert: InsertResult, now: string, st: State): (o: Outcome)
    ensures o.state.events == st.events && o.state.registrations == st.registrations
    ensures o.state != st ==>
      && Admit(req, getUser).Continue?
      && var a := Admit(req, getUser).value;
      && retrieve(a.target) == Returned(Paid)
      && |o.state.credits| == |st.credits| + 1
      && o.state.credits[..|st.credits|] == st.credits
      && var c := o.state.credits[|st.credits|];
      && c.userId == a.user.id && c.stripeSessionId == a.target && c.usedAt.None?
      && o.response == Response(200, Success)
    ensures o.response.status == 200 <==> o.state != st || o.response.body == SuccessAlreadyRecorded
  {
    match Admit(req, getUser)
    case Stop(response) => Outcome(response, st)
    case Continue(a) => Record(a, retrieve, insert, now, st)
  }

  /** The handler after admission: existing credit, then the payment status,
      then the insert. */
  function Record(a: Admission, retrieve: SessionId -> Call<PaymentStatus>, insert: InsertResult, now: string, st: State): Outcome {
    var sessionId, user := a.target, a.user;
    if ExistingCredit(st.credits, sessionId).Some? then
      Outcome(Response(200, SuccessAlreadyRecorded), st)
    else match retrieve(sessionId)
      case Threw(message) => Outcome(Fail(500, message), st)
      case Returned(status) =>
        if status != Paid then Outcome(Fail(400, NotPaidMessage), st)
        else match insert
          case Inserted =>
            var credits := st.credits + [NewCredit(user.id, sessionId, now)];
            assert credits[..|st.credits|] == st.credits;
            Outcome(Response(200, Success), st.(credits := credits))
          case InsertFailed(message) => Outcome(Fail(500, message), st)
  }

  /** A missing header is answered 401, a rejected token 403, and a body
      without `session_id` 400; no credit is created. */
  lemma RejectedRequestsChangeNothing(req: Request, getUser: string -> AuthOutcome, retrieve: SessionId -> Call<PaymentStatus>, insert: InsertResult, now: string, st: State)
    ensures !Truthy(req.authorization) ==>
      Handle(req, getUser, retrieve, insert, now, st) == Outcome(Fail(401, NoAuthorizationMessage), st)
    ensures Truthy(req.authorization) && getUser(BearerToken(req.authorization.value)).AuthFailed? ==>
      Handle(req, getUser, retrieve, insert, now, st) == Outcome(Fail(403, DeniedMessage), st)
    ensures Authenticate(req.authorization, getUser, DeniedMessage).Continue?
            && req.payload.Fields? && ("session_id" !in req.payload.fields || req.payload.fields["session_id"] == "") ==>
      Handle(req, getUser, retrieve, insert, now, st) == Outcome(Fail(400, MissingSessionMessage), st)
  {
  }

  /** A session any credit was already bought with, whichever user owns that
      credit, is answered `already_recorded` and nothing changes, before the
      payment processor or the database insert are consulted. */
  lemma RecordedSessionShortCircuits(req: Request, getUser: string -> AuthOutcome, retrieve: SessionId -> Call<PaymentStatus>, insert: InsertResult, now: string, st: State, user: User, sessionId: SessionId, owner: UserId)
    requires Admit(req, getUser) == Continue(Admission(user, sessionId))
    requires UniqueSessionIds(st.credits)
    requires exists c :: c in st.credits && c.stripeSessionId == sessionId && c.userId == owner
    ensures Handle(req, getUser, retrieve, insert, now, st) == Outcome(Response(200, SuccessAlreadyRecorded), st)
  {
    var c :| c in st.credits && c.stripeSessionId == sessionId && c.userId == owner;
    var i :| 0 <= i < |st.credits| && st.credits[i] == c;
    assert SessionKey(st.credits[i]) == sessionId;
    ExistingCreditIffRecorded(st.credits, sessionId);
  }

  /** For a session not yet recorded: a status other than "paid" is answered
      400 and creates nothing; a paid one appends exactly one credit, for the
      caller and this session, unredeemed, and changes nothing else, unless the
      insert fails, which is answered 500 with nothing changed. */
  lemma RecordsOnlyPaidSessions(req: Request, getUser: string -> AuthOutcome, retrieve: SessionId -> Call<PaymentStatus>, insert: InsertResult, now: string, st: State, user: User, sessionId: SessionId)
    requires Admit(req, getUser) == Continue(Admission(user, sessionId))
    requires UniqueSessionIds(st.credits)
    requires !Recorded(st.credits, sessionId)
    ensures retrieve(sessionId).Returned? && retrieve(sessionId).value != Paid ==>
      Handle(req, getUser, retrieve, insert, now, st) == Outcome(Fail(400, NotPaidMessage), st)
    ensures retrieve(sessionId) == Returned(Paid) && insert.Inserted? ==>
      Handle(req, getUser, retrieve, insert, now, st)
      == Outcome(Response(200, Success), st.(credits := st.credits + [Credit(user.id, sessionId, now, None, None)]))
    ensures retrieve(sessionId) == Returned(Paid) && insert.InsertFailed? ==>
      Handle(req, getUser, retrieve, insert, now, st) == Outcome(Fail(500, insert.message), st)
  {
    ExistingCreditIffRecorded(st.credits, sessionId);
  }

  /** Once a session is recorded, any later admitted call naming it, by any
      user, at any time, whatever the processor and the database would answer,
      is answered `already_recorded` and leaves the credits unchanged. */
  lemma RecordIdempotent(a: Admission, retrieve: SessionId -> Call<PaymentStatus>, insert: InsertResult, now: string, st: State,
                         later: Admission, retrieveLater: SessionId -> Call<PaymentStatus>, insertLater: InsertResult, nowLater: string)
    requires UniqueSessionIds(st.credits)
    requires later.target == a.target
    ensures var once := Record(a, retrieve, insert, now, st);
            once.state != st ==>
              Record(later, retrieveLater, insertLater, nowLater, once.state)
              == Outcome(Response(200, SuccessAlreadyRecorded), once.state)
  {
    var once := Record(a, retrieve, insert, now, st);
    if once.state != st {
      var c := NewCredit(a.user.id, a.target, now);
      RecordKeepsUnique(st.credits, c);
      assert once.state.credits[|st.credits|] == c;
      assert Recorded(once.state.credits, a.target);
      ExistingCreditIffRecorded(once.state.credits, a.target);
    }
  }

  /** Once admitted, a call keeps at most one credit per payment session. */
  lemma RecordKeepsSessionsUnique(a: Admission, retrieve: SessionId -> Call<PaymentStatus>, insert: InsertResult, now: string, st: State)
    requires UniqueSessionIds(st.credits)
    ensures UniqueSessionIds(Record(a, retrieve, insert, now, st).state.credits)
  {
    if Record(a, retrieve, insert, now, st).state != st {
      RecordKeepsUnique(st.credits, NewCredit(a.user.id, a.target, now));
    }
  }

  /** A second identical call leaves the state the first left. */
  lemma SinglePlayIdempotent(req: Request, getUser: string -> AuthOutcome, retrieve: SessionId -> Call<PaymentStatus>, insert: InsertResult, now: string, st: State)
    requires UniqueSessionIds(st.credits)
    ensures var once := Handle(req, getUser, retrieve, insert, now, st);
            Handle(req, getUser, retrieve, insert, now, once.state).state == once.state
  {
    if Admit(req, getUser).Continue? {
      var a := Admit(req, getUser).value;
      RecordIdempotent(a, retrieve, insert, now, st, a, retrieve, insert, now);
    }
  }

  /** A call that recorded a session makes any later admitted request naming
      it, by any user, at any time, whatever the services answer, return
      `already_recorded` with the credits unchanged. */
  lemma LaterRequestsSeeRecordedSession(req: Request, getUser: string -> AuthOutcome, retrieve: SessionId -> Call<PaymentStatus>, insert: InsertResult, now: string, st: State,
                                        req2: Request, getUser2: string -> AuthOutcome, retrieve2: SessionId -> Call<PaymentStatus>, insert2: InsertResult, now2: string)
    requires UniqueSessionIds(st.credits)
    requires Admit(req2, getUser2).Continue?
    requires Admit(req, getUser).Continue? ==> Admit(req2, getUser2).value.target == Admit(req, getUser).value.target
    ensures var once := Handle(req, getUser, retrieve, insert, now, st);
            once.state != st ==>
              Handle(req2, getUser2, retrieve2, insert2, now2, once.state)
              == Outcome(Response(200, SuccessAlreadyRecorded), once.state)
  {
    if Admit(req, getUser).Continue? {
      var a := Admit(req, getUser).value;
      RecordIdempotent(a, retrieve, insert, now, st, Admit(req2, getUser2).value, retrieve2, insert2, now2);
    }
  }

  /** Under sequential calls the handler keeps at most one credit per payment
      session. */
  lemma SinglePlayKeepsSessionsUnique(req: Request, getUser: string -> AuthOutcome, retrieve: SessionId -> Call<PaymentStatus>, insert: InsertResult, now: string, st: State)
    requires UniqueSessionIds(st.credits)
    ensures UniqueSessionIds(Handle(req, getUser, retrieve, insert, now, st).state.credits)
  {
    if Admit(req, getUser).Continue? {
      RecordKeepsSessionsUnique(Admit(req, getUser).value, retrieve, insert, now, st);
    }
  }
}
