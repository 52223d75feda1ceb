/**
 Queries over the two tables the handlers write, and the uniqueness invariants
 the handlers' check-then-insert pattern is meant to keep.
 */
module Tables {
  import opened Types

  /** The rows of `s` satisfying `p`, in table order. */
  function Filter<T(==)>(s: seq<T>, p: T -> bool): (r: seq<T>)
    ensures |r| <= |s|
    ensures forall i :: 0 <= i < |r| ==> r[i] in s && p(r[i])
    ensures forall i :: 0 <= i < |s| && p(s[i]) ==> s[i] in r
  {
    if |s| == 0 then []
    else
      var init, last := s[..|s| - 1], s[|s| - 1];
      assert s == init + [last];
      if p(last) then Filter(init, p) + [last] else Filter(init, p)
  }

  /** The data a `.single()` or `.maybeSingle()` select hands back: the row when
      exactly one row matched, and null otherwise (both report an error for two
      or more rows, `.single()` also for none, and the handlers read only the data). */
  function SingleRow<T>(rows: seq<T>): (r: Option<T>)
    ensures r.Some? <==> |rows| == 1
    ensures r.Some? ==> rows == [r.value]
  {
    if |rows| == 1 then Some(rows[0]) else None
  }

  /** Index of the first element satisfying `p`, as `Array.prototype.find` picks it. */
  function FindFirst<T>(s: seq<T>, p: T -> bool): (r: Option<nat>)
    ensures r.Some? ==> r.value < |s| && p(s[r.value])
    ensures r.Some? ==> forall j :: 0 <= j < r.value ==> !p(s[j])
    ensures r.None? <==> forall j :: 0 <= j < |s| ==> !p(s[j])
  {
    if |s| == 0 then None
    else if p(s[0]) then Some(0)
    else match FindFirst(s[1..], p)
      case None => None
      case Some(i) => Some(i + 1)
  }

  /** The rows whose key is `k`. */
  function WithKey<T(==), K(==)>(s: seq<T>, key: T -> K, k: K): seq<T> {
    Filter(s, x => key(x) == k)
  }

  /** Some row has key `k`. */
  predicate HasKey<T, K(==)>(s: seq<T>, key: T -> K, k: K) {
    exists i :: 0 <= i < |s| && key(s[i]) == k
  }

  /** No two rows share a key. */
  ghost predicate UniqueKeys<T, K>(s: seq<T>, key: T -> K) {
    forall i, j :: 0 <= i < j < |s| ==> key(s[i]) != key(s[j])
  }

  lemma WithKeyNonEmptyIffHasKey<T, K>(s: seq<T>, key: T -> K, k: K)
    ensures |WithKey(s, key, k)| > 0 <==> HasKey(s, key, k)
  {
    var w := WithKey(s, key, k);
    if |w| > 0 {
      assert w[0] in w;
    }
    if HasKey(s, key, k) {
      var i :| 0 <= i < |s| && key(s[i]) == k;
      assert s[i] in w;
    }
  }

  /** Under unique keys, at most one row carries any given key. */
  lemma {:induction false} AtMostOneWithKey<T, K>(s: seq<T>, key: T -> K, k: K)
    requires UniqueKeys(s, key)
    ensures |WithKey(s, key, k)| <= 1
    decreases |s|
  {
    if |s| > 0 {
      var init, last := s[..|s| - 1], s[|s| - 1];
      assert UniqueKeys(init, key);
      AtMostOneWithKey(init, key, k);
      if key(last) == k {
        assert forall i :: 0 <= i < |init| ==> key(init[i]) != k by {
          forall i | 0 <= i < |init| ensures key(init[i]) != k {
            assert init[i] == s[i];
          }
        }
        WithKeyNonEmptyIffHasKey(init, key, k);
      }
    }
  }

  /** Under unique keys, a single-row select by key finds a row exactly when one exists. */
  lemma SingleRowIffHasKey<T, K>(s: seq<T>, key: T -> K, k: K)
    requires UniqueKeys(s, key)
    ensures SingleRow(WithKey(s, key, k)).Some? <==> HasKey(s, key, k)
  {
    AtMostOneWithKey(s, key, k);
    WithKeyNonEmptyIffHasKey(s, key, k);
  }

  /** Appending a row whose key is not yet present keeps keys unique. */
  lemma AppendFreshKeepsUnique<T, K>(s: seq<T>, key: T -> K, x: T)
    requires UniqueKeys(s, key)
    requires !HasKey(s, key, key(x))
    ensures UniqueKeys(s + [x], key)
  {
    var t := s + [x];
    forall i, j | 0 <= i < j < |t| ensures key(t[i]) != key(t[j]) {
      if j < |s| {
        assert t[i] == s[i] && t[j] == s[j];
      } else {
        assert t[i] == s[i] && t[j] == x;
      }
    }
  }

  // ---- event_registrations ----

  /** The unique key of `event_registrations`. */
  function RegistrationKey(r: Registration): (EventId, UserId) {
    (r.eventId, r.userId)
  }

  /** The rows the handlers' existing-registration select matches. */
  function RegistrationsOf(regs: seq<Registration>, eventId: EventId, userId: UserId): seq<Registration> {
    WithKey(regs, RegistrationKey, (eventId, userId))
  }

  /** The data of `select id ... eq(event_id) eq(user_id) .maybeSingle()`. */
  function ExistingRegistration(regs: seq<Registration>, eventId: EventId, userId: UserId): Option<Registration> {
    SingleRow(RegistrationsOf(regs, eventId, userId))
  }

  /** At most one registration per (user, event). */
  ghost predicate UniqueRegistrations(regs: seq<Registration>) {
    UniqueKeys(regs, RegistrationKey)
  }

  /** Under the invariant, the existing-registration select finds a row exactly
      when the user is registered for the event, and never sees two. */
  lemma ExistingRegistrationIffRegistered(regs: seq<Registration>, eventId: EventId, userId: UserId)
    requires UniqueRegistrations(regs)
    ensures |RegistrationsOf(regs, eventId, userId)| <= 1
    ensures ExistingRegistration(regs, eventId, userId).Some? <==> Registration(eventId, userId) in regs
  {
    SingleRowIffHasKey(regs, RegistrationKey, (eventId, userId));
    AtMostOneWithKey(regs, RegistrationKey, (eventId, userId));
    if Registration(eventId, userId) in regs {
      var i :| 0 <= i < |regs| && regs[i] == Registration(eventId, userId);
      assert RegistrationKey(regs[i]) == (eventId, userId);
    }
    if HasKey(regs, RegistrationKey, (eventId, userId)) {
      var i :| 0 <= i < |regs| && RegistrationKey(regs[i]) == (eventId, userId);
      assert regs[i] == Registration(eventId, userId);
    }
  }

  /** Inserting a registration the select did not find keeps the invariant. */
  lemma RegisterKeepsUnique(regs: seq<Registration>, eventId: EventId, userId: UserId)
    requires UniqueRegistrations(regs)
    requires ExistingRegistration(regs, eventId, userId).None?
    ensures Registration(eventId, userId) !in regs
    ensures UniqueRegistrations(regs + [Registration(eventId, userId)])
  {
    ExistingRegistrationIffRegistered(regs, eventId, userId);
    SingleRowIffHasKey(regs, RegistrationKey, (eventId, userId));
    AppendFreshKeepsUnique(regs, RegistrationKey, Registration(eventId, userId));
  }

  // ---- single_play_credits ----

  /** The key the credit handler treats as unique: the payment session id. */
  function SessionKey(c: Credit): SessionId {
    c.stripeSessionId
  }

  /** The data of `select id ... eq(stripe_session_id) .single()`. */
  function ExistingCredit(credits: seq<Credit>, sessionId: SessionId): Option<Credit> {
    SingleRow(WithKey(credits, SessionKey, sessionId))
  }

  /** Some credit, whoever owns it, was bought with this payment session. */
  predicate Recorded(credits: seq<Credit>, sessionId: SessionId) {
    HasKey(credits, SessionKey, sessionId)
  }

  /** At most one credit per payment session. */
  ghost predicate UniqueSessionIds(credits: seq<Credit>) {
    UniqueKeys(credits, SessionKey)
  }

  /** Under the invariant, the existing-credit select finds a row exactly when
      the session is already recorded, whichever user recorded it. */
  lemma ExistingCreditIffRecorded(credits: seq<Credit>, sessionId: SessionId)
    requires UniqueSessionIds(credits)
    ensures |WithKey(credits, SessionKey, sessionId)| <= 1
    ensures ExistingCredit(credits, sessionId).Some? <==> Recorded(credits, sessionId)
  {
    SingleRowIffHasKey(credits, SessionKey, sessionId);
    AtMostOneWithKey(credits, SessionKey, sessionId);
  }

  /** Recording a credit for a session the select did not find keeps the invariant. */
  lemma RecordKeepsUnique(credits: seq<Credit>, c: Credit)
    requires UniqueSessionIds(credits)
    requires ExistingCredit(credits, c.stripeSessionId).None?
    ensures !Recorded(credits, c.stripeSessionId)
    ensures UniqueSessionIds(credits + [c])
  {
    ExistingCreditIffRecorded(credits, c.stripeSessionId);
    AppendFreshKeepsUnique(credits, SessionKey, c);
  }
}
