/**
 The checks every handler runs before it touches a table: the Authorization
 header, the identity provider's answer for the bearer token, and one required
 field of the JSON body.
 */
module Guards {
  import opened Types

  const BearerPrefix := "Bearer "
  const NoAuthorizationMessage := "No authorization header"

  /** The result of a guard: carry on with a value, or answer now. */
  datatype Checked<+T> = Continue(value: T) | Stop(response: Response)

  /** The authenticated caller and the one identifier its body names
      (an event id or a checkout session id). */
  datatype Admission = Admission(user: User, target: string)

  /** JavaScript truthiness of an optional string: null, undefined and "" are falsy. */
  predicate Truthy(s: Option<string>) {
    s.Some? && s.value != ""
  }

  /** An error response `{ error: message }`. */
  function Fail(status: int, message: string): Response {
    Response(status, ErrorBody(message))
  }

  /** `pat` occurs in `s` starting at index `k`. */
  predicate OccursAt(s: string, pat: string, k: nat) {
    k + |pat| <= |s| && s[k..k + |pat|] == pat
  }

  /** The first index at or after `from` where `pat` occurs in `s`. */
  function FirstOccurrence(s: string, pat: string, from: nat): (r: Option<nat>)
    ensures r.Some? ==> from <= r.value && OccursAt(s, pat, r.value)
    ensures r.Some? ==> forall k: nat :: from <= k < r.value ==> !OccursAt(s, pat, k)
    ensures r.None? ==> forall k: nat :: from <= k ==> !OccursAt(s, pat, k)
    decreases |s| - from
  {
    if from + |pat| > |s| then None
    else if s[from..from + |pat|] == pat then Some(from)
    else FirstOccurrence(s, pat, from + 1)
  }

  /** The token handed to the identity provider: the header with the first
      occurrence of "Bearer " removed, wherever it stands (a string-pattern
      `replace` replaces one occurrence only). */
  function BearerToken(header: string): (token: string)
    ensures OccursAt(header, BearerPrefix, 0) ==> token == header[|BearerPrefix|..]
    ensures (forall k: nat :: !OccursAt(header, BearerPrefix, k)) ==> token == header
    ensures forall i: nat ::
              OccursAt(header, BearerPrefix, i) && (forall k: nat :: k < i ==> !OccursAt(header, BearerPrefix, k)) ==>
              token == header[..i] + header[i + |BearerPrefix|..]
    ensures |token| == |header| || |token| + |BearerPrefix| == |header|
  {
    match FirstOccurrence(header, BearerPrefix, 0)
    case None => header
    case Some(i) => header[..i] + header[i + |BearerPrefix|..]
  }

  /** A well-formed "Bearer <token>" header yields exactly its token. */
  lemma BearerHeaderYieldsToken(token: string)
    ensures BearerToken(BearerPrefix + token) == token
  {
    var header := BearerPrefix + token;
    assert header[..|BearerPrefix|] == BearerPrefix;
    assert OccursAt(header, BearerPrefix, 0);
    assert header[|BearerPrefix|..] == token;
  }

  /** The opening guard of all three handlers: a missing or empty header is
      answered 401; a token the identity provider does not accept is answered
      403 with the handler's own `denied` message; otherwise the signed-in user. */
  function Authenticate(authorization: Option<string>, getUser: string -> AuthOutcome, denied: string): (r: Checked<User>)
    ensures r.Stop? && r.response.status == 401 <==> !Truthy(authorization)
    ensures r.Stop? ==> r.response.status in {401, 403} && r.response.body.ErrorBody?
    ensures r.Continue? <==> Truthy(authorization) && getUser(BearerToken(authorization.value)).SignedIn?
    ensures r.Continue? ==> getUser(BearerToken(authorization.value)) == SignedIn(r.value)
    ensures Truthy(authorization) && r.Stop? ==> r.response == Fail(403, denied)
  {
    if !Truthy(authorization) then Stop(Fail(401, NoAuthorizationMessage))
    else match getUser(BearerToken(authorization.value))
      case AuthFailed => Stop(Fail(403, denied))
      case SignedIn(user) => Continue(user)
  }

  /** Reads one required field of the body: an unreadable body throws and is
      answered 500 by the outer `catch`; a missing or empty field is answered 400. */
  function RequiredField(payload: Payload, name: string, missing: string): (r: Checked<string>)
    ensures r.Continue? <==> payload.Fields? && name in payload.fields && payload.fields[name] != ""
    ensures r.Continue? ==> r.value == payload.fields[name]
    ensures payload.Unparsable? ==> r == Stop(Fail(500, payload.message))
    ensures payload.Fields? && r.Stop? ==> r == Stop(Fail(400, missing))
  {
    match payload
    case Unparsable(message) => Stop(Fail(500, message))
    case Fields(fields) =>
      if name in fields && fields[name] != "" then Continue(fields[name])
      else Stop(Fail(400, missing))
  }
}
