/** `AuthContextMiddleware.dispatch`: per request, reset the attached
    payload, and when a session cookie is present validate it inside a
    database session and attach the result before passing the request on.

    The observable effects are recorded as a trace of events; the database
    session, the token decoder and the next handler are outside the model. */
module AuthMiddleware {
  import opened Wrappers
  import opened AuthSchemas
  import opened DomainExceptions
  import opened Failures
  import opened AuthUtils
  import opened RouteDependencies
  import AuthService

  /** What the middleware does, in order: open or close a database session,
      or hand the request to the next handler with the given payload slot. */
  datatype Event = OpenSession | CloseSession | CallNext(slot: StateSlot)

  /** A dispatch: its trace, the payload slot it leaves on the request, and
      the exception it lets escape, if any. */
  datatype Dispatched = Dispatched(trace: seq<Event>, slot: StateSlot, raised: Option<Raised>)

  /** The next handler was reached. */
  predicate ReachesNext(d: Dispatched) {
    exists i :: 0 <= i < |d.trace| && d.trace[i].CallNext?
  }

  /** Every session opened is closed, before anything else happens. */
  predicate SessionsClosed(trace: seq<Event>) {
    forall i :: 0 <= i < |trace| && trace[i] == OpenSession ==> i + 1 < |trace| && trace[i + 1] == CloseSession
  }

  /** The dispatch as written. `previous` is whatever the request state held
      before; it is overwritten with `None` first. With no (or an empty)
      cookie nothing is validated and the next handler runs with `None`.
      With a cookie the payload becomes the result of
      `validate_access_token`; its AuthenticationError is not caught, so the
      next handler is not reached. The session is closed on both paths. */
  function Dispatch(previous: StateSlot, cookies: map<string, string>, decode: string -> Option<TokenPayload>): (d: Dispatched)
    ensures SessionsClosed(d.trace) && |d.trace| > 0
    ensures NoSessionCookie(cookies) ==> d == Dispatched([CallNext(NoneValue)], NoneValue, None)
    ensures ReachesNext(d) <==> d.raised.None?
    ensures !NoSessionCookie(cookies) ==> d.trace[0] == OpenSession
    ensures !NoSessionCookie(cookies) && decode(cookies[COOKIE_NAME]).Some? ==>
      d.slot == Payload(decode(cookies[COOKIE_NAME]).value) && d.trace[|d.trace| - 1] == CallNext(d.slot)
    ensures !NoSessionCookie(cookies) && decode(cookies[COOKIE_NAME]).None? ==>
      d.slot == NoneValue && d.raised == Some(Domain(AuthenticationError(AuthService.INVALID_OR_EXPIRED_TOKEN)))
  {
    var slot := NoneValue;
    var d :=
      if NoSessionCookie(cookies) then Dispatched([CallNext(slot)], slot, None)
      else match AuthService.ValidateAccessToken(decode, cookies[COOKIE_NAME])
        case Err(e) => Dispatched([OpenSession, CloseSession], slot, Some(e))
        case Ok(p) => Dispatched([OpenSession, CloseSession, CallNext(Payload(p))], Payload(p), None);
    assert d.raised.None? ==> d.trace[|d.trace| - 1].CallNext?;
    d
  }

  /** The reset makes the request state before the middleware irrelevant. */
  lemma ResetForgetsPrevious(s1: StateSlot, s2: StateSlot, cookies: map<string, string>,
                             decode: string -> Option<TokenPayload>)
    ensures Dispatch(s1, cookies, decode) == Dispatch(s2, cookies, decode)
  {
  }

  /** Whenever the handler runs, the request-state gate sees exactly what the
      cookie gate would compute from the cookie. */
  lemma StateGateAgreesWithCookieGate(previous: StateSlot, cookies: map<string, string>,
                                      decode: string -> Option<TokenPayload>)
    requires ReachesNext(Dispatch(previous, cookies, decode))
    ensures GetCurrentPayload(Dispatch(previous, cookies, decode).slot) == CookiePayload(cookies, decode)
  {
  }

  /** As written, a request carrying a cookie that does not decode (expired,
      say) never reaches any handler, whatever the route: the AuthenticationError
      escapes the middleware, where only the catch-all handler applies. */
  lemma UndecodableCookieBlocksEveryRoute(previous: StateSlot, cookies: map<string, string>,
                                          decode: string -> Option<TokenPayload>)
    requires !NoSessionCookie(cookies) && decode(cookies[COOKIE_NAME]).None?
    ensures !ReachesNext(Dispatch(previous, cookies, decode))
    ensures Dispatch(previous, cookies, decode).raised.Some?
  {
  }

  /** The dispatch as the gate is meant to behave: a cookie that does not
      validate leaves the request unauthenticated and the request proceeds,
      so enforcement is left to the route's own requirement. */
  function DispatchLenient(previous: StateSlot, cookies: map<string, string>, decode: string -> Option<TokenPayload>): (d: Dispatched)
    ensures SessionsClosed(d.trace) && |d.trace| > 0
    ensures d.raised.None? && ReachesNext(d)
    ensures d.trace[|d.trace| - 1] == CallNext(d.slot)
    ensures NoSessionCookie(cookies) ==> d.trace == [CallNext(NoneValue)]
    ensures CookiePayload(cookies, decode).Ok? ==> d.slot == Payload(CookiePayload(cookies, decode).value)
    ensures CookiePayload(cookies, decode).Err? ==> d.slot == NoneValue
  {
    var slot := NoneValue;
    var d :=
      if NoSessionCookie(cookies) then Dispatched([CallNext(slot)], slot, None)
      else match AuthService.ValidateAccessToken(decode, cookies[COOKIE_NAME])
        case Err(_) => Dispatched([OpenSession, CloseSession, CallNext(slot)], slot, None)
        case Ok(p) => Dispatched([OpenSession, CloseSession, CallNext(Payload(p))], Payload(p), None);
    assert d.trace[|d.trace| - 1].CallNext?;
    d
  }

  /** With the intended dispatch, a route guarded by the request-state gate
      admits exactly the requests whose cookie decodes, and answers every
      other one with AuthenticationError "Not authenticated". */
  lemma LenientGateDecidesByCookie(previous: StateSlot, cookies: map<string, string>,
                                   decode: string -> Option<TokenPayload>)
    ensures var slot := DispatchLenient(previous, cookies, decode).slot;
      && (GetCurrentPayload(slot).Ok? <==> CookiePayload(cookies, decode).Ok?)
      && (GetCurrentPayload(slot).Ok? ==> GetCurrentPayload(slot) == CookiePayload(cookies, decode))
      && (GetCurrentPayload(slot).Err? ==> GetCurrentPayload(slot) == Err(AuthenticationError(NOT_AUTHENTICATED)))
  {
  }

  /** The two dispatches differ only for a cookie that does not decode. */
  lemma LenientAgreesWhenCookieDecodes(previous: StateSlot, cookies: map<string, string>,
                                       decode: string -> Option<TokenPayload>)
    requires NoSessionCookie(cookies) || decode(cookies[COOKIE_NAME]).Some?
    ensures DispatchLenient(previous, cookies, decode) == Dispatch(previous, cookies, decode)
  {
  }
}
