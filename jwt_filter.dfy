/**
 * The per-request authentication filter. The security context is a field of the request it
 * belongs to: a request starts unauthenticated and the filter may authenticate it once, reading
 * the bearer token of the Authorization header (section 2.1 of RFC 6750).
 */
module JwtAuthenticationFilter {
  import opened Wrappers
  import opened Users
  import opened CustomUserDetailsService
  import opened JwtService

  /** The authentication the filter installs: its principal is the loaded user details. */
  datatype Authentication = Authentication(principal: UserDetails)

  /** The exceptions the filter does not catch. */
  datatype FilterError = TokenError(jwtError: JwtError) | LoadFailure(loadError: LoadError)

  const BEARER_PREFIX: string := "Bearer "

  /** The token of a header that starts with "Bearer ": the header after its first 7 characters. */
  function BearerToken(header: Option<string>): (r: Option<string>)
    ensures r.Some? <==> (header.Some? && StartsWith(header.value, "Bearer "))
    ensures r.Some? ==> header.value == "Bearer " + r.value
  {
    if header.Some? && StartsWith(header.value, BEARER_PREFIX) then
      var token := header.value[7..];
      assert header.value == header.value[..7] + token;
      Some(token)
    else None
  }

  /** The header "Bearer " + t yields exactly t. */
  lemma BearerTokenOfPrefixed(t: string)
    ensures BearerToken(Some("Bearer " + t)) == Some(t)
  {
    assert ("Bearer " + t)[..|BEARER_PREFIX|] == BEARER_PREFIX;
  }

  /** What the filter does: pass the request on with this context, or raise. */
  datatype FilterResult = Continue(authentication: Option<Authentication>) | Raise(error: FilterError)

  /**
   * doFilterInternal as a function of the header, the context it finds, the user store and the
   * clock: no bearer token passes the request on untouched; otherwise the subject is extracted
   * (a bad token raises), and only when the context is still empty is the user loaded (an unknown
   * user raises) and, if the token is valid for that user, the context authenticated.
   */
  function Filter(s: Signer, users: map<string, User>, header: Option<string>, current: Option<Authentication>, now: int): (r: FilterResult)
    ensures r.Continue? && r.authentication != current ==>
      && current.None? && r.authentication.Some?
      && BearerToken(header).Some?
      && ExtractUsername(s, BearerToken(header).value, now).Ok?
      && LoadUserByUsername(users, ExtractUsername(s, BearerToken(header).value, now).value).Ok?
      && r.authentication.value.principal
         == LoadUserByUsername(users, ExtractUsername(s, BearerToken(header).value, now).value).value
  {
    match BearerToken(header)
    case None => Continue(current)
    case Some(jwt) =>
      match ExtractUsername(s, jwt, now)
      case Err(e) => Raise(TokenError(e))
      case Ok(username) =>
        if current.Some? then Continue(current)
        else
          match LoadUserByUsername(users, username)
          case Err(e) => Raise(LoadFailure(e))
          case Ok(details) =>
            match IsTokenValid(s, jwt, details, now)
            case Err(e) => Raise(TokenError(e))
            case Ok(valid) => Continue(if valid then Some(Authentication(details)) else None)
  }

  /** A request without a bearer header passes through with its context untouched. */
  lemma NoBearerPassesThrough(s: Signer, users: map<string, User>, header: Option<string>, current: Option<Authentication>, now: int)
    requires header.None? || !StartsWith(header.value, "Bearer ")
    ensures Filter(s, users, header, current, now) == Continue(current)
  {
  }

  /**
   * The only change the filter makes to the context is from unauthenticated to authenticated:
   * an authentication already present is kept, and none is ever cleared.
   */
  lemma OnlyUnauthenticatedToAuthenticated(s: Signer, users: map<string, User>, header: Option<string>, current: Option<Authentication>, now: int)
    requires Filter(s, users, header, current, now).Continue?
    ensures var a := Filter(s, users, header, current, now).authentication;
      a == current || (current.None? && a.Some?)
    ensures current.Some? ==> Filter(s, users, header, current, now).authentication == current
  {
  }

  /**
   * The filter raises exactly for a bearer token that does not verify or has expired, or an
   * unloadable subject on an empty context; an expired token raises ExpiredToken.
   */
  lemma RaisesExactly(s: Signer, users: map<string, User>, header: Option<string>, current: Option<Authentication>, now: int)
    ensures Filter(s, users, header, current, now).Raise? <==>
      (BearerToken(header).Some? &&
        (|| s.parse(BearerToken(header).value).None?
         || s.parse(BearerToken(header).value).value.expiration < now
         || (current.None? && LoadUserByUsername(users, s.parse(BearerToken(header).value).value.subject).Err?)))
    ensures (BearerToken(header).Some? && s.parse(BearerToken(header).value).Some?
      && s.parse(BearerToken(header).value).value.expiration < now) ==>
      Filter(s, users, header, current, now) == Raise(TokenError(ExpiredToken))
  {
  }

  /**
   * On a well-formed user store an empty context becomes authenticated exactly when the header
   * is "Bearer " + t, t verifies, its subject names a loadable user and it has not expired; the
   * principal is then that user's details. The subject comparison of isTokenValid always passes
   * here, since the user was loaded by that very subject.
   */
  lemma {:induction false} AuthenticatesIff(s: Signer, users: map<string, User>, nextId: UserId, header: Option<string>, now: int)
    requires WellFormedUsers(users, nextId)
    ensures var r := Filter(s, users, header, None, now);
      (r.Continue? && r.authentication.Some?) <==>
        (&& BearerToken(header).Some?
         && s.parse(BearerToken(header).value).Some?
         && LoadUserByUsername(users, s.parse(BearerToken(header).value).value.subject).Ok?
         && now <= s.parse(BearerToken(header).value).value.expiration)
    ensures var r := Filter(s, users, header, None, now);
      (r.Continue? && r.authentication.Some?) ==>
        r.authentication.value.principal == LoadUserByUsername(users, s.parse(BearerToken(header).value).value.subject).value
  {
    var r := Filter(s, users, header, None, now);
    if BearerToken(header).Some? && s.parse(BearerToken(header).value).Some? {
      var c := s.parse(BearerToken(header).value).value;
      var load := LoadUserByUsername(users, c.subject);
      if load.Ok? {
        LoadedDetailsMatchStoredUser(users, nextId, c.subject);
        assert load.value.username == c.subject;
      }
    }
  }

  /** The per-request state: the Authorization header, the security context, and how often the chain ran. */
  class RequestContext {
    const authorizationHeader: Option<string>
    var authentication: Option<Authentication>
    var chainInvocations: nat

    /** Sessions are stateless: every request starts with an empty context. */
    constructor (header: Option<string>)
      ensures authorizationHeader == header
      ensures authentication == None && chainInvocations == 0
    {
      authorizationHeader := header;
      authentication := None;
      chainInvocations := 0;
    }
  }

  /**
   * doFilterInternal: updates the request's context as Filter says and invokes the chain once,
   * or raises and leaves both alone.
   */
  method DoFilterInternal(request: RequestContext, s: Signer, users: map<string, User>, now: int)
    returns (outcome: Result<(), FilterError>)
    modifies request
    ensures match Filter(s, users, request.authorizationHeader, old(request.authentication), now)
      case Continue(a) =>
        outcome.Ok? && request.authentication == a && request.chainInvocations == old(request.chainInvocations) + 1
      case Raise(e) =>
        outcome == Err(e) && request.authentication == old(request.authentication)
        && request.chainInvocations == old(request.chainInvocations)
  {
    var authHeader := request.authorizationHeader;
    if authHeader.None? || !StartsWith(authHeader.value, BEARER_PREFIX) {
      request.chainInvocations := request.chainInvocations + 1;
      return Ok(());
    }
    var jwt := authHeader.value[7..];
    assert BearerToken(authHeader) == Some(jwt);
    var username := ExtractUsername(s, jwt, now);
    if username.Err? {
      return Err(TokenError(username.error));
    }
    if request.authentication.None? {
      var details := LoadUserByUsername(users, username.value);
      if details.Err? {
        return Err(LoadFailure(details.error));
      }
      match IsTokenValid(s, jwt, details.value, now)
      case Err(e) =>
        return Err(TokenError(e));
      case Ok(valid) =>
        if valid {
          request.authentication := Some(Authentication(details.value));
        }
    }
    request.chainInvocations := request.chainInvocations + 1;
    outcome := Ok(());
  }
}
