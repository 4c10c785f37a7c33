/**
 * The security filter chain: an ordered list of authorization rules (the first rule whose
 * matcher accepts the path decides), sessions that keep nothing between requests, and the
 * JWT filter running before the authorization decision.
 */
module SecurityConfig {
  import opened Wrappers
  import opened Users
  import opened CustomUserDetailsService
  import opened JwtService
  import opened JwtAuthenticationFilter

  datatype Access = PermitAll | Authenticated

  datatype Matcher = Patterns(patterns: seq<string>) | AnyRequest

  datatype Rule = Rule(matcher: Matcher, access: Access)

  // requestMatchers on the authentication endpoints, "/" and "/index.html" permit all;
  // anyRequest() is then authenticated.
  const RULES: seq<Rule> := [
    Rule(Patterns(["/api/auth/**", "/", "/index.html"]), PermitAll),
    Rule(AnyRequest, Authenticated)
  ]

  predicate EndsWith(s: string, suffix: string) {
    |suffix| <= |s| && s[|s| - |suffix|..] == suffix
  }

  // A path pattern: one ending in a double-star segment matches its base path and everything
  // below it, any other pattern only the path itself.
  predicate PatternMatches(pattern: string, path: string) {
    if EndsWith(pattern, "/**") then
      var base := pattern[..|pattern| - 3];
      path == base || StartsWith(path, base + "/")
    else path == pattern
  }

  predicate MatcherAccepts(m: Matcher, path: string) {
    match m
    case AnyRequest => true
    case Patterns(ps) => exists i :: 0 <= i < |ps| && PatternMatches(ps[i], path)
  }

  /** The access of the first rule that accepts the path, if any. */
  function Decide(rules: seq<Rule>, path: string): (r: Option<Access>)
    ensures r.None? <==> forall i :: 0 <= i < |rules| ==> !MatcherAccepts(rules[i].matcher, path)
    ensures r.Some? ==> exists i :: (0 <= i < |rules| && MatcherAccepts(rules[i].matcher, path)
      && rules[i].access == r.value
      && forall j :: 0 <= j < i ==> !MatcherAccepts(rules[j].matcher, path))
  {
    if rules == [] then None
    else if MatcherAccepts(rules[0].matcher, path) then Some(rules[0].access)
    else
      var r := Decide(rules[1..], path);
      assert forall i :: 1 <= i < |rules| ==> rules[i] == rules[1..][i - 1];
      r
  }

  /** The public paths, written out: the authentication endpoints and the static root page. */
  predicate IsPublic(path: string) {
    path == "/" || path == "/index.html" || path == "/api/auth" || StartsWith(path, "/api/auth/")
  }

  /** The chain's rules decide every path, and a path is public exactly when it is one of the public paths. */
  function Policy(path: string): (a: Access)
    ensures a == PermitAll <==> IsPublic(path)
    ensures a == Authenticated <==> !IsPublic(path)
  {
    var first := RULES[0].matcher.patterns;
    assert EndsWith(first[0], "/**");
    assert first[0][..|first[0]| - 3] == "/api/auth";
    assert !EndsWith(first[1], "/**") && !EndsWith(first[2], "/**");
    assert MatcherAccepts(RULES[0].matcher, path) <==> IsPublic(path) by {
      if IsPublic(path) {
        if path == "/" {
          assert PatternMatches(first[1], path);
        } else if path == "/index.html" {
          assert PatternMatches(first[2], path);
        } else {
          assert PatternMatches(first[0], path);
        }
      }
    }
    assert MatcherAccepts(RULES[1].matcher, path);
    match Decide(RULES, path)
    case Some(access) => access
    case None => assert false; Authenticated
  }

  /** A path whose sixth character is not the 'a' of "auth" is not below the authentication endpoints. */
  lemma NotBelowAuth(path: string)
    requires |path| > 5 && path[5] != 'a'
    ensures !StartsWith(path, "/api/auth/")
  {
  }

  /** The task endpoints require an authenticated caller. */
  lemma TaskRoutesProtected(id: string)
    ensures Policy("/api/tasks") == Authenticated
    ensures Policy("/api/tasks/" + id) == Authenticated
    ensures Policy("/api/tasks/search") == Authenticated
  {
    NotBelowAuth("/api/tasks");
    NotBelowAuth("/api/tasks/" + id);
    NotBelowAuth("/api/tasks/search");
  }

  /** Registration, login and the root page are public. */
  lemma AuthRoutesPublic()
    ensures Policy("/api/auth/register") == PermitAll
    ensures Policy("/api/auth/login") == PermitAll
    ensures Policy("/") == PermitAll && Policy("/index.html") == PermitAll
  {
    assert StartsWith("/api/auth/register", "/api/auth/");
    assert StartsWith("/api/auth/login", "/api/auth/");
  }

  /** The fate of one request before it reaches a handler. */
  datatype Decision =
    | Admitted(authentication: Option<Authentication>)
      /** An anonymous request to a protected path. */
    | Denied
      /** An exception escaped the JWT filter. */
    | Failed(error: FilterError)

  /**
   * One request: a fresh, empty security context (nothing carries over between requests), the
   * JWT filter, and then the authorization rules.
   */
  function Dispatch(s: Signer, users: map<string, User>, header: Option<string>, path: string, now: int): (d: Decision)
    ensures d.Admitted? && !IsPublic(path) ==> d.authentication.Some?
    ensures d == Denied ==> !IsPublic(path)
  {
    match Filter(s, users, header, None, now)
    case Raise(e) => Failed(e)
    case Continue(auth) =>
      if Policy(path) == PermitAll || auth.Some? then Admitted(auth) else Denied
  }

  /**
   * A request reaches a protected handler only with an authentication whose principal is the
   * user that a verified, unexpired bearer token names.
   */
  lemma {:induction false} ProtectedNeedsValidToken(s: Signer, users: map<string, User>, nextId: UserId, header: Option<string>, path: string, now: int)
    requires WellFormedUsers(users, nextId)
    requires !IsPublic(path) && Dispatch(s, users, header, path, now).Admitted?
    ensures var d := Dispatch(s, users, header, path, now);
      && d.authentication.Some?
      && BearerToken(header).Some?
      && s.parse(BearerToken(header).value).Some?
      && now <= s.parse(BearerToken(header).value).value.expiration
      && d.authentication.value.principal
         == LoadUserByUsername(users, s.parse(BearerToken(header).value).value.subject).value
  {
    AuthenticatesIff(s, users, nextId, header, now);
  }

  /** A request without a bearer header is let through to a public path, anonymously, and denied on every other. */
  lemma AnonymousRequests(s: Signer, users: map<string, User>, path: string, now: int)
    ensures Dispatch(s, users, None, path, now) == if IsPublic(path) then Admitted(None) else Denied
  {
  }

  /**
   * A token issued for a stored user, presented as "Bearer " + token before it expires, opens
   * every path with that user's details as the principal.
   */
  lemma {:induction false} IssuedTokenOpensProtectedPaths(s: Signer, users: map<string, User>, nextId: UserId, username: string, path: string, issueClock: int, expiryClock: int, now: int)
    requires Sound(s) && WellFormedUsers(users, nextId)
    requires LoadUserByUsername(users, username).Ok?
    requires now <= expiryClock + TOKEN_LIFETIME_MS
    ensures var details := LoadUserByUsername(users, username).value;
      var token := GenerateToken(s, details, issueClock, expiryClock);
      Dispatch(s, users, Some("Bearer " + token), path, now) == Admitted(Some(Authentication(details)))
  {
    var details := LoadUserByUsername(users, username).value;
    var token := GenerateToken(s, details, issueClock, expiryClock);
    LoadedDetailsMatchStoredUser(users, nextId, username);
    BearerTokenOfPrefixed(token);
    GeneratedTokenValidUntilExpiry(s, details, issueClock, expiryClock, now);
  }

  /**
   * Past its expiration the same token makes the request fail on every path, public ones
   * included: the parser's ExpiredToken escapes the filter.
   */
  lemma {:induction false} ExpiredTokenFails(s: Signer, users: map<string, User>, username: string, path: string, issueClock: int, expiryClock: int, now: int)
    requires Sound(s)
    requires LoadUserByUsername(users, username).Ok?
    requires now > expiryClock + TOKEN_LIFETIME_MS
    ensures var details := LoadUserByUsername(users, username).value;
      var token := GenerateToken(s, details, issueClock, expiryClock);
      Dispatch(s, users, Some("Bearer " + token), path, now) == Failed(TokenError(ExpiredToken))
  {
    var details := LoadUserByUsername(users, username).value;
    var token := GenerateToken(s, details, issueClock, expiryClock);
    BearerTokenOfPrefixed(token);
  }
}
