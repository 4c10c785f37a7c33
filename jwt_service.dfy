/**
 * The token service. A token carries the claims {subject, issuedAt, expiration} of a JSON Web
 * Token (RFC 7519), timestamps in milliseconds. Signing (JWS with HMAC SHA-256, section 3.2 of
 * RFC 7518) is a pair of functions given as a parameter: `sign` turns claims into the compact
 * token and `parse` gives back the claims of a token whose signature verifies, or nothing for a
 * token that is malformed or signed with another key. Parsing also refuses a token whose
 * expiration is before the current instant, as jjwt's parseClaimsJws does.
 */
module JwtService {
  import opened Wrappers
  import opened CustomUserDetailsService

  /** 1000 * 60 * 60 * 24 milliseconds: a token lives for 24 hours. */
  const TOKEN_LIFETIME_MS: int := 1000 * 60 * 60 * 24

  datatype Claims = Claims(subject: string, issuedAt: int, expiration: int)

  /**
   * The failures of parseClaimsJws: a token that is malformed or whose signature does not
   * verify, and a token whose expiration is before now (the parser's own expiration check).
   */
  datatype JwtError = InvalidToken | ExpiredToken

  datatype Signer = Signer(sign: Claims -> string, parse: string -> Option<Claims>)

  /** Verification accepts every token the signer issued and reads back the claims it was given. */
  ghost predicate Sound(s: Signer) {
    forall c :: s.parse(s.sign(c)) == Some(c)
  }

  /**
   * generateToken: the subject is the user's name, issuedAt the first clock reading and the
   * expiration the second clock reading plus 24 hours (generateToken reads the clock twice).
   */
  function GenerateToken(s: Signer, user: UserDetails, issueClock: int, expiryClock: int): (token: string)
    ensures Sound(s) ==> s.parse(token) == Some(Claims(user.username, issueClock, expiryClock + 86_400_000))
  {
    s.sign(Claims(user.username, issueClock, expiryClock + TOKEN_LIFETIME_MS))
  }

  /**
   * extractAllClaims: the claims of a token whose signature verifies and whose expiration is
   * not before now; a token that does not verify is InvalidToken, an expired one ExpiredToken.
   */
  function ExtractAllClaims(s: Signer, token: string, now: int): (r: Result<Claims, JwtError>)
    ensures r == Err(InvalidToken) <==> s.parse(token).None?
    ensures r == Err(ExpiredToken) <==> (s.parse(token).Some? && s.parse(token).value.expiration < now)
    ensures r.Ok? ==> s.parse(token) == Some(r.value) && now <= r.value.expiration
  {
    match s.parse(token)
    case None => Err(InvalidToken)
    case Some(c) => if c.expiration < now then Err(ExpiredToken) else Ok(c)
  }

  /** extractUsername: the subject, or the parser's error. */
  function ExtractUsername(s: Signer, token: string, now: int): (r: Result<string, JwtError>)
    ensures r.Ok? <==> ExtractAllClaims(s, token, now).Ok?
    ensures r.Err? ==> r.error == ExtractAllClaims(s, token, now).error
    ensures r.Ok? ==> r.value == s.parse(token).value.subject
  {
    match ExtractAllClaims(s, token, now)
    case Ok(c) => Ok(c.subject)
    case Err(e) => Err(e)
  }

  /**
   * isTokenExpired: the expiration is strictly before now. The parser has already refused such
   * a token, so this comparison never answers true.
   */
  function IsTokenExpired(s: Signer, token: string, now: int): (r: Result<bool, JwtError>)
    ensures r.Ok? <==> ExtractAllClaims(s, token, now).Ok?
    ensures r.Err? ==> r.error == ExtractAllClaims(s, token, now).error
    ensures r.Ok? ==> (r.value <==> s.parse(token).value.expiration < now)
  {
    match ExtractAllClaims(s, token, now)
    case Ok(c) => Ok(c.expiration < now)
    case Err(e) => Err(e)
  }

  /** The expiration comparison of isTokenExpired never decides: an expired token raises before it runs. */
  lemma {:induction false} IsTokenExpiredNeverTrue(s: Signer, token: string, now: int)
    ensures IsTokenExpired(s, token, now) != Ok(true)
  {
    match s.parse(token)
    case None =>
    case Some(c) =>
      if c.expiration < now {
        assert ExtractAllClaims(s, token, now) == Err(ExpiredToken);
      }
  }

  /**
   * isTokenValid: the subject is the user's name and the token has not expired. A token that
   * does not verify, or has expired, raises the parser's error instead of answering.
   */
  function IsTokenValid(s: Signer, token: string, user: UserDetails, now: int): (r: Result<bool, JwtError>)
    ensures r.Err? <==> ExtractAllClaims(s, token, now).Err?
    ensures r.Err? ==> r.error == ExtractAllClaims(s, token, now).error
    ensures r.Ok? ==> (r.value <==>
      s.parse(token).value.subject == user.username && now <= s.parse(token).value.expiration)
  {
    match ExtractUsername(s, token, now)
    case Err(e) => Err(e)
    case Ok(username) =>
      if username != user.username then Ok(false)
      else
        match IsTokenExpired(s, token, now)
        case Err(e) => Err(e)
        case Ok(expired) => Ok(!expired)
  }

  /**
   * A token issued for a user is accepted for that user at every instant up to and including
   * its expiration; at every later instant it raises ExpiredToken.
   */
  lemma GeneratedTokenValidUntilExpiry(s: Signer, user: UserDetails, issueClock: int, expiryClock: int, now: int)
    requires Sound(s)
    ensures IsTokenValid(s, GenerateToken(s, user, issueClock, expiryClock), user, now)
      == if now <= expiryClock + TOKEN_LIFETIME_MS then Ok(true) else Err(ExpiredToken)
  {
  }

  /** The expiration instant itself still counts as valid: the comparison is strict. */
  lemma ValidAtExpirationInstant(s: Signer, token: string, user: UserDetails)
    requires s.parse(token).Some? && s.parse(token).value.subject == user.username
    ensures IsTokenValid(s, token, user, s.parse(token).value.expiration) == Ok(true)
    ensures IsTokenValid(s, token, user, s.parse(token).value.expiration + 1) == Err(ExpiredToken)
  {
  }

  /** A token issued for one username is refused for every other username: false while it lives, an error after. */
  lemma GeneratedTokenRefusesOtherUser(s: Signer, user: UserDetails, other: UserDetails, issueClock: int, expiryClock: int, now: int)
    requires Sound(s) && other.username != user.username
    ensures IsTokenValid(s, GenerateToken(s, user, issueClock, expiryClock), other, now)
      == if now <= expiryClock + TOKEN_LIFETIME_MS then Ok(false) else Err(ExpiredToken)
  {
  }

  /**
   * When both clock readings agree the token lives exactly 24 hours; a clock that moved
   * forward between the readings only lengthens the lifetime.
   */
  lemma LifetimeIsOneDay(s: Signer, user: UserDetails, issueClock: int, expiryClock: int)
    requires Sound(s) && issueClock <= expiryClock
    ensures var c := s.parse(GenerateToken(s, user, issueClock, expiryClock)).value;
      && c.subject == user.username
      && c.expiration - c.issuedAt >= TOKEN_LIFETIME_MS
      && (issueClock == expiryClock ==> c.expiration - c.issuedAt == TOKEN_LIFETIME_MS)
  {
  }

  // ---- The signing secret --------------------------------------------------------------

  datatype ConfigError = CouldNotLoad | SecretNotFound

  /** Java's String.trim: drops leading and trailing characters up to U+0020. */
  function TrimLeading(s: string): (r: string)
    ensures |r| <= |s| && r == s[|s| - |r|..]
    ensures forall i :: 0 <= i < |s| - |r| ==> s[i] <= ' '
    ensures r != [] ==> r[0] > ' '
  {
    if |s| > 0 && s[0] <= ' ' then TrimLeading(s[1..]) else s
  }

  function TrimTrailing(s: string): (r: string)
    ensures |r| <= |s| && r == s[..|r|]
    ensures forall i :: |r| <= i < |s| ==> s[i] <= ' '
    ensures r != [] ==> r[|r| - 1] > ' '
  {
    if |s| > 0 && s[|s| - 1] <= ' ' then TrimTrailing(s[..|s| - 1]) else s
  }

  /** `r` is the segment of `s` starting at `i`, and every character of `s` outside it is at most U+0020. */
  predicate MiddleAt(s: string, r: string, i: int) {
    && 0 <= i && i + |r| <= |s| && r == s[i..i + |r|]
    && (forall j :: 0 <= j < i ==> s[j] <= ' ')
    && (forall j :: i + |r| <= j < |s| ==> s[j] <= ' ')
  }

  /**
   * String.trim: the input with its leading and trailing runs of characters up to U+0020
   * removed, so the result neither starts nor ends with one.
   */
  function Trim(s: string): (r: string)
    ensures exists i :: MiddleAt(s, r, i)
    ensures r != [] ==> r[0] > ' ' && r[|r| - 1] > ' '
  {
    var l := TrimLeading(s);
    var r := TrimTrailing(l);
    BlankRunsAround(s, l, r);
    r
  }

  /** A prefix `r` of a suffix `l` of `s`, with only blanks cut off either side, is a middle segment of `s`. */
  lemma BlankRunsAround(s: string, l: string, r: string)
    requires |l| <= |s| && l == s[|s| - |l|..] && forall j :: 0 <= j < |s| - |l| ==> s[j] <= ' '
    requires |r| <= |l| && r == l[..|r|] && forall j :: |r| <= j < |l| ==> l[j] <= ' '
    ensures MiddleAt(s, r, |s| - |l|)
  {
    var i := |s| - |l|;
    assert r == s[i..i + |r|];
    forall j | i + |r| <= j < |s|
      ensures s[j] <= ' '
    {
      assert s[j] == l[j - i];
    }
  }

  /** A string trims to nothing exactly when every one of its characters is at most U+0020. */
  lemma {:induction false} TrimEmptyIffBlank(s: string)
    ensures Trim(s) == [] <==> forall i :: 0 <= i < |s| ==> s[i] <= ' '
  {
    var l := TrimLeading(s);
    if exists j :: 0 <= j < |s| && s[j] > ' ' {
      var j :| 0 <= j < |s| && s[j] > ' ';
      assert |s| - |l| <= j;
      assert l != [];
      assert l[0] > ' ';
      assert Trim(s) != [];
    }
  }

  /**
   * loadSecretKey, given the properties file as read (none when it could not be read): the
   * JWT_SECRET entry, untrimmed, unless it is missing or blank.
   */
  function LoadSecretKey(properties: Option<map<string, string>>): (r: Result<string, ConfigError>)
    ensures properties.None? ==> r == Err(CouldNotLoad)
    ensures r.Ok? <==> (properties.Some? && "JWT_SECRET" in properties.value
      && exists i :: 0 <= i < |properties.value["JWT_SECRET"]| && properties.value["JWT_SECRET"][i] > ' ')
    ensures r.Ok? ==> r.value == properties.value["JWT_SECRET"]
    ensures properties.Some? && r.Err? ==> r == Err(SecretNotFound)
  {
    match properties
    case None => Err(CouldNotLoad)
    case Some(props) =>
      if "JWT_SECRET" !in props then Err(SecretNotFound)
      else
        var key := props["JWT_SECRET"];
        TrimEmptyIffBlank(key);
        if Trim(key) == [] then Err(SecretNotFound) else Ok(key)
  }
}
