/**
 * Registration and login. The password encoder is a pair of functions given as a parameter
 * (BCrypt in the application): `encode` hashes a raw password, `matches` compares a raw password
 * with a stored hash.
 */
module AuthController {
  import opened Wrappers
  import opened Http
  import opened Users
  import opened CustomUserDetailsService
  import opened JwtService

  datatype PasswordEncoder = PasswordEncoder(encode: string -> string, matches: (string, string) -> bool)

  /** A raw password matches its own hash. */
  ghost predicate Consistent(e: PasswordEncoder) {
    forall raw :: e.matches(raw, e.encode(raw))
  }

  /** The failures authenticate can raise; login lets them propagate. */
  datatype AuthError = BadCredentials | InternalAuthenticationError

  const USER_ROLE: string := "USER"
  const CONFLICT_MESSAGE: string := "Username already taken"
  const CREATED_MESSAGE: string := "User registered successfully"

  /**
   * authenticate, as the standard provider does it: load the user by name (an unknown name is
   * reported as bad credentials), then compare the raw password with the stored hash.
   */
  function Authenticate(users: map<string, User>, encoder: PasswordEncoder, username: string, password: string): (r: Result<UserDetails, AuthError>)
    ensures r.Ok? <==> (LoadUserByUsername(users, username).Ok?
      && encoder.matches(password, LoadUserByUsername(users, username).value.password))
    ensures r.Ok? ==> r.value == LoadUserByUsername(users, username).value
    ensures username !in users ==> r == Err(BadCredentials)
    ensures LoadUserByUsername(users, username) == Err(IllegalArgument) ==> r == Err(InternalAuthenticationError)
    ensures (LoadUserByUsername(users, username).Ok?
      && !encoder.matches(password, LoadUserByUsername(users, username).value.password)) ==> r == Err(BadCredentials)
  {
    match LoadUserByUsername(users, username)
    case Err(UsernameNotFound(_)) => Err(BadCredentials)
    case Err(IllegalArgument) => Err(InternalAuthenticationError)
    case Ok(details) => if encoder.matches(password, details.password) then Ok(details) else Err(BadCredentials)
  }

  /**
   * login: a failed authentication propagates and no token is issued; otherwise the body is a
   * token for the authenticated principal.
   */
  function Login(users: map<string, User>, encoder: PasswordEncoder, s: Signer, username: string, password: string, issueClock: int, expiryClock: int): (r: Result<Response<string>, AuthError>)
    ensures r.Err? <==> Authenticate(users, encoder, username, password).Err?
    ensures r.Err? ==> r.error == Authenticate(users, encoder, username, password).error
    ensures r.Ok? ==> (r.value.status == OK && r.value.body.Some?
      && (Sound(s) ==>
            s.parse(r.value.body.value) == Some(Claims(users[username].username, issueClock, expiryClock + TOKEN_LIFETIME_MS))))
  {
    match Authenticate(users, encoder, username, password)
    case Err(e) => Err(e)
    case Ok(principal) => Ok(Response(OK, Some(GenerateToken(s, principal, issueClock, expiryClock))))
  }

  /**
   * After registration stored `username` with the hash of `password`: logging in with that
   * password yields a token which isTokenValid accepts for the user until it expires (and then
   * refuses with ExpiredToken); logging in
   * with a password the hash does not match yields bad credentials and no token.
   */
  lemma {:induction false} LoginAfterRegister(users: map<string, User>, nextId: UserId, encoder: PasswordEncoder, s: Signer,
                                             username: string, password: string, wrong: string, issueClock: int, expiryClock: int, now: int)
    requires WellFormedUsers(users, nextId) && Consistent(encoder) && Sound(s)
    requires username in users && username != ""
    requires users[username].passwordHash == encoder.encode(password) && users[username].role == USER_ROLE
    requires !encoder.matches(wrong, encoder.encode(password))
    ensures var r := Login(users, encoder, s, username, password, issueClock, expiryClock);
      && r.Ok? && r.value.status == OK
      && IsTokenValid(s, r.value.body.value, LoadUserByUsername(users, username).value, now)
         == if now <= expiryClock + TOKEN_LIFETIME_MS then Ok(true) else Err(ExpiredToken)
    ensures Login(users, encoder, s, username, wrong, issueClock, expiryClock) == Err(BadCredentials)
  {
    RegisteredUserLoads(users, username);
    LoadedDetailsMatchStoredUser(users, nextId, username);
    var details := LoadUserByUsername(users, username).value;
    assert encoder.matches(password, details.password);
    GeneratedTokenValidUntilExpiry(s, details, issueClock, expiryClock, now);
  }

  class AuthController {
    const userRepository: UserRepository
    const passwordEncoder: PasswordEncoder

    constructor (repository: UserRepository, encoder: PasswordEncoder)
      ensures userRepository == repository && passwordEncoder == encoder
    {
      userRepository := repository;
      passwordEncoder := encoder;
    }

    /**
     * register: a taken username is a conflict and leaves the store alone; a new one is stored
     * with the hash of the password and the role "USER". Either way the name is taken afterwards.
     */
    method Register(username: string, password: string) returns (r: Response<string>)
      requires userRepository.Valid()
      modifies userRepository
      ensures userRepository.Valid()
      ensures username in userRepository.users
      ensures old(username in userRepository.users) ==>
        && r == Response(CONFLICT, Some(CONFLICT_MESSAGE))
        && userRepository.users == old(userRepository.users)
        && userRepository.nextId == old(userRepository.nextId)
      ensures old(username !in userRepository.users) ==>
        && r == Response(CREATED, Some(CREATED_MESSAGE))
        && userRepository.users == old(userRepository.users)[username :=
             User(old(userRepository.nextId), username, passwordEncoder.encode(password), USER_ROLE)]
        && userRepository.nextId == old(userRepository.nextId) + 1
    {
      if username in userRepository.users {
        return Response(CONFLICT, Some(CONFLICT_MESSAGE));
      }
      var encryptedPassword := passwordEncoder.encode(password);
      var _ := userRepository.Save(username, encryptedPassword, USER_ROLE);
      r := Response(CREATED, Some(CREATED_MESSAGE));
    }

    /**
     * Registering one username twice: the second attempt is a conflict, and the store holds that
     * name once, with the first registration's password hash, and gained at most that one user.
     */
    method RegisterTwice(username: string, firstPassword: string, secondPassword: string)
      returns (first: Response<string>, second: Response<string>)
      requires userRepository.Valid()
      modifies userRepository
      ensures userRepository.Valid()
      ensures username in userRepository.users
      ensures old(username !in userRepository.users) ==> (first.status == CREATED
        && userRepository.users[username].passwordHash == passwordEncoder.encode(firstPassword))
      ensures second.status == CONFLICT
      ensures userRepository.users.Keys == old(userRepository.users).Keys + {username}
    {
      first := Register(username, firstPassword);
      second := Register(username, secondPassword);
    }
  }
}
