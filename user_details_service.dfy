/**
 * loadUserByUsername: looks a user up by username and projects the record onto Spring
 * Security's UserDetails (username, password hash, and the role as the authority "ROLE_" + role).
 */
module CustomUserDetailsService {
  import opened Wrappers
  import opened Users

  const ROLE_PREFIX: string := "ROLE_"

  datatype UserDetails = UserDetails(username: string, password: string, authorities: seq<string>)

  datatype LoadError =
    | UsernameNotFound(username: string)
      /** The UserDetails builder refuses an empty username and a role that already starts with "ROLE_". */
    | IllegalArgument

  predicate StartsWith(s: string, prefix: string) {
    |prefix| <= |s| && s[..|prefix|] == prefix
  }

  /** The role is recovered from the one authority by dropping the prefix. */
  function RoleOf(details: UserDetails): Option<string> {
    if |details.authorities| == 1 && StartsWith(details.authorities[0], ROLE_PREFIX)
    then Some(details.authorities[0][|ROLE_PREFIX|..])
    else None
  }

  /**
   * The builder chain `User.builder().username(..).password(..).roles(..).build()`: it refuses an
   * empty username and a role already carrying the prefix, and otherwise keeps the name and the
   * password and grants the one authority from which the role is read back.
   */
  function BuildDetails(username: string, password: string, role: string): (r: Result<UserDetails, LoadError>)
    ensures r.Ok? <==> (username != "" && !StartsWith(role, ROLE_PREFIX))
    ensures r.Err? ==> r.error == IllegalArgument
    ensures r.Ok? ==> (r.value.username == username && r.value.password == password
      && r.value.authorities == [ROLE_PREFIX + role] && RoleOf(r.value) == Some(role))
  {
    if StartsWith(role, ROLE_PREFIX) || username == "" then Err(IllegalArgument)
    else
      var authority := ROLE_PREFIX + role;
      assert authority[..|ROLE_PREFIX|] == ROLE_PREFIX;
      assert authority[|ROLE_PREFIX|..] == role;
      Ok(UserDetails(username, password, [authority]))
  }

  function LoadUserByUsername(users: map<string, User>, username: string): (r: Result<UserDetails, LoadError>)
    ensures username !in users ==> r == Err(UsernameNotFound(username))
    ensures username in users ==>
      (r.Ok? <==> users[username].username != "" && !StartsWith(users[username].role, ROLE_PREFIX))
    ensures r.Ok? ==> (username in users
      && r.value.username == users[username].username
      && r.value.password == users[username].passwordHash
      && r.value.authorities == [ROLE_PREFIX + users[username].role])
  {
    if username !in users then Err(UsernameNotFound(username))
    else
      var user := users[username];
      BuildDetails(user.username, user.passwordHash, user.role)
  }

  /**
   * On a well-formed user store a successful lookup returns the user asked for, with the
   * stored hash unchanged and the stored role.
   */
  lemma {:induction false} LoadedDetailsMatchStoredUser(users: map<string, User>, nextId: UserId, username: string)
    requires WellFormedUsers(users, nextId)
    requires LoadUserByUsername(users, username).Ok?
    ensures var d := LoadUserByUsername(users, username).value;
      && d.username == username
      && d.password == users[username].passwordHash
      && RoleOf(d) == Some(users[username].role)
  {
    var user := users[username];
    assert BuildDetails(user.username, user.passwordHash, user.role).Ok?;
  }

  /** Every user that registration creates (non-empty name, role "USER") can be loaded. */
  lemma RegisteredUserLoads(users: map<string, User>, username: string)
    requires username in users && users[username].username != "" && users[username].role == "USER"
    ensures LoadUserByUsername(users, username).Ok?
  {
    assert |"USER"| < |ROLE_PREFIX|;
  }
}
