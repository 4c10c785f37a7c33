/**
 * The user record and the user store the handlers and the user-details service read and write.
 * A user store is a table keyed by username, with a counter for the identity column.
 */
module Users {
  import opened Wrappers

  type UserId = nat

  datatype User = User(id: UserId, username: string, passwordHash: string, role: string)

  /** Every user is stored under its own username, ids are below the counter and no two users share one. */
  ghost predicate WellFormedUsers(users: map<string, User>, nextId: UserId) {
    && (forall name :: name in users ==> users[name].username == name && users[name].id < nextId)
    && (forall a, b :: a in users && b in users && a != b ==> users[a].id != users[b].id)
  }

  class UserRepository {
    var users: map<string, User>
    var nextId: UserId

    ghost predicate Valid()
      reads this
    {
      WellFormedUsers(users, nextId)
    }

    constructor ()
      ensures Valid() && users == map[] && nextId == 1
    {
      users := map[];
      nextId := 1;
    }

    /** Inserts a new user; the identity column hands out the next id. */
    method Save(username: string, passwordHash: string, role: string) returns (saved: User)
      requires Valid()
      requires username !in users
      modifies this
      ensures Valid()
      ensures saved == User(old(nextId), username, passwordHash, role)
      ensures users == old(users)[username := saved]
      ensures nextId == old(nextId) + 1
    {
      saved := User(nextId, username, passwordHash, role);
      users := users[username := saved];
      nextId := nextId + 1;
    }
  }
}
