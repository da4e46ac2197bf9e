/** The in-memory account service: accounts by user name, and active sessions by account id.
    Random UUIDs become parameters. */
module InMemoryUsers {
  import opened Wrappers

  /** The service's own account record: id, user name, e-mail and password. */
  datatype Account = Account(id: string, username: string, email: string, password: string)

  class SimpleUserService {
    var users: map<string, Account>
    var activeSessions: map<string, string>

    /** Every account is stored under its own user name. */
    ghost predicate Valid()
      reads this
    {
      forall u :: u in users ==> users[u].username == u
    }

    /** Seeds the two demonstration accounts, with ids `johnId` and `janeId`. */
    constructor (johnId: string, janeId: string)
      ensures Valid()
      ensures users == map["johndoe" := Account(johnId, "johndoe", "john@example.com", "password123"),
                           "janedoe" := Account(janeId, "janedoe", "jane@example.com", "password456")]
      ensures activeSessions == map[]
    {
      users := map[];
      activeSessions := map[];
      new;
      var _ := CreateUser("johndoe", "password123", "john@example.com", johnId);
      var _ := CreateUser("janedoe", "password456", "jane@example.com", janeId);
    }

    /** authenticateUser: on a matching user name and password, records a session under the account's
        id (with the fresh session id `sessionId`) and returns the account. */
    method AuthenticateUser(username: string, password: string, sessionId: string) returns (r: Option<Account>)
      requires Valid()
      modifies this
      ensures Valid() && users == old(users)
      ensures r.Some? <==> username in users && users[username].password == password
      ensures r.Some? ==> r.value == users[username]
                          && activeSessions == old(activeSessions)[r.value.id := sessionId]
      ensures r.None? ==> activeSessions == old(activeSessions)
    {
      if username in users && users[username].password == password {
        var user := users[username];
        activeSessions := activeSessions[user.id := sessionId];
        r := Some(user);
      } else {
        r := None;
      }
    }

    /** authenticateUserSession: the id has an active session. */
    function AuthenticateUserSession(userId: string): bool
      reads this
    {
      userId in activeSessions
    }

    /** createUser: refuses a user name already taken, otherwise stores a new account with id `id`. */
    method CreateUser(username: string, password: string, email: string, id: string) returns (r: Result<Account>)
      requires Valid()
      modifies this
      ensures Valid() && activeSessions == old(activeSessions)
      ensures r.Failure? <==> username in old(users)
      ensures r.Failure? ==> users == old(users)
      ensures r.Ok? ==> r.value == Account(id, username, email, password)
                        && users == old(users)[username := r.value]
      ensures r.Ok? ==> username in users && users[username].password == password
    {
      if username in users {
        return Failure("Username already exists");
      }
      var account := Account(id, username, email, password);
      users := users[username := account];
      r := Ok(account);
    }

    /** logout: ends only that id's session. */
    method Logout(userId: string)
      modifies this
      ensures users == old(users)
      ensures activeSessions == old(activeSessions) - {userId}
      ensures !AuthenticateUserSession(userId)
    {
      activeSessions := activeSessions - {userId};
    }

    /** deleteUser: removes every account with that id; sessions are left as they are. */
    method DeleteUser(userId: string)
      requires Valid()
      modifies this
      ensures Valid() && activeSessions == old(activeSessions)
      ensures users == map u | u in old(users) && old(users)[u].id != userId :: old(users)[u]
      ensures forall u :: u in users ==> users[u].id != userId
    {
      users := map u | u in users && users[u].id != userId :: users[u];
    }
  }
}
