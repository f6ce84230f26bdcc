/**
 * User management: looking users up and switching a user's active flag.
 * Only the flag changes; the user's name and team stay as stored.
 */
module Users {
  import opened Domain
  import opened Storage

  /**
   * The outcome of a status update against the stored users: the stored
   * user with the requested active flag, or UserNotFound.
   */
  function StatusUpdate(users: map<string, User>, user: User): (r: Result<User>)
    ensures r.Err? <==> user.userId !in users
    ensures r.Err? ==> r.error == UserNotFound
    ensures r.Ok? ==>
      && r.value.isActive == user.isActive
      && r.value.(isActive := users[user.userId].isActive) == users[user.userId]
  {
    if user.userId !in users then Err(UserNotFound)
    else Ok(users[user.userId].(isActive := user.isActive))
  }

  /** The stored users after a status update: the updated user replaces the stored one. */
  function AfterStatusUpdate(users: map<string, User>, user: User): map<string, User> {
    match StatusUpdate(users, user)
    case Ok(updated) => users[user.userId := updated]
    case Err(_) => users
  }

  /** A second identical status update returns the same user and changes nothing more. */
  lemma {:induction false} StatusUpdateIdempotent(users: map<string, User>, user: User)
    requires forall k :: k in users ==> users[k].userId == k
    ensures StatusUpdate(AfterStatusUpdate(users, user), user) == StatusUpdate(users, user)
    ensures AfterStatusUpdate(AfterStatusUpdate(users, user), user) == AfterStatusUpdate(users, user)
  {
    if user.userId in users {
      var updated := users[user.userId].(isActive := user.isActive);
      var after := users[user.userId := updated];
      assert after[user.userId] == updated;
      assert after[user.userId := updated] == after;
    }
  }

  /** A status update keeps every user's team, so team membership is not affected by it. */
  lemma {:induction false} StatusUpdateKeepsTeams(users: map<string, User>, user: User, k: string)
    requires k in users
    ensures k in AfterStatusUpdate(users, user)
    ensures AfterStatusUpdate(users, user)[k].teamName == users[k].teamName
    ensures AfterStatusUpdate(users, user)[k].username == users[k].username
    ensures k != user.userId ==> AfterStatusUpdate(users, user)[k] == users[k]
  {
    if user.userId in users && k == user.userId {
      assert AfterStatusUpdate(users, user)[k] == users[k].(isActive := user.isActive);
    }
  }

  class UserManager {
    const userStorage: UserStore

    ghost predicate Valid()
      reads this, userStorage
    {
      userStorage.Valid()
    }

    constructor (userStorage: UserStore)
      ensures this.userStorage == userStorage
    {
      this.userStorage := userStorage;
    }

    /**
     * Sets the active flag of a stored user and returns the stored user. An
     * unknown id fails with UserNotFound and changes nothing.
     */
    method UpdateUserStatus(user: User) returns (r: Result<User>)
      requires Valid()
      modifies userStorage
      ensures Valid()
      ensures r == StatusUpdate(old(userStorage.users), user)
      ensures userStorage.users == AfterStatusUpdate(old(userStorage.users), user)
    {
      var selected := SelectUser(Some(user.userId));
      var existingUser;
      match selected {
        case Err(e) => return Err(e);
        case Ok(u) => existingUser := u;
      }
      existingUser := existingUser.(isActive := user.isActive);
      var err := userStorage.Update(existingUser);
      match err {
        case Some(e) => return Err(e);
        case None =>
      }
      r := Ok(existingUser);
    }

    /**
     * The user with the given id, or UserNotFound. Without an id it is the
     * first user of the store's listing, whose order is left open.
     */
    method SelectUser(userId: Option<string>) returns (r: Result<User>)
      requires Valid()
      ensures userId.Some? ==>
        r == if userId.value in userStorage.users then Ok(userStorage.users[userId.value]) else Err(UserNotFound)
      ensures userId.None? ==>
        (r.Err? <==> userStorage.users == map[]) &&
        (r.Ok? ==> r.value.userId in userStorage.users && userStorage.users[r.value.userId] == r.value)
      ensures r.Err? ==> r.error == UserNotFound
    {
      var users := userStorage.Select(userId);
      if |users| == 0 {
        return Err(UserNotFound);
      }
      r := Ok(users[0]);
    }

    /** The store's listing, passed through. */
    method SelectUsers(userId: Option<string>) returns (users: seq<User>)
      requires Valid()
      ensures userId.Some? ==>
        users == if userId.value in userStorage.users then [userStorage.users[userId.value]] else []
      ensures userId.None? ==>
        |users| == |userStorage.users| && forall k :: k in userStorage.users ==> userStorage.users[k] in users
    {
      users := userStorage.Select(userId);
    }
  }
}
