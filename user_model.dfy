/** The in-memory user repository: first-match lookups by email, id and username, and the store
    whose array `createUser` appends to. */
module UserModel {
  import opened Wrappers
  import opened Seqs

  /** A registered user; `hashedPassword` is the one-way hash, never the plain password. */
  datatype User = User(userId: string, username: string, email: string, hashedPassword: string, createdAt: int)

  function HasEmail(email: string): User -> bool { (u: User) => u.email == email }
  function HasUserId(userId: string): User -> bool { (u: User) => u.userId == userId }
  function HasUsername(username: string): User -> bool { (u: User) => u.username == username }

  /** `findUserByEmail`: the first user with that email, or `None` (null). */
  function FindUserByEmail(users: seq<User>, email: string): (r: Option<User>)
    ensures r.None? <==> forall u :: u in users ==> u.email != email
    ensures r.Some? ==> r.value.email == email
    ensures r.Some? ==> exists i: nat :: IsFirst(users, HasEmail(email), i) && users[i] == r.value
  {
    Find(users, HasEmail(email))
  }

  /** `findUserByUserId`: the first user with that id, or `None` (null). */
  function FindUserByUserId(users: seq<User>, userId: string): (r: Option<User>)
    ensures r.None? <==> forall u :: u in users ==> u.userId != userId
    ensures r.Some? ==> r.value.userId == userId
    ensures r.Some? ==> exists i: nat :: IsFirst(users, HasUserId(userId), i) && users[i] == r.value
  {
    Find(users, HasUserId(userId))
  }

  /** `findUserByUsername`: the first user with that username, or `None` (null). */
  function FindUserByUsername(users: seq<User>, username: string): (r: Option<User>)
    ensures r.None? <==> forall u :: u in users ==> u.username != username
    ensures r.Some? ==> r.value.username == username
    ensures r.Some? ==> exists i: nat :: IsFirst(users, HasUsername(username), i) && users[i] == r.value
  {
    Find(users, HasUsername(username))
  }

  /** No two users share an email. The store itself does not keep this; registration does. */
  ghost predicate UniqueEmails(users: seq<User>) {
    forall i, j :: 0 <= i < j < |users| ==> users[i].email != users[j].email
  }

  /** The user store (the static `users` array of the repository). */
  class UserStore {
    var users: seq<User>

    constructor ()
      ensures users == []
    {
      users := [];
    }

    /** `createUser`: always appends one user with a fresh id, whatever the store holds. */
    method CreateUser(username: string, email: string, hashedPassword: string, freshId: string, now: int)
      returns (user: User)
      modifies this
      ensures user == User(freshId, username, email, hashedPassword, now)
      ensures users == old(users) + [user]
    {
      user := User(freshId, username, email, hashedPassword, now);
      users := users + [user];
    }

    /** `reset`: empties the store, so that every lookup finds nothing. */
    method Reset()
      modifies this
      ensures users == []
      ensures forall e :: FindUserByEmail(users, e).None?
      ensures forall id :: FindUserByUserId(users, id).None?
      ensures forall n :: FindUserByUsername(users, n).None?
    {
      users := [];
    }
  }

  /** Appending a user whose email is already taken breaks uniqueness: `createUser` alone does
      not protect it. */
  lemma CreateUserDuplicatesEmail(users: seq<User>, user: User)
    requires FindUserByEmail(users, user.email).Some?
    ensures !UniqueEmails(users + [user])
  {
    var i: nat :| IsFirst(users, HasEmail(user.email), i) && users[i] == FindUserByEmail(users, user.email).value;
    var after := users + [user];
    assert after[i].email == after[|users|].email;
  }

  /** Appending a user whose email is not yet taken keeps emails unique. */
  lemma CreateUserKeepsUniqueEmails(users: seq<User>, user: User)
    requires UniqueEmails(users)
    requires FindUserByEmail(users, user.email).None?
    ensures UniqueEmails(users + [user])
  {
    var after := users + [user];
    forall i, j | 0 <= i < j < |after| ensures after[i].email != after[j].email {
      if j == |users| {
        assert after[i] in users;
      }
    }
  }
}
