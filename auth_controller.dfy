/** Registration and login. Password hashing, hash comparison and token issuing are the
    parameters `hash`, `passwordMatches` and `issueToken`. */
module AuthController {
  import opened Wrappers
  import opened Seqs
  import opened Http
  import opened UserModel

  const EmailRegistered: string := "Email is already registered"
  const InvalidCredentials: string := "Invalid email or password"

  /** The user as the API shows it: id, username and email, never the hash. */
  function View(u: User): (v: UserView)
    ensures v.id == u.userId && v.username == u.username && v.email == u.email
  {
    UserView(u.userId, u.username, u.email)
  }

  /** `register`: an email already in the store is refused with 400 and the store is left alone;
      otherwise one user is appended, holding the hash of the password, and 201 shows its view.
      Registration therefore keeps emails unique. */
  method Register(store: UserStore, username: string, email: string, password: string,
                  hash: string -> string, freshId: string, now: int) returns (resp: Response)
    modifies store
    ensures old(FindUserByEmail(store.users, email)).Some? ==>
      resp == Response(400, Message(EmailRegistered)) && store.users == old(store.users)
    ensures old(FindUserByEmail(store.users, email)).None? ==>
      && store.users == old(store.users) + [User(freshId, username, email, hash(password), now)]
      && resp == Response(201, Registered(UserView(freshId, username, email)))
    ensures UniqueEmails(old(store.users)) ==> UniqueEmails(store.users)
  {
    var existing := FindUserByEmail(store.users, email);
    if existing.Some? {
      return Response(400, Message(EmailRegistered));
    }
    var hashedPassword := hash(password);
    ghost var before := store.users;
    var user := store.CreateUser(username, email, hashedPassword, freshId, now);
    if UniqueEmails(before) {
      CreateUserKeepsUniqueEmails(before, user);
    }
    resp := Response(201, Registered(View(user)));
  }

  /** Registering the same email twice in a row: the first succeeds, the second is refused and
      the store holds exactly the first user. */
  method RegisterTwice(store: UserStore, username: string, email: string, password: string,
                       hash: string -> string, firstId: string, secondId: string, now: int)
    returns (first: Response, second: Response)
    requires FindUserByEmail(store.users, email).None?
    modifies store
    ensures first == Response(201, Registered(UserView(firstId, username, email)))
    ensures second == Response(400, Message(EmailRegistered))
    ensures store.users == old(store.users) + [User(firstId, username, email, hash(password), now)]
  {
    first := Register(store, username, email, password, hash, firstId, now);
    assert store.users[|store.users| - 1].email == email;
    second := Register(store, username, email, password, hash, secondId, now);
  }

  /** `login`: an unknown email and a wrong password get the very same 401 answer; otherwise 200
      with a token for the user's id and the user's view. The store is only read. */
  function Login(store: UserStore, email: string, password: string,
                 passwordMatches: (string, string) -> bool, issueToken: string -> string): (r: Response)
    reads store
    ensures r.status == 200 || r.status == 401
    ensures r.status == 401 ==> r.body == Message(InvalidCredentials)
    ensures r.status == 200 <==>
      FindUserByEmail(store.users, email).Some? &&
      passwordMatches(password, FindUserByEmail(store.users, email).value.hashedPassword)
    ensures r.status == 200 ==>
      var u := FindUserByEmail(store.users, email).value;
      r.body == LoggedIn(issueToken(u.userId), UserView(u.userId, u.username, u.email))
  {
    match FindUserByEmail(store.users, email)
    case None => Response(401, Message(InvalidCredentials))
    case Some(user) =>
      if !passwordMatches(password, user.hashedPassword) then
        Response(401, Message(InvalidCredentials))
      else
        Response(200, LoggedIn(issueToken(user.userId), View(user)))
  }

  /** After a successful registration, logging in with the same email and a password the hash
      accepts yields the new user (emails being unique, it is the first one found). */
  lemma LoginAfterRegister(users: seq<User>, user: User, password: string,
                           passwordMatches: (string, string) -> bool, issueToken: string -> string,
                           store: UserStore)
    requires FindUserByEmail(users, user.email).None?
    requires store.users == users + [user]
    requires passwordMatches(password, user.hashedPassword)
    ensures Login(store, user.email, password, passwordMatches, issueToken) ==
            Response(200, LoggedIn(issueToken(user.userId), View(user)))
  {
    assert FindUserByEmail(store.users, user.email) == Some(user) by {
      var r := FindUserByEmail(store.users, user.email);
      var i: nat :| IsFirst(store.users, HasEmail(user.email), i) && store.users[i] == r.value;
    }
  }
}
