/** The user table of routes/api/users.js: registration guarded by e-mail
    uniqueness, the login decision chain ending in a signed token, and the
    current-user projection. Password hashing (bcrypt), the avatar URL
    (gravatar) and token signing (jsonwebtoken) are foreign libraries; they are
    passed in as functions the model does not interpret. */
module Users {
  import opened Js
  import opened Lists

  type UserId = string

  /** A stored user: the password field holds the hash, never the plaintext. */
  datatype User = User(id: UserId, name: string, email: string, password: string, avatar: string)

  function UserIdOf(u: User): UserId { u.id }
  function EmailOf(u: User): string { u.email }

  /** The options the avatar lookup is called with: size, rating, fallback image. */
  datatype AvatarOptions = AvatarOptions(size: string, rating: string, fallback: string)

  const AvatarDefaults := AvatarOptions("200", "pg", "mm")

  /** The claims a login token carries. */
  datatype Payload = Payload(id: UserId, name: string, avatar: string)

  /** Lifetime of a login token, in seconds. */
  const TokenLifetime := 3600

  datatype RegisterOutcome = EmailExists | Registered(user: User)

  datatype LoginOutcome = UserNotFound | IncorrectPassword | LoggedIn(token: string)

  /** What the current-user route returns. */
  datatype CurrentUser = CurrentUser(id: UserId, name: string, email: string, avatar: string)

  /** `User.findOne({ email })`: the position of the first user with that e-mail, or -1. */
  function EmailIndex(users: seq<User>, email: string): (r: int)
    ensures -1 <= r < |users|
    ensures r == -1 <==> email !in Map(users, EmailOf)
    ensures 0 <= r ==> users[r].email == email
  {
    IndexOf(Map(users, EmailOf), email)
  }

  /** The login route: look the user up by e-mail, compare the password with
      the stored hash, and on a match sign `{id, name, avatar}` for an hour. */
  function Login(users: seq<User>, email: string, password: string,
                 compare: (string, string) -> bool,
                 sign: (Payload, int) -> string): (r: LoginOutcome)
    ensures r == UserNotFound <==> forall u :: u in users ==> u.email != email
    ensures r.IncorrectPassword? || r.LoggedIn? ==>
      exists i :: 0 <= i < |users| && users[i].email == email && (r.LoggedIn? <==> compare(password, users[i].password))
  {
    var i := EmailIndex(users, email);
    if i < 0 then
      assert forall u :: u in users ==> u.email != email by {
        forall u | u in users ensures u.email != email {
          var j :| 0 <= j < |users| && users[j] == u;
          assert Map(users, EmailOf)[j] == u.email;
        }
      }
      UserNotFound
    else
      var user := users[i];
      if compare(password, user.password) then
        LoggedIn("Bearer " + sign(Payload(user.id, user.name, user.avatar), TokenLifetime))
      else IncorrectPassword
  }

  /** With e-mails unique, login is decided by the one user holding that
      e-mail: a match yields exactly the bearer token over that user's
      `{id, name, avatar}`, anything else "Incorrect password". */
  lemma LoginDecision(users: seq<User>, u: User, password: string,
                      compare: (string, string) -> bool, sign: (Payload, int) -> string)
    requires UniqueKeys(users, EmailOf)
    requires u in users
    ensures Login(users, u.email, password, compare, sign) ==
      if compare(password, u.password)
      then LoggedIn("Bearer " + sign(Payload(u.id, u.name, u.avatar), TokenLifetime))
      else IncorrectPassword
  {
    var j :| 0 <= j < |users| && users[j] == u;
    var i := EmailIndex(users, u.email);
    assert Map(users, EmailOf)[j] == u.email;
    assert 0 <= i;
    assert EmailOf(users[i]) == EmailOf(users[j]);
    assert i == j;
  }

  /** The record the register route stores: the avatar is looked up from the
      e-mail alone, and the password is replaced by its salted hash. */
  function NewUser(id: UserId, name: string, email: string, password: string, salt: string,
                   hash: (string, string) -> string,
                   gravatar: (string, AvatarOptions) -> string): User
  {
    User(id, name, email, hash(password, salt), gravatar(email, AvatarDefaults))
  }

  /** A user registered with a fresh e-mail can log in with the password they
      chose, provided the comparison accepts a password against its own hash. */
  lemma LoginAfterRegister(users: seq<User>, id: UserId, name: string, email: string,
                             password: string, salt: string,
                             hash: (string, string) -> string,
                             gravatar: (string, AvatarOptions) -> string,
                             compare: (string, string) -> bool,
                             sign: (Payload, int) -> string)
    requires email !in Map(users, EmailOf)
    requires compare(password, hash(password, salt))
    ensures Login(users + [NewUser(id, name, email, password, salt, hash, gravatar)], email, password, compare, sign)
      == LoggedIn("Bearer " + sign(Payload(id, name, gravatar(email, AvatarDefaults)), TokenLifetime))
  {
    var u := NewUser(id, name, email, password, salt, hash, gravatar);
    var all := users + [u];
    assert Map(all, EmailOf) == Map(users, EmailOf) + [email];
    assert IndexOf(Map(all, EmailOf), email) == |users| by {
      var ks := Map(all, EmailOf);
      assert forall t :: 0 <= t < |users| ==> ks[t] == Map(users, EmailOf)[t];
      assert ks[|users|] == email;
    }
  }

  /** The current-user route: the authenticated user's id, name, e-mail and
      avatar, and nothing of the password hash. */
  function Current(u: User): (r: CurrentUser)
    ensures r.id == u.id && r.name == u.name && r.email == u.email && r.avatar == u.avatar
  {
    CurrentUser(u.id, u.name, u.email, u.avatar)
  }

  /** The users collection. */
  class UserTable {
    var users: seq<User>

    /** E-mails are unique (the register guard) and ids are unique (ObjectIds). */
    ghost predicate Valid()
      reads this
    {
      UniqueKeys(users, EmailOf) && UniqueKeys(users, UserIdOf)
    }

    constructor ()
      ensures Valid() && users == []
    {
      users := [];
    }

    /** The register route. `salt` stands for `bcrypt.genSalt(10)` and `newId`
        for the ObjectId the store assigns, which is never one already in use. */
    method Register(name: string, email: string, password: string, salt: string, newId: UserId,
                    hash: (string, string) -> string,
                    gravatar: (string, AvatarOptions) -> string) returns (r: RegisterOutcome)
      requires Valid()
      requires newId !in Map(users, UserIdOf)
      modifies this
      ensures Valid()
      ensures email in Map(old(users), EmailOf) ==> r == EmailExists && users == old(users)
      ensures email !in Map(old(users), EmailOf) ==>
        && users == old(users) + [NewUser(newId, name, email, password, salt, hash, gravatar)]
        && r == Registered(NewUser(newId, name, email, password, salt, hash, gravatar))
    {
      if EmailIndex(users, email) >= 0 {
        return EmailExists;
      }
      var avatar := gravatar(email, AvatarDefaults);
      var newUser := User(newId, name, email, password, avatar);
      newUser := newUser.(password := hash(newUser.password, salt));
      AppendKeepsUnique(users, newUser, EmailOf);
      AppendKeepsUnique(users, newUser, UserIdOf);
      users := users + [newUser];
      r := Registered(newUser);
    }

    /** `User.findOneAndDelete({ _id: id })`, the second half of the profile
        delete route: removes the user with that id, if any. */
    method DeleteById(id: UserId)
      requires Valid()
      modifies this
      ensures Valid()
      ensures users == RemoveFirst(old(users), UserIdOf, id)
      ensures id !in Map(users, UserIdOf)
      ensures id !in Map(old(users), UserIdOf) ==> users == old(users)
    {
      RemoveFirstUnique(users, UserIdOf, id);
      RemoveFirstAt(users, UserIdOf, id);
      RemoveFirstUniqueEmails(users, id);
      users := RemoveFirst(users, UserIdOf, id);
    }
  }

  /** Removing a user keeps e-mails unique. */
  lemma RemoveFirstUniqueEmails(users: seq<User>, id: UserId)
    requires UniqueKeys(users, EmailOf)
    ensures UniqueKeys(RemoveFirst(users, UserIdOf, id), EmailOf)
  {
    RemoveFirstAt(users, UserIdOf, id);
    var k := IndexOf(Map(users, UserIdOf), id);
    if k != -1 {
      CutKeepsUnique(users, EmailOf, k);
    }
  }
}
