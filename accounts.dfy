/**
 * The User collection and the read-only handlers `login` and `getProfile`, which
 * the two authentication controllers write alike, up to where the token secret
 * comes from, a log line and the bcrypt package (bcrypt against bcryptjs). The
 * secret is inside `sign` and the package inside `compare`. A user's name has a
 * different shape in the two controllers, so it is a type parameter `N`.
 * Password comparison and token signing are bcrypt and jsonwebtoken calls; they
 * are passed in as functions.
 */
module Accounts {
  import opened Wrappers
  import opened Http
  import opened Store

  /** A stored user. `password` holds what register stored: the digest, never the plaintext. */
  datatype User<N> = User(name: N, email: string, password: string)

  /** The claims a login token carries. */
  datatype Claims = Claims(id: ObjectId, email: string)

  /** The body of a successful login: the token and the user without the password. */
  datatype Session<N> = Session(token: string, id: ObjectId, email: string, name: N)

  /** A user as `getProfile` sends it: the record with the password left out. */
  datatype Profile<N> = Profile(id: ObjectId, name: N, email: string)

  /** The body of a successful registration. */
  datatype Registered = Registered(message: string, id: ObjectId, email: string)

  const InvalidCredentials := "Invalid email or password"

  /** No two users share an email. The schema does not enforce it; register does. */
  ghost predicate UniqueEmails<N>(users: map<ObjectId, User<N>>) {
    forall a, b :: a in users && b in users && users[a].email == users[b].email ==> a == b
  }

  /**
   * The filter `{ email }` of `User.findOne`. Mongoose drops a key whose value is
   * undefined from a filter, so an absent email leaves `{}`, which every user matches.
   */
  predicate MatchesEmail<N>(user: User<N>, email: Option<string>) {
    email.None? || user.email == email.value
  }

  /** Some stored user matches the filter `{ email }`. */
  ghost predicate AnyMatch<N>(users: map<ObjectId, User<N>>, email: Option<string>) {
    exists id :: id in users && MatchesEmail(users[id], email)
  }

  /** The filter of a request without an email matches a user exactly when there is one. */
  lemma AbsentEmailMatchesAnyUser<N>(users: map<ObjectId, User<N>>)
    ensures AnyMatch(users, None) <==> users != map[]
  {
    if users != map[] {
      var id :| id in users;
      assert MatchesEmail(users[id], None);
    }
  }

  class UserDb<N> {
    var users: map<ObjectId, User<N>>
    var nextId: ObjectId

    /** Ids lie below the next id, and no two users share an email (both register handlers keep this). */
    ghost predicate Valid()
      reads this
    {
      Bounded(users, nextId) && UniqueEmails(users)
    }

    constructor ()
      ensures Valid() && users == map[]
    {
      users := map[];
      nextId := 0;
    }

    /** `User.findOne({ email })`: the first user in id order that the filter matches. */
    function FindByEmail(email: Option<string>): (r: Option<Entry<User<N>>>)
      reads this
      requires Valid()
      ensures r.None? <==> !AnyMatch(users, email)
      ensures r.Some? ==> r.value.id in users && users[r.value.id] == r.value.doc && MatchesEmail(r.value.doc, email)
      ensures r.Some? ==> forall id :: id in users && MatchesEmail(users[id], email) ==> r.value.id <= id
    {
      FindOne(users, (u: User<N>) => MatchesEmail(u, email), nextId)
    }

    /** `User.create(user)` once the schema has accepted it and no user has its email. */
    method Create(user: User<N>) returns (id: ObjectId)
      requires Valid() && !AnyMatch(users, Some(user.email))
      modifies this
      ensures Valid() && id !in old(users) && users == old(users)[id := user]
    {
      id := nextId;
      users := users[id := user];
      nextId := nextId + 1;
    }

    /**
     * `login`: an unmatched email and a wrong password get the same 401 reply;
     * an absent password makes bcrypt throw once a user is found; on success the
     * token's claims are the found user's id and email. An absent email matches
     * every user, so the password is then checked against the first user's digest.
     */
    function Login(email: Option<string>, password: Option<string>, compare: (string, string) -> bool, sign: Claims -> string): (r: Reply<Session<N>>)
      reads this
      requires Valid()
      ensures r.Json? || r == Forwarded || r == Message(401, InvalidCredentials)
      ensures !AnyMatch(users, email) ==> r == Message(401, InvalidCredentials)
      ensures r == Forwarded <==> AnyMatch(users, email) && password.None?
      ensures r.Json? ==> r.status == 200 && password.Some? && exists id ::
        && id in users && MatchesEmail(users[id], email) && compare(password.value, users[id].password)
        && r.body == Session(sign(Claims(id, users[id].email)), id, users[id].email, users[id].name)
      ensures email.Some? && password.Some? ==> forall id :: id in users && users[id].email == email.value ==>
        (r.Json? <==> compare(password.value, users[id].password))
      ensures email.None? && password.Some? ==> forall id :: id in users && (forall k :: k in users ==> id <= k) ==>
        (r.Json? <==> compare(password.value, users[id].password)) && (r.Json? ==> r.body.id == id)
    {
      match FindByEmail(email)
      case None => Message(401, InvalidCredentials)
      case Some(Entry(id, user)) =>
        if password.None? then Forwarded
        else if !compare(password.value, user.password) then Message(401, InvalidCredentials)
        else Json(200, Session(sign(Claims(id, user.email)), id, user.email, user.name))
    }

    /**
     * `login` as evidently intended: a request without an email is refused like
     * an unknown email, so a session is only ever opened for the email asked for.
     */
    function IntendedLogin(email: Option<string>, password: Option<string>, compare: (string, string) -> bool, sign: Claims -> string): (r: Reply<Session<N>>)
      reads this
      requires Valid()
      ensures email.None? ==> r == Message(401, InvalidCredentials)
      ensures email.Some? ==> r == Login(email, password, compare, sign)
      ensures r.Json? ==> email.Some? && r.body.email == email.value && r.body.id in users && users[r.body.id].email == email.value
    {
      if email.None? then Message(401, InvalidCredentials) else Login(email, password, compare, sign)
    }

    /** `getProfile` of the user with id `id`: 404 when there is none, else the user without the password. */
    function GetProfile(id: ObjectId): (r: Reply<Profile<N>>)
      reads this
      ensures r.Json? <==> id in users
      ensures !r.Json? ==> r == Message(404, "User not found")
      ensures r.Json? ==> r.status == 200 && r.body.id == id && r.body.name == users[id].name && r.body.email == users[id].email
    {
      if id in users then Json(200, Profile(id, users[id].name, users[id].email))
      else Message(404, "User not found")
    }
  }

  /** Two user tables that differ only in stored passwords answer `getProfile` alike. */
  lemma ProfileIgnoresPassword<N>(a: UserDb<N>, b: UserDb<N>, id: ObjectId)
    requires a.users.Keys == b.users.Keys
    requires forall k :: k in a.users ==> a.users[k].name == b.users[k].name && a.users[k].email == b.users[k].email
    ensures a.GetProfile(id) == b.GetProfile(id)
  {
  }

  /**
   * As written, a login request with a password but no email reaches a user:
   * with one registered user and a password that matches that user's digest,
   * the reply is 200 with a session for that user.
   */
  method LoginWithoutEmailScenario() returns (id: ObjectId, r: Reply<Session<string>>)
    ensures r.Json? && r.status == 200 && r.body.id == id
  {
    var db := new UserDb<string>();
    id := db.Create(User("Alice", "alice@example.com", "digest"));
    r := db.Login(None, Some("secret"), (password: string, digest: string) => digest == "digest", (c: Claims) => "token");
  }
}
