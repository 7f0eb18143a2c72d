/**
 * `register` of src/controllers/authController.js: reject a taken email (409),
 * then a password that differs from its confirmation (400), then store the user
 * with the password's digest. `login` and `getProfile` are `Accounts.UserDb.Login`
 * and `Accounts.UserDb.GetProfile`.
 */
module AuthController {
  import opened Wrappers
  import opened Http
  import opened Store
  import opened Accounts

  /** The schema's `name: { first, surname }`. */
  datatype Name = Name(first: Option<string>, surname: Option<string>)

  /** The fields of a register request that the handler reads; None is an absent field. */
  datatype RegisterBody = RegisterBody(
    first: Option<string>, surname: Option<string>, email: Option<string>, password: Option<string>,
    confirmPassword: Option<string>)

  /**
   * The schema's required paths (src/models/userModel.js): name.first, email and
   * password must be present and non-empty, or `User.create` throws.
   */
  predicate SchemaAccepts(user: User<Name>) {
    TruthyString(user.name.first) && user.email != "" && user.password != ""
  }

  /**
   * `register`, with `hash` standing for `bcrypt.hash(·, 10)`. The lookup runs
   * with whatever email the body holds, so a body without one is refused as
   * taken whenever any user exists. An absent password makes `hash` throw and an
   * absent email fails the schema; both pass the error on.
   */
  method Register(db: UserDb<Name>, body: RegisterBody, hash: string -> string) returns (reply: Reply<Registered>)
    requires db.Valid()
    modifies db
    ensures db.Valid()
    ensures AnyMatch(old(db.users), body.email) ==>
      reply == Message(409, "Email already registered") && db.users == old(db.users)
    ensures !AnyMatch(old(db.users), body.email) ==>
      if body.confirmPassword != body.password then
        reply == Message(400, "Password do not match") && db.users == old(db.users)
      else if body.email.None? || body.password.None?
        || !SchemaAccepts(User(Name(body.first, body.surname), body.email.value, hash(body.password.value))) then
        reply == Forwarded && db.users == old(db.users)
      else
        && reply.Json? && reply.body.id !in old(db.users)
        && reply == Json(201, Registered("Registration successful", reply.body.id, body.email.value))
        && db.users == old(db.users)[reply.body.id := User(Name(body.first, body.surname), body.email.value, hash(body.password.value))]
  {
    var existing := db.FindByEmail(body.email);
    if existing.Some? {
      return Message(409, "Email already registered");
    }
    if body.password != body.confirmPassword {
      return Message(400, "Password do not match");
    }
    if body.password.None? || body.email.None? {
      // bcrypt refuses an undefined password; the schema requires an email
      return Forwarded;
    }
    var user := User(Name(body.first, body.surname), body.email.value, hash(body.password.value));
    if !SchemaAccepts(user) {
      // the schema validator throws and the handler passes the error on
      return Forwarded;
    }
    var id := db.Create(user);
    reply := Json(201, Registered("Registration successful", id, user.email));
  }
}
