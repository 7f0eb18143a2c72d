/**
 * `register` of auth.controller.js: reject a taken email (409), else store the
 * user with the password's digest. There is no confirmation check, and the
 * schema file it imports (models/user.model) is not part of this model, so no
 * schema validation is assumed beyond a required email, which, like every
 * required String path, refuses a missing value and "". `login` and
 * `getProfile` are `Accounts.UserDb.Login` and `Accounts.UserDb.GetProfile`.
 */
module LegacyAuthController {
  import opened Wrappers
  import opened Http
  import opened Store
  import opened Accounts

  /** The fields of a register request that the handler reads; None is an absent field. `name` is stored as sent. */
  datatype RegisterBody = RegisterBody(email: Option<string>, password: Option<string>, name: Option<string>)

  /**
   * `register`, with `hash` standing for `bcrypt.hash(·, 10)`. The lookup runs
   * with whatever email the body holds, so a body without one is refused as
   * taken whenever any user exists. An absent password makes `hash` throw; an
   * absent or empty email is taken to fail the user schema, as it does in
   * src/models/userModel.js. Both pass the error on.
   */
  method Register(db: UserDb<Option<string>>, body: RegisterBody, hash: string -> string) returns (reply: Reply<Registered>)
    requires db.Valid()
    modifies db
    ensures db.Valid()
    ensures AnyMatch(old(db.users), body.email) ==>
      reply == Message(409, "Email already registered") && db.users == old(db.users)
    ensures !AnyMatch(old(db.users), body.email) && (!TruthyString(body.email) || body.password.None?) ==>
      reply == Forwarded && db.users == old(db.users)
    ensures !AnyMatch(old(db.users), body.email) && TruthyString(body.email) && body.password.Some? ==>
      && reply.Json? && reply.body.id !in old(db.users)
      && reply == Json(201, Registered("Registration successful", reply.body.id, body.email.value))
      && db.users == old(db.users)[reply.body.id := User(body.name, body.email.value, hash(body.password.value))]
  {
    var existing := db.FindByEmail(body.email);
    if existing.Some? {
      return Message(409, "Email already registered");
    }
    if body.password.None? || !TruthyString(body.email) {
      // bcrypt refuses an undefined password; the schema requires a non-empty email
      return Forwarded;
    }
    var id := db.Create(User(body.name, body.email.value, hash(body.password.value)));
    reply := Json(201, Registered("Registration successful", id, body.email.value));
  }
}
