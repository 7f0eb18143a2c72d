/**
 * The Joi schemas of src/utils/validate.js. A schema checks its keys in the
 * order they are declared and reports the first problem it meets (Joi's default
 * `abortEarly`). A body field of None is an absent key. Joi's email-format rule
 * is passed in as the predicate `isEmail`.
 */
module Validation {
  import opened Wrappers

  /** The first problem a schema reports, with the label (the key name unless relabelled) of the key it is about. */
  datatype Issue =
    | Required(name: string)                 // any.required
    | Empty(name: string)                    // string.empty
    | TooShort(name: string, limit: nat)     // string.min
    | InvalidEmail(name: string)             // string.email
    | Mismatch(name: string)                 // any.only, with the schemas' own message

  /**
   * The schemas' own `any.only` message, `{{#label}} does not match password`,
   * with the label wrapped in double quotes as Joi renders labels.
   */
  function MismatchMessage(name: string): string {
    "\"" + name + "\" does not match password"
  }

  /**
   * `Joi.string()` with an optional `.min(limit)` (a limit of 0 is no rule), an
   * optional `.email()` and an optional `.required()`.
   */
  function CheckString(name: string, value: Option<string>, required: bool, limit: nat, email: bool, isEmail: string -> bool): (r: Option<Issue>)
    ensures r.None? <==>
      || (value.None? && !required)
      || (value.Some? && value.value != "" && |value.value| >= limit && (email ==> isEmail(value.value)))
  {
    match value
    case None => if required then Some(Required(name)) else None
    case Some(s) =>
      if s == "" then Some(Empty(name))
      else if |s| < limit then Some(TooShort(name, limit))
      else if email && !isEmail(s) then Some(InvalidEmail(name))
      else None
  }

  /**
   * `Joi.string().required().valid(Joi.ref('password')).label('Confirm password')`:
   * an allowed value is accepted before any string rule runs.
   */
  function CheckConfirm(value: Option<string>, password: Option<string>): (r: Option<Issue>)
    ensures r.None? <==> value.Some? && value == password
  {
    match value
    case None => Some(Required(ConfirmLabel))
    case Some(s) => if value == password then None else Some(Mismatch(ConfirmLabel))
  }

  const ConfirmLabel := "Confirm password"

  /** The schemas' own `any.only` message, rendered for the confirmation key. */
  lemma MismatchText()
    ensures MismatchMessage(ConfirmLabel) == "\"Confirm password\" does not match password"
  {
    var q := "\"" + ConfirmLabel + "\"";
    assert MismatchMessage(ConfirmLabel) == q + " does not match password";
    assert q == "\"Confirm password\"";
  }

  datatype RegisterInput = RegisterInput(
    first: Option<string>, surname: Option<string>, email: Option<string>,
    address: Option<string>, password: Option<string>, confirmPassword: Option<string>)

  /** An optional key is fine absent, and present only with at least `limit` characters. */
  predicate OptionalAtLeast(value: Option<string>, limit: nat) {
    value.None? || |value.value| >= limit
  }

  /** A required key is present with at least `limit` characters. */
  predicate RequiredAtLeast(value: Option<string>, limit: nat) {
    value.Some? && |value.value| >= limit
  }

  predicate RequiredEmail(value: Option<string>, isEmail: string -> bool) {
    value.Some? && value.value != "" && isEmail(value.value)
  }

  /** What `registerValidation` accepts, stated key by key. */
  predicate RegisterAcceptable(b: RegisterInput, isEmail: string -> bool) {
    && RequiredAtLeast(b.first, 3)
    && OptionalAtLeast(b.surname, 3)
    && RequiredEmail(b.email, isEmail)
    && OptionalAtLeast(b.address, 5)
    && RequiredAtLeast(b.password, 6)
    && b.confirmPassword == b.password
  }

  /** `registerValidation.validate(body)`: the first issue, or None when the body is valid. */
  function RegisterValidation(b: RegisterInput, isEmail: string -> bool): (r: Option<Issue>)
    ensures r.None? <==> RegisterAcceptable(b, isEmail)
    ensures RequiredAtLeast(b.first, 3) && OptionalAtLeast(b.surname, 3) && RequiredEmail(b.email, isEmail)
      && OptionalAtLeast(b.address, 5) && RequiredAtLeast(b.password, 6)
      && b.confirmPassword.Some? && b.confirmPassword != b.password
      ==> r == Some(Mismatch(ConfirmLabel))
  {
    Then(CheckString("first", b.first, true, 3, false, isEmail),
    Then(CheckString("surname", b.surname, false, 3, false, isEmail),
    Then(CheckString("email", b.email, true, 0, true, isEmail),
    Then(CheckString("address", b.address, false, 5, false, isEmail),
    Then(CheckString("password", b.password, true, 6, false, isEmail),
         CheckConfirm(b.confirmPassword, b.password))))))
  }

  datatype LoginInput = LoginInput(email: Option<string>, password: Option<string>)

  /** `loginValidation.validate(body)`. */
  function LoginValidation(b: LoginInput, isEmail: string -> bool): (r: Option<Issue>)
    ensures r.None? <==> RequiredEmail(b.email, isEmail) && RequiredAtLeast(b.password, 6)
  {
    Then(CheckString("email", b.email, true, 0, true, isEmail),
         CheckString("password", b.password, true, 6, false, isEmail))
  }

  datatype ResetInput = ResetInput(password: Option<string>, confirmPassword: Option<string>)

  /** `resetPasswordValidation.validate(body)`. */
  function ResetPasswordValidation(b: ResetInput): (r: Option<Issue>)
    ensures r.None? <==> RequiredAtLeast(b.password, 6) && b.confirmPassword == b.password
    ensures RequiredAtLeast(b.password, 6) && b.confirmPassword.Some? && b.confirmPassword != b.password
      ==> r == Some(Mismatch(ConfirmLabel))
  {
    Then(CheckString("password", b.password, true, 6, false, _ => true),
         CheckConfirm(b.confirmPassword, b.password))
  }

  /** Abort early: a key's issue, if it has one, else what the later keys report. */
  function Then(issue: Option<Issue>, later: Option<Issue>): (r: Option<Issue>)
    ensures r.None? <==> issue.None? && later.None?
  {
    if issue.Some? then issue else later
  }
}
