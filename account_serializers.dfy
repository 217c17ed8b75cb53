/** The registration serializer and the account serializer of the accounts
    app: the field checks a sign-up goes through (the user model's own
    rules for username, e-mail and names, and the password fields the
    serializer declares), the password confirmation, the user record
    `create` builds, and what an account looks like once serialized. */
module AccountSerializers {

  import opened Common
  import opened Text
  import opened Fields
  import opened SessionNames

  const MaxUsernameLength: nat := 150
  const MaxEmailLength: nat := 254
  const MaxNameLength: nat := 150
  const MinPasswordLength: nat := 6

  const UsernameInvalid: Message :=
    Says("Enter a valid username. This value may contain only letters, numbers, and @/./+/-/_ characters.")
  const UsernameTaken: Message := Says("A user with that username already exists.")
  const EmailInvalid: Message := Says("Enter a valid email address.")
  const PasswordsDiffer: Message := Says("Passwords do not match.")

  // ---------------------------------------------------------------- fields

  /** The characters the user model's username validator accepts (its
      word characters taken as ASCII letters, digits and '_'). */
  predicate UsernameChar(c: char) {
    'a' <= c <= 'z' || 'A' <= c <= 'Z' || '0' <= c <= '9' || c == '_' || c == '.' || c == '@' || c == '+' || c == '-'
  }

  /** The username is made of allowed characters only. */
  predicate UsernameText(text: string) {
    forall i :: 0 <= i < |text| ==> UsernameChar(text[i])
  }

  /** The messages of the model's validators on the username, ahead of its
      length bound: the character set, then uniqueness among `users`. */
  function UsernameErrors(users: set<string>, text: string): (errors: seq<Message>)
    ensures errors == [] <==> UsernameText(text) && text !in users
    ensures !UsernameText(text) ==> UsernameInvalid in errors
    ensures text in users ==> UsernameTaken in errors
  {
    (if UsernameText(text) then [] else [UsernameInvalid]) +
    (if text in users then [UsernameTaken] else [])
  }

  /** The username validators as the field runs them. */
  function UsernameValidators(users: set<string>): (v: string -> seq<Message>)
    ensures forall text :: v(text) == UsernameErrors(users, text)
  {
    text => UsernameErrors(users, text)
  }

  /** The e-mail field's address check, behind its length bound;
      `isAddress` is Django's e-mail validator. */
  function EmailValidators(isAddress: string -> bool): (v: string -> seq<Message>)
    ensures forall text :: v(text) == [] <==> isAddress(text)
  {
    text => if isAddress(text) then [] else [EmailInvalid]
  }

  const UsernameRules: CharRules := CharRules(true, false, None, Some(MaxUsernameLength))
  const EmailRules: CharRules := CharRules(false, true, None, Some(MaxEmailLength))
  const PasswordRules: CharRules := CharRules(true, false, Some(MinPasswordLength), None)
  const ConfirmRules: CharRules := CharRules(true, false, None, None)
  const NameRules: CharRules := CharRules(false, true, None, Some(MaxNameLength))

  /** A sign-up request: every field may be left out or sent as null. */
  datatype Registration = Registration(
    username: Input<string>, email: Input<string>, password: Input<string>,
    confirmPassword: Input<string>, firstName: Input<string>, lastName: Input<string>)

  /** The outcome of each of the six fields. */
  datatype FieldChecks = FieldChecks(
    username: Checked<string>, email: Checked<string>, password: Checked<string>,
    confirmPassword: Checked<string>, firstName: Checked<string>, lastName: Checked<string>)

  /** Every field of the request checked on its own. */
  function CheckFields(r: Registration, users: set<string>, isAddress: string -> bool): FieldChecks {
    FieldChecks(
      CharField(r.username, UsernameRules, UsernameValidators(users), NoValidators),
      CharField(r.email, EmailRules, NoValidators, EmailValidators(isAddress)),
      CharField(r.password, PasswordRules, NoValidators, NoValidators),
      CharField(r.confirmPassword, ConfirmRules, NoValidators, NoValidators),
      CharField(r.firstName, NameRules, NoValidators, NoValidators),
      CharField(r.lastName, NameRules, NoValidators, NoValidators))
  }

  /** The request fields by the names the errors use. */
  datatype FieldName = Username | Email | Password | ConfirmPassword | FirstName | LastName

  /** The outcome of the named field. */
  function Outcome(c: FieldChecks, name: FieldName): Checked<string> {
    match name
    case Username => c.username
    case Email => c.email
    case Password => c.password
    case ConfirmPassword => c.confirmPassword
    case FirstName => c.firstName
    case LastName => c.lastName
  }

  predicate AnyInvalid(c: FieldChecks) {
    c.username.Invalid? || c.email.Invalid? || c.password.Invalid? ||
    c.confirmPassword.Invalid? || c.firstName.Invalid? || c.lastName.Invalid?
  }

  /** The field errors: the messages of each failing field under its name,
      and no entry for a field that passed. */
  function FieldErrors(c: FieldChecks): (errors: map<FieldName, seq<Message>>)
    ensures forall name :: name in errors <==> Outcome(c, name).Invalid?
    ensures forall name :: name in errors ==> errors[name] == Outcome(c, name).messages
    ensures errors == map[] <==> !AnyInvalid(c)
  {
    var errors := map name: FieldName | Outcome(c, name).Invalid? :: Outcome(c, name).messages;
    assert c.username.Invalid? ==> Username in errors;
    assert c.email.Invalid? ==> Email in errors;
    assert c.password.Invalid? ==> Password in errors;
    assert c.confirmPassword.Invalid? ==> ConfirmPassword in errors;
    assert c.firstName.Invalid? ==> FirstName in errors;
    assert c.lastName.Invalid? ==> LastName in errors;
    assert !AnyInvalid(c) ==> forall name :: name !in errors;
    errors
  }

  /** The user row `create` asks for; there is no confirmation field. */
  datatype NewUser = NewUser(username: string, email: string, password: string,
                             firstName: string, lastName: string)

  /** The serializer's verdict: the user to create, or the messages by field name. */
  datatype RegistrationResult = Accepted(user: NewUser) | Rejected(errors: map<FieldName, seq<Message>>)

  /** A field's validated text, "" when it was left out (`.get(name, '')`). */
  function OrEmpty(c: Checked<string>): string {
    if c.Valid? then c.value else ""
  }

  /** The serializer once the fields are checked: any failing field makes
      the request fail with every field's messages; only when they all
      pass does `validate` compare the password with its confirmation, and
      only then does `create` build the user from the validated values,
      the optional fields defaulting to "". */
  function Decide(c: FieldChecks): (result: RegistrationResult)
    ensures AnyInvalid(c) ==> result == Rejected(FieldErrors(c))
    ensures result.Rejected? && !AnyInvalid(c) ==> result.errors == map[Password := [PasswordsDiffer]]
    ensures result.Accepted? <==>
      !AnyInvalid(c) && c.username.Valid? && c.password.Valid? && c.password == c.confirmPassword
    ensures result.Accepted? ==>
      result.user == NewUser(c.username.value, OrEmpty(c.email), c.password.value, OrEmpty(c.firstName), OrEmpty(c.lastName))
  {
    if AnyInvalid(c) then Rejected(FieldErrors(c))
    else if !(c.username.Valid? && c.password.Valid? && c.password == c.confirmPassword) then
      Rejected(map[Password := [PasswordsDiffer]])
    else Accepted(NewUser(c.username.value, OrEmpty(c.email), c.password.value, OrEmpty(c.firstName), OrEmpty(c.lastName)))
  }

  /** `is_valid` and then `create` on a sign-up request. */
  function Register(r: Registration, users: set<string>, isAddress: string -> bool): RegistrationResult {
    Decide(CheckFields(r, users, isAddress))
  }

  // ---------------------------------------------------------------- reference

  /** An optional text field passes: left out, blank, or within `max`
      characters once stripped and free of NUL. */
  predicate OptionalTextOk(input: Input<string>, max: nat) {
    input.Absent? ||
    (input.Given? && (IsBlank(input.value) || (|Strip(input.value)| <= max && '\0' !in Strip(input.value))))
  }

  /** A required text field passes: sent, not blank, NUL-free once stripped. */
  predicate RequiredTextOk(input: Input<string>) {
    input.Given? && !IsBlank(input.value) && '\0' !in Strip(input.value)
  }

  /** A fresh username of at most 150 allowed characters once stripped. */
  predicate UsernameOk(input: Input<string>, users: set<string>) {
    RequiredTextOk(input) && |Strip(input.value)| <= MaxUsernameLength &&
    UsernameText(Strip(input.value)) && Strip(input.value) !in users
  }

  /** No e-mail, a blank one, or a valid address of at most 254 characters. */
  predicate EmailOk(input: Input<string>, isAddress: string -> bool) {
    OptionalTextOk(input, MaxEmailLength) && (input.Given? && !IsBlank(input.value) ==> isAddress(Strip(input.value)))
  }

  /** A password of at least 6 characters once stripped. */
  predicate PasswordOk(input: Input<string>) {
    RequiredTextOk(input) && |Strip(input.value)| >= MinPasswordLength
  }

  /** What each field of a sign-up must satisfy on its own; the names are
      optional and at most 150 characters. */
  predicate FieldsOk(r: Registration, users: set<string>, isAddress: string -> bool) {
    UsernameOk(r.username, users) && EmailOk(r.email, isAddress) && PasswordOk(r.password) &&
    RequiredTextOk(r.confirmPassword) &&
    OptionalTextOk(r.firstName, MaxNameLength) && OptionalTextOk(r.lastName, MaxNameLength)
  }

  /** What a sign-up must satisfy, stated directly: every field passes on
      its own and the stripped password equals the stripped confirmation. */
  predicate Acceptable(r: Registration, users: set<string>, isAddress: string -> bool) {
    FieldsOk(r, users, isAddress) && Strip(r.confirmPassword.value) == Strip(r.password.value)
  }

  lemma OptionalField(input: Input<string>, max: nat, after: string -> seq<Message>)
    ensures !CharField(input, CharRules(false, true, None, Some(max)), NoValidators, after).Invalid? <==>
      OptionalTextOk(input, max) && (input.Given? && !IsBlank(input.value) ==> after(Strip(input.value)) == [])
  {
  }

  lemma RequiredField(input: Input<string>, min: Option<nat>, before: string -> seq<Message>, max: Option<nat>)
    ensures !CharField(input, CharRules(true, false, min, max), before, NoValidators).Invalid? <==>
      RequiredTextOk(input) && WithinBounds(Strip(input.value), CharRules(true, false, min, max)) &&
      before(Strip(input.value)) == []
  {
  }

  lemma UsernameField(input: Input<string>, users: set<string>)
    ensures !CharField(input, UsernameRules, UsernameValidators(users), NoValidators).Invalid? <==> UsernameOk(input, users)
  {
    RequiredField(input, None, UsernameValidators(users), Some(MaxUsernameLength));
    if input.Given? {
      var text := Strip(input.value);
      assert UsernameValidators(users)(text) == UsernameErrors(users, text);
    }
  }

  lemma PasswordField(input: Input<string>)
    ensures !CharField(input, PasswordRules, NoValidators, NoValidators).Invalid? <==> PasswordOk(input)
  {
    RequiredField(input, Some(MinPasswordLength), NoValidators, None);
  }

  /** No field fails exactly when each satisfies its own rules. */
  lemma FieldsPass(r: Registration, users: set<string>, isAddress: string -> bool)
    ensures !AnyInvalid(CheckFields(r, users, isAddress)) <==> FieldsOk(r, users, isAddress)
  {
    var c := CheckFields(r, users, isAddress);
    assert !c.username.Invalid? <==> UsernameOk(r.username, users) by {
      UsernameField(r.username, users);
    }
    assert !c.email.Invalid? <==> EmailOk(r.email, isAddress) by {
      OptionalField(r.email, MaxEmailLength, EmailValidators(isAddress));
    }
    assert !c.password.Invalid? <==> PasswordOk(r.password) by {
      PasswordField(r.password);
    }
    assert !c.confirmPassword.Invalid? <==> RequiredTextOk(r.confirmPassword) by {
      RequiredField(r.confirmPassword, None, NoValidators, None);
    }
    assert !c.firstName.Invalid? <==> OptionalTextOk(r.firstName, MaxNameLength) by {
      OptionalField(r.firstName, MaxNameLength, NoValidators);
    }
    assert !c.lastName.Invalid? <==> OptionalTextOk(r.lastName, MaxNameLength) by {
      OptionalField(r.lastName, MaxNameLength, NoValidators);
    }
    assert FieldsOk(r, users, isAddress) ==
      (UsernameOk(r.username, users) && EmailOk(r.email, isAddress) && PasswordOk(r.password) &&
       RequiredTextOk(r.confirmPassword) &&
       OptionalTextOk(r.firstName, MaxNameLength) && OptionalTextOk(r.lastName, MaxNameLength));
  }

  /** A sign-up is accepted exactly when it is `Acceptable`, and the user
      created holds the stripped username and password. */
  lemma RegisterAccepts(r: Registration, users: set<string>, isAddress: string -> bool)
    ensures Register(r, users, isAddress).Accepted? <==> Acceptable(r, users, isAddress)
    ensures Register(r, users, isAddress).Accepted? ==>
      Register(r, users, isAddress).user.username == Strip(r.username.value) &&
      Register(r, users, isAddress).user.password == Strip(r.password.value)
  {
    var c := CheckFields(r, users, isAddress);
    assert Register(r, users, isAddress) == Decide(c);
    assert !AnyInvalid(c) <==> FieldsOk(r, users, isAddress) by {
      FieldsPass(r, users, isAddress);
    }
    if !AnyInvalid(c) {
      assert c.username.Valid? && c.username.value == Strip(r.username.value) by {
        RequiredPasses(r.username, UsernameRules, UsernameValidators(users), NoValidators);
      }
      assert c.password.Valid? && c.password.value == Strip(r.password.value) by {
        RequiredPasses(r.password, PasswordRules, NoValidators, NoValidators);
      }
      assert c.confirmPassword.Valid? && c.confirmPassword.value == Strip(r.confirmPassword.value) by {
        RequiredPasses(r.confirmPassword, ConfirmRules, NoValidators, NoValidators);
      }
    }
  }

  /** A required field that does not fail holds its stripped text. */
  lemma RequiredPasses(input: Input<string>, rules: CharRules,
                       before: string -> seq<Message>, after: string -> seq<Message>)
    requires rules.required && !rules.allowBlank
    ensures !CharField(input, rules, before, after).Invalid? ==>
      CharField(input, rules, before, after).Valid? && CharField(input, rules, before, after).value == Strip(input.value)
  {
  }

  /** A failing field makes the request fail with that field's messages. */
  lemma FieldFailureReported(c: FieldChecks, name: FieldName)
    requires Outcome(c, name).Invalid?
    ensures Decide(c).Rejected? && name in Decide(c).errors
    ensures Decide(c).errors[name] == Outcome(c, name).messages
  {
  }

  /** The password field measures the stripped text: padding does not
      help a short password. */
  lemma ShortPasswordField(password: Input<string>)
    requires password.Given? && !IsBlank(password.value)
    requires |Strip(password.value)| < MinPasswordLength
    ensures CharField(password, PasswordRules, NoValidators, NoValidators).Invalid?
    ensures TooShort(MinPasswordLength) in CharField(password, PasswordRules, NoValidators, NoValidators).messages
  {
    var text := Strip(password.value);
    assert BoundsErrors(text, PasswordRules)[0] == TooShort(MinPasswordLength);
  }

  /** So a sign-up whose stripped password is shorter than 6 characters is
      refused, with the minimum-length message under "password". */
  lemma PasswordLengthAfterStrip(r: Registration, users: set<string>, isAddress: string -> bool)
    requires r.password.Given? && !IsBlank(r.password.value)
    requires |Strip(r.password.value)| < MinPasswordLength
    ensures Register(r, users, isAddress).Rejected?
    ensures Password in Register(r, users, isAddress).errors
    ensures TooShort(MinPasswordLength) in Register(r, users, isAddress).errors[Password]
  {
    var c := CheckFields(r, users, isAddress);
    ShortPasswordField(r.password);
    assert Outcome(c, Password) == CharField(r.password, PasswordRules, NoValidators, NoValidators);
    FieldFailureReported(c, Password);
  }

  /** The username field refuses a name already taken, with the
      uniqueness message. */
  lemma TakenUsernameField(username: Input<string>, users: set<string>)
    requires username.Given? && !IsBlank(username.value) && Strip(username.value) in users
    ensures CharField(username, UsernameRules, UsernameValidators(users), NoValidators).Invalid?
    ensures UsernameTaken in CharField(username, UsernameRules, UsernameValidators(users), NoValidators).messages
  {
    var v := UsernameValidators(users);
    var text := Strip(username.value);
    assert v(text) == UsernameErrors(users, text);
    assert UsernameTaken in v(text);
  }

  /** So a sign-up under a username already taken is refused, with the
      uniqueness message under "username". */
  lemma TakenUsernameRefused(r: Registration, users: set<string>, isAddress: string -> bool)
    requires r.username.Given? && !IsBlank(r.username.value) && Strip(r.username.value) in users
    ensures Register(r, users, isAddress).Rejected?
    ensures Username in Register(r, users, isAddress).errors
    ensures UsernameTaken in Register(r, users, isAddress).errors[Username]
  {
    TakenUsernameField(r.username, users);
    FieldFailureReported(CheckFields(r, users, isAddress), Username);
  }

  // ---------------------------------------------------------------- accounts

  /** A value in serialized output. */
  datatype Value = IntValue(i: int) | Str(s: string) | Flag(b: bool)

  /** A stored account. */
  datatype FacebookAccount = FacebookAccount(id: int, email: string, password: string, createdAt: string)

  /** The account serializer's output: `session_exists` is whether the
      account's session file is in the sessions directory, and the
      write-only password is left out. */
  function SerializeAccount(a: FacebookAccount, sessionFiles: set<string>): (out: map<string, Value>)
    ensures out.Keys == {"id", "email", "session_exists", "created_at"}
    ensures "password" !in out
    ensures out["session_exists"] == Flag(SessionFileName(a.email) in sessionFiles)
    ensures out["email"] == Str(a.email)
  {
    map["id" := IntValue(a.id), "email" := Str(a.email),
        "session_exists" := Flag(SessionFileName(a.email) in sessionFiles),
        "created_at" := Str(a.createdAt)]
  }

  /** Two accounts whose addresses name the same session file always
      report the same `session_exists`, whichever of them logged in; such
      pairs exist, e.g. addresses differing only by '.' against '_'. */
  lemma SharedSessionFile(a: FacebookAccount, b: FacebookAccount, sessionFiles: set<string>)
    requires SessionFileName(a.email) == SessionFileName(b.email)
    ensures SerializeAccount(a, sessionFiles)["session_exists"] == SerializeAccount(b, sessionFiles)["session_exists"]
    ensures SessionFileName("a.b@c.d") == SessionFileName("a_b@c.d")
  {
    MangleCollides();
  }
}
