/** The client's authentication context: the user held in memory, the token
    and user kept in the browser's storage, and the routes pushed. The API
    replies are parameters; the stored user is kept as a value, not as its
    JSON text. */
module AuthContext {

  import opened Common
  import opened Text
  import Fields
  import AccountSerializers

  const SignupFailed: string := "Signup failed"
  const LoginFailed: string := "Login failed"
  const PendingApproval: string := "Your account is pending approval. Please contact the administrator."
  const DashboardRoute: string := "/dashboard"
  const LoginRoute: string := "/login"

  /** The first and last name sent on signup: the trimmed name split at every
      space, the first piece and the rest joined back with spaces. */
  function NameParts(name: string): (parts: (string, string))
    ensures ' ' !in parts.0
    ensures !IsBlank(name) ==> parts.0 != ""
  {
    var trimmed := Strip(name);
    var words := Split(trimmed, ' ');
    StripSpec(name);
    assert words[0] == trimmed[..IndexOf(trimmed, ' ')];
    (words[0], Join(words[1..], " "))
  }

  /** The two parts put back together give the trimmed name: with a single
      space between them when it has a space, and the name alone as the first
      name otherwise. */
  lemma NamePartsRejoin(name: string)
    ensures var trimmed, parts := Strip(name), NameParts(name);
      && (' ' in trimmed ==> parts.0 + " " + parts.1 == trimmed)
      && (' ' !in trimmed ==> parts.0 == trimmed && parts.1 == "")
  {
    var trimmed := Strip(name);
    var words := Split(trimmed, ' ');
    JoinSplit(trimmed, ' ');
    if ' ' in trimmed {
      var k := IndexOf(trimmed, ' ');
      assert words == [trimmed[..k]] + Split(trimmed[k + 1..], ' ');
      assert |words| > 1;
    } else {
      assert words == [trimmed];
    }
  }

  /** The username sent on signup: the email up to its first '@'. */
  function Username(email: string): (username: string)
    ensures '@' !in username
    ensures |username| <= |email| && username == email[..|username|]
  {
    Split(email, '@')[0]
  }

  /** For an address `local@domain`, the username is `local`. */
  lemma UsernameOfAddress(local: string, domain: string)
    requires '@' !in local
    ensures Username(local + "@" + domain) == local
  {
    SplitCons(local, '@', domain);
  }

  /** A text field counts only when present and non-empty, as JavaScript's
      `||` treats it. */
  function Or(a: Option<string>, b: string): string {
    if a.Some? && a.value != "" then a.value else b
  }

  /** The first message of a field's error list, if there is one. */
  function FirstOf(messages: Option<seq<string>>): Option<string> {
    if messages.Some? && messages.value != [] then Some(messages.value[0]) else None
  }

  predicate Given(a: Option<string>) {
    a.Some? && a.value != ""
  }

  /** The body of a refused signup: per-field message lists and an `error`. */
  datatype SignupErrorBody = SignupErrorBody(username: Option<seq<string>>, email: Option<seq<string>>,
                                             password: Option<seq<string>>, error: Option<string>)

  /** The message `signup` throws; `None` is a failure with no reply. The
      username's first message wins, then the email's, the password's, the
      `error` field, and last the fixed text; the message is never empty. */
  function SignupError(body: Option<SignupErrorBody>): (m: string)
    ensures m != ""
    ensures body.Some? && Given(FirstOf(body.value.username)) ==> m == body.value.username.value[0]
    ensures body.Some? && !Given(FirstOf(body.value.username)) && Given(FirstOf(body.value.email)) ==>
      m == body.value.email.value[0]
    ensures (body.Some? && !Given(FirstOf(body.value.username)) && !Given(FirstOf(body.value.email)) &&
             Given(FirstOf(body.value.password))) ==> m == body.value.password.value[0]
    ensures (body.Some? && !Given(FirstOf(body.value.username)) && !Given(FirstOf(body.value.email)) &&
             !Given(FirstOf(body.value.password))) ==> m == Or(body.value.error, SignupFailed)
    ensures body.None? ==> m == SignupFailed
  {
    if body.None? then SignupFailed
    else
      var b := body.value;
      Or(FirstOf(b.username), Or(FirstOf(b.email), Or(FirstOf(b.password), Or(b.error, SignupFailed))))
  }

  /** A message is taken from a later field only when every earlier field
      has none: with a username message present, nothing else matters. */
  lemma UsernameMessageWins(b: SignupErrorBody, other: SignupErrorBody)
    requires Given(FirstOf(b.username)) && other.username == b.username
    ensures SignupError(Some(b)) == SignupError(Some(other))
  {
  }

  /** A refused login: the reply's status, `message` and `error`, all `None`
      when no reply came. */
  datatype LoginFailure = LoginFailure(status: Option<int>, message: Option<string>, error: Option<string>)

  /** The message `login` throws: a 403 is an account awaiting approval. */
  function LoginError(f: LoginFailure): (m: string)
    ensures m != ""
    ensures f.status == Some(403) ==> m == Or(f.message, PendingApproval)
    ensures f.status != Some(403) ==> m == Or(f.error, LoginFailed)
  {
    if f.status == Some(403) then Or(f.message, PendingApproval) else Or(f.error, LoginFailed)
  }

  datatype User = User(id: int, username: string, email: string)

  datatype Tokens = Tokens(access: string, refresh: string)

  /** The login endpoint's answer. */
  datatype LoginReply = LoggedIn(tokens: Tokens, user: User) | LoginRefused(failure: LoginFailure)

  /** The signup endpoint's answer: a reply body, with tokens and the user
      when the account may sign in at once, or a refusal. */
  datatype SignupReply =
    | SignupAnswered(success: bool, session: Option<(Tokens, User)>, message: string)
    | SignupRefused(body: Option<SignupErrorBody>)

  /** What `signup` gives its caller: the reply body, or a thrown message. */
  datatype SignupResult = Returned(success: bool, message: string) | Thrown(error: string)

  /** The five arguments `signup` passes to `authAPI.signup`, in order. */
  datatype SignupRequest = SignupRequest(username: string, email: string, password: string,
                                         firstName: string, lastName: string)

  /** The arguments built from the signup form. */
  function SignupRequestOf(name: string, email: string, password: string): (r: SignupRequest)
    ensures r.email == email && r.password == password && r.username == Username(email)
    ensures (r.firstName, r.lastName) == NameParts(name)
  {
    var parts := NameParts(name);
    SignupRequest(Username(email), email, password, parts.0, parts.1)
  }

  /** The JSON body `authAPI.signup(email, password, name)` posts for those
      arguments: its three parameters take the first three arguments by
      position, so the username goes out as `email`, the address as
      `password` and the password as `name`, and the two name parts are
      dropped. */
  function SignupBody(r: SignupRequest): (body: map<string, string>)
    ensures body.Keys == {"email", "password", "name"}
    ensures "username" !in body && "confirm_password" !in body
  {
    map["email" := r.username, "password" := r.email, "name" := r.password]
  }

  /** One field of a JSON body as the register serializer receives it. */
  function BodyField(body: map<string, string>, name: string): Fields.Input<string> {
    if name in body then Fields.Given(body[name]) else Fields.Absent
  }

  /** The sign-up the register endpoint reads from a JSON body; other
      names are ignored. */
  function RegistrationOf(body: map<string, string>): AccountSerializers.Registration {
    AccountSerializers.Registration(
      BodyField(body, "username"), BodyField(body, "email"), BodyField(body, "password"),
      BodyField(body, "confirm_password"), BodyField(body, "first_name"), BodyField(body, "last_name"))
  }

  /** As written, every sign-up the page sends is refused: the body carries
      no username and no confirmation, so both are reported as required,
      and the address stands where the password is checked. */
  lemma SignupAlwaysRefused(r: SignupRequest, users: set<string>, isAddress: string -> bool)
    ensures RegistrationOf(SignupBody(r)).password == Fields.Given(r.email)
    ensures var result := AccountSerializers.Register(RegistrationOf(SignupBody(r)), users, isAddress);
      && result.Rejected?
      && AccountSerializers.Username in result.errors
      && result.errors[AccountSerializers.Username] == [Fields.Required]
      && AccountSerializers.ConfirmPassword in result.errors
      && result.errors[AccountSerializers.ConfirmPassword] == [Fields.Required]
  {
    var c := AccountSerializers.CheckFields(RegistrationOf(SignupBody(r)), users, isAddress);
    assert c.username == Fields.Invalid([Fields.Required]);
    assert c.confirmPassword == Fields.Invalid([Fields.Required]);
  }

  /** The body the endpoint evidently expects: every argument under the
      serializer's own field name, with the password, which the form has
      already compared with its confirmation, sent as the confirmation. */
  function FixedSignupBody(r: SignupRequest): (body: map<string, string>)
    ensures body.Keys == {"username", "email", "password", "confirm_password", "first_name", "last_name"}
  {
    map["username" := r.username, "email" := r.email, "password" := r.password,
        "confirm_password" := r.password, "first_name" := r.firstName, "last_name" := r.lastName]
  }

  /** The corrected body reaches the serializer as the request the page
      built, so a sign-up is accepted exactly when each field meets its
      rules, and the user created holds the stripped username and
      password. */
  lemma FixedSignupRegisters(r: SignupRequest, users: set<string>, isAddress: string -> bool)
    ensures RegistrationOf(FixedSignupBody(r)) ==
      AccountSerializers.Registration(Fields.Given(r.username), Fields.Given(r.email), Fields.Given(r.password),
                                      Fields.Given(r.password), Fields.Given(r.firstName), Fields.Given(r.lastName))
    ensures var reg := RegistrationOf(FixedSignupBody(r));
      var result := AccountSerializers.Register(reg, users, isAddress);
      && (result.Accepted? <==> AccountSerializers.FieldsOk(reg, users, isAddress))
      && (result.Accepted? ==> result.user.username == Strip(r.username) && result.user.password == Strip(r.password))
  {
    var reg := RegistrationOf(FixedSignupBody(r));
    AccountSerializers.RegisterAccepts(reg, users, isAddress);
  }

  /** Whether storage holds a session: both a token and a user, the token
      non-empty. */
  predicate StoredSession(token: Option<string>, savedUser: Option<User>) {
    Given(token) && savedUser.Some?
  }

  /** The provider's state and the two storage entries it uses. */
  class AuthProvider {
    var user: Option<User>
    var loading: bool
    var token: Option<string>
    var savedUser: Option<User>
    var pushed: seq<string>

    /** Mounting with whatever storage already holds. */
    constructor(token: Option<string>, savedUser: Option<User>)
      ensures user == None && loading && this.token == token && this.savedUser == savedUser && pushed == []
    {
      user := None;
      loading := true;
      this.token := token;
      this.savedUser := savedUser;
      pushed := [];
    }

    predicate IsAuthenticated()
      reads this
    {
      user.Some?
    }

    /** `initAuth`: a stored session is checked against the profile
        endpoint (`None` when the call fails); a failed check clears it. */
    method Init(profile: Option<User>)
      modifies this
      ensures !loading && pushed == old(pushed)
      ensures StoredSession(old(token), old(savedUser)) && profile.Some? ==>
        user == profile && token == old(token) && savedUser == old(savedUser)
      ensures StoredSession(old(token), old(savedUser)) && profile.None? ==>
        user == None && token == None && savedUser == None
      ensures !StoredSession(old(token), old(savedUser)) ==>
        user == old(user) && token == old(token) && savedUser == old(savedUser)
    {
      if token.Some? && token.value != "" && savedUser.Some? {
        if profile.Some? {
          user := profile;
        } else {
          token := None;
          savedUser := None;
          user := None;
        }
      }
      loading := false;
    }

    /** `login`: returns the message thrown, if any. */
    method Login(reply: LoginReply) returns (thrown: Option<string>)
      modifies this
      ensures reply.LoggedIn? ==>
        thrown == None && token == Some(reply.tokens.access) && savedUser == Some(reply.user) &&
        user == Some(reply.user) && pushed == old(pushed) + [DashboardRoute]
      ensures reply.LoginRefused? ==>
        thrown == Some(LoginError(reply.failure)) && unchanged(this)
      ensures loading == old(loading)
    {
      match reply
      case LoggedIn(tokens, u) =>
        token := Some(tokens.access);
        savedUser := Some(u);
        user := Some(u);
        pushed := pushed + [DashboardRoute];
        thrown := None;
      case LoginRefused(failure) =>
        thrown := Some(LoginError(failure));
    }

    /** `signup`: returns the request sent and what the caller receives. A
        reply without tokens changes nothing; one with tokens signs in. */
    method Signup(name: string, email: string, password: string, reply: SignupReply)
      returns (request: SignupRequest, result: SignupResult)
      modifies this
      ensures request == SignupRequestOf(name, email, password)
      ensures reply.SignupAnswered? ==> result == Returned(reply.success, reply.message)
      ensures reply.SignupAnswered? && reply.session.None? ==> unchanged(this)
      ensures reply.SignupAnswered? && reply.session.Some? ==>
        token == Some(reply.session.value.0.access) && savedUser == Some(reply.session.value.1) &&
        user == Some(reply.session.value.1) && pushed == old(pushed) + [DashboardRoute]
      ensures reply.SignupRefused? ==> result == Thrown(SignupError(reply.body)) && unchanged(this)
      ensures loading == old(loading)
    {
      var parts := NameParts(name);
      request := SignupRequest(Username(email), email, password, parts.0, parts.1);
      match reply
      case SignupRefused(body) =>
        result := Thrown(SignupError(body));
      case SignupAnswered(success, session, message) =>
        result := Returned(success, message);
        if success && session.None? {
          return;
        }
        if session.Some? {
          token := Some(session.value.0.access);
          savedUser := Some(session.value.1);
          user := Some(session.value.1);
          pushed := pushed + [DashboardRoute];
        }
    }

    /** `logout`: storage cleared, no user, back to the login page. */
    method Logout()
      modifies this
      ensures token == None && savedUser == None && user == None && !IsAuthenticated()
      ensures pushed == old(pushed) + [LoginRoute] && loading == old(loading)
    {
      token := None;
      savedUser := None;
      user := None;
      pushed := pushed + [LoginRoute];
    }
  }
}
