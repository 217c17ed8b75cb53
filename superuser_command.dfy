/** The `check_superuser` management command: list the superusers, then
    verify a password, or create or promote a superuser, over the user table.
    Passwords are compared as stored (hashing is not modelled). */
module CheckSuperuserCommand {

  import opened Common

  datatype User = User(email: string, password: string, isActive: bool, isStaff: bool, isSuperuser: bool)

  /** The command-line options; an absent or empty string counts as not
      given. */
  datatype Options = Options(username: Option<string>, password: Option<string>, email: Option<string>,
                             create: bool, verify: bool)

  /** What the command writes, without its styling. */
  datatype Line =
    | FoundSuperusers(usernames: set<string>)
    | NoSuperuser
    | PasswordCorrect(username: string)
    | AuthenticationFailed(username: string)
    | AlreadyExists(username: string)
    | AlreadySuperuser(username: string)
    | Promoted(username: string)
    | CreatedSuperuser(username: string)
    | UsageHint

  predicate Given(field: Option<string>) {
    field.Some? && field.value != ""
  }

  function SuperuserNames(users: map<string, User>): set<string> {
    set name | name in users && users[name].isSuperuser
  }

  /** Django's model backend: the user, when the password matches and the
      user is active. */
  function Authenticate(users: map<string, User>, username: string, password: string): Option<User> {
    if username in users && users[username].password == password && users[username].isActive
    then Some(users[username]) else None
  }

  /** The verify branch is taken when `--verify` comes with a username and a
      password; otherwise the create branch, when `--create` does. */
  predicate Verifying(o: Options) {
    o.verify && Given(o.username) && Given(o.password)
  }

  predicate Creating(o: Options) {
    !Verifying(o) && o.create && Given(o.username) && Given(o.password)
  }

  /** The user table after the command. */
  function After(users: map<string, User>, o: Options): map<string, User> {
    if !Creating(o) then users
    else
      var name := o.username.value;
      if name in users then
        if users[name].isSuperuser then users
        else users[name := users[name].(isSuperuser := true, isStaff := true)]
      else
        var email := if Given(o.email) then o.email.value else name + "@example.com";
        users[name := User(email, o.password.value, true, true, true)]
  }

  /** The lines the command writes. */
  function Output(users: map<string, User>, o: Options): seq<Line> {
    var supers := SuperuserNames(users);
    var listing := if supers != {} then [FoundSuperusers(supers)] else [NoSuperuser];
    var action :=
      if Verifying(o) then
        var user := Authenticate(users, o.username.value, o.password.value);
        if user.Some? && user.value.isSuperuser then [PasswordCorrect(o.username.value)]
        else [AuthenticationFailed(o.username.value)]
      else if Creating(o) then
        var name := o.username.value;
        if name in users then
          [AlreadyExists(name)] + (if users[name].isSuperuser then [AlreadySuperuser(name)] else [Promoted(name)])
        else [CreatedSuperuser(name)]
      else [];
    var hint := if !o.verify && !o.create && supers == {} then [UsageHint] else [];
    listing + action + hint
  }

  /** Verification never changes the table, even with `--create` also given. */
  lemma VerifyChangesNothing(users: map<string, User>, o: Options)
    requires Verifying(o)
    ensures After(users, o) == users
    ensures PasswordCorrect(o.username.value) in Output(users, o) <==>
      (o.username.value in users && users[o.username.value].password == o.password.value &&
       users[o.username.value].isActive && users[o.username.value].isSuperuser)
  {
    var out := Output(users, o);
    var supers := SuperuserNames(users);
    var listing := if supers != {} then [FoundSuperusers(supers)] else [NoSuperuser];
    assert out == listing + Output(users, o)[|listing|..];
  }

  /** Promoting an existing user sets both flags and keeps the rest. */
  lemma PromoteKeepsPassword(users: map<string, User>, o: Options)
    requires Creating(o) && o.username.value in users && !users[o.username.value].isSuperuser
    ensures var u := After(users, o)[o.username.value];
      var old_ := users[o.username.value];
      u.isSuperuser && u.isStaff && u.password == old_.password && u.email == old_.email && u.isActive == old_.isActive
    ensures After(users, o).Keys == users.Keys
  {
  }

  /** Creating over an existing superuser leaves the table as it was and
      says so. */
  lemma AlreadySuperuserUnchanged(users: map<string, User>, o: Options)
    requires Creating(o) && o.username.value in users && users[o.username.value].isSuperuser
    ensures After(users, o) == users
    ensures AlreadySuperuser(o.username.value) in Output(users, o)
    ensures Promoted(o.username.value) !in Output(users, o)
  {
    var out := Output(users, o);
    var supers := SuperuserNames(users);
    var listing := if supers != {} then [FoundSuperusers(supers)] else [NoSuperuser];
    var name := o.username.value;
    assert out == listing + [AlreadyExists(name), AlreadySuperuser(name)];
  }

  /** A new superuser's address defaults to `<username>@example.com`. */
  lemma CreateDefaultsEmail(users: map<string, User>, o: Options)
    requires Creating(o) && o.username.value !in users && !Given(o.email)
    ensures var u := After(users, o)[o.username.value];
      u.isSuperuser && u.isStaff && u.email == o.username.value + "@example.com" && u.password == o.password.value
    ensures o.username.value in SuperuserNames(After(users, o))
  {
  }

  /** After a create, the named user is a superuser whatever the table held,
      and a second create changes nothing. */
  lemma CreateIdempotent(users: map<string, User>, o: Options)
    requires Creating(o)
    ensures o.username.value in SuperuserNames(After(users, o))
    ensures After(After(users, o), o) == After(users, o)
  {
  }

  /** The usage hint is written iff neither flag is set and there is no
      superuser. */
  lemma UsageHintRule(users: map<string, User>, o: Options)
    ensures UsageHint in Output(users, o) <==> !o.verify && !o.create && SuperuserNames(users) == {}
  {
    var out := Output(users, o);
    if !(!o.verify && !o.create && SuperuserNames(users) == {}) {
      assert forall i :: 0 <= i < |out| ==> out[i] != UsageHint;
    }
  }

  /** The user table, updated in place by the command. */
  class UserTable {
    var users: map<string, User>

    constructor(users: map<string, User>)
      ensures this.users == users
    {
      this.users := users;
    }

    /** `Command.handle`. */
    method Handle(o: Options) returns (output: seq<Line>)
      modifies this
      ensures users == After(old(users), o)
      ensures output == Output(old(users), o)
    {
      var supers := SuperuserNames(users);
      if supers != {} {
        output := [FoundSuperusers(supers)];
      } else {
        output := [NoSuperuser];
      }
      if o.verify && Given(o.username) && Given(o.password) {
        var user := Authenticate(users, o.username.value, o.password.value);
        if user.Some? && user.value.isSuperuser {
          output := output + [PasswordCorrect(o.username.value)];
        } else {
          output := output + [AuthenticationFailed(o.username.value)];
        }
      } else if o.create && Given(o.username) && Given(o.password) {
        var name := o.username.value;
        if name in users {
          output := output + [AlreadyExists(name)];
          var user := users[name];
          if user.isSuperuser {
            output := output + [AlreadySuperuser(name)];
          } else {
            user := user.(isSuperuser := true, isStaff := true);
            users := users[name := user];
            output := output + [Promoted(name)];
          }
        } else {
          var email := if Given(o.email) then o.email.value else name + "@example.com";
          users := users[name := User(email, o.password.value, true, true, true)];
          output := output + [CreatedSuperuser(name)];
        }
      }
      if !o.verify && !o.create && supers == {} {
        output := output + [UsageHint];
      }
    }
  }
}
