/** The add-account dialog: an email and a password checked in the browser
    and sent to the add-with-login endpoint. The request is split in two
    steps, sending and receiving, so that closing while it is in flight can
    be stated; the reply is a parameter. */
module AddAccountModal {

  import opened Common
  import opened Text
  import AccountApi

  const FieldsRequired: string := "Email and password are required"
  const InvalidEmail: string := "Please enter a valid email address"
  const DefaultFailure: string := "Failed to add account"
  const DefaultSuccess: string := "Account added successfully! Browser is opening for login..."

  /** A character the pattern's `[^\s@]` accepts. */
  predicate Plain(c: char) {
    !IsSpace(c) && c != '@'
  }

  predicate AllPlain(s: string) {
    forall k :: 0 <= k < |s| ==> Plain(s[k])
  }

  /** `/^[^\s@]+@[^\s@]+\.[^\s@]+$/.test(s)`: three non-empty runs of plain
      characters, separated by an '@' and a '.'. */
  predicate MatchesEmailPattern(s: string) {
    exists i, j | 0 < i && i + 1 < j && j + 1 < |s| ::
      s[i] == '@' && s[j] == '.' && AllPlain(s[..i]) && AllPlain(s[i + 1..j]) && AllPlain(s[j + 1..])
  }

  /** The same language described directly: no whitespace, exactly one '@'
      with something before it, and a '.' in the domain that is neither its
      first nor its last character. */
  predicate PlainEmail(s: string) {
    && (forall k :: 0 <= k < |s| ==> !IsSpace(s[k]))
    && exists i | 0 < i < |s| ::
         && s[i] == '@'
         && (forall k :: 0 <= k < |s| && s[k] == '@' ==> k == i)
         && exists j | i + 1 < j < |s| - 1 :: s[j] == '.'
  }

  lemma PatternIsPlainEmail(s: string)
    requires MatchesEmailPattern(s)
    ensures PlainEmail(s)
  {
    var i, j :| 0 < i && i + 1 < j && j + 1 < |s| &&
      s[i] == '@' && s[j] == '.' && AllPlain(s[..i]) && AllPlain(s[i + 1..j]) && AllPlain(s[j + 1..]);
    forall k | 0 <= k < |s| && k != i && k != j ensures Plain(s[k]) {
      if k < i {
        assert s[..i][k] == s[k];
      } else if k < j {
        assert s[i + 1..j][k - i - 1] == s[k];
      } else {
        assert s[j + 1..][k - j - 1] == s[k];
      }
    }
    assert forall k :: 0 <= k < |s| && s[k] == '@' ==> k == i;
    assert i + 1 < j < |s| - 1 && s[j] == '.';
  }

  lemma PlainEmailIsPattern(s: string)
    requires PlainEmail(s)
    ensures MatchesEmailPattern(s)
  {
    var i :| 0 < i < |s| && s[i] == '@' && (forall k :: 0 <= k < |s| && s[k] == '@' ==> k == i) &&
      exists j | i + 1 < j < |s| - 1 :: s[j] == '.';
    var j :| i + 1 < j < |s| - 1 && s[j] == '.';
    var local, domain, top := s[..i], s[i + 1..j], s[j + 1..];
    forall k | 0 <= k < |local| ensures Plain(local[k]) {
      assert local[k] == s[k];
    }
    forall k | 0 <= k < |domain| ensures Plain(domain[k]) {
      assert domain[k] == s[k + i + 1];
    }
    forall k | 0 <= k < |top| ensures Plain(top[k]) {
      assert top[k] == s[k + j + 1];
    }
  }

  /** The pattern accepts exactly the plain email addresses. */
  lemma EmailPatternMeans(s: string)
    ensures MatchesEmailPattern(s) <==> PlainEmail(s)
  {
    if MatchesEmailPattern(s) {
      PatternIsPlainEmail(s);
    }
    if PlainEmail(s) {
      PlainEmailIsPattern(s);
    }
  }

  /** The check before sending: the error shown, if any. */
  function ClientError(email: string, password: string): (error: Option<string>)
    ensures error.None? <==> email != "" && password != "" && MatchesEmailPattern(email)
    ensures email == "" || password == "" ==> error == Some(FieldsRequired)
  {
    if email == "" || password == "" then Some(FieldsRequired)
    else if !MatchesEmailPattern(email) then Some(InvalidEmail)
    else None
  }

  /** Whatever the dialog sends passes the endpoint's own required-field
      check: the endpoint answers with a creation or with "already exists". */
  lemma SentRequestHasFields(email: string, password: string, accounts: AccountApi.Accounts)
    requires ClientError(email, password).None?
    ensures var reply := AccountApi.AddWithLogin(Some(email), Some(password), accounts).0;
      reply.AddCreated? || reply.error == AccountApi.ExistsMessage
  {
  }

  /** How the request ended: a thrown error with its message, or a reply
      with its `ok` flag and optional `message` and `error`. */
  datatype Outcome = Thrown(reason: string) | Replied(ok: bool, message: Option<string>, error: Option<string>)

  function Or(a: Option<string>, b: string): string {
    if a.Some? && a.value != "" then a.value else b
  }

  /** The dialog's state. */
  class Dialog {
    var email: string
    var password: string
    var loading: bool
    var error: string
    var success: bool
    var message: string

    constructor()
      ensures email == "" && password == "" && !loading && error == "" && !success && message == ""
    {
      email, password := "", "";
      loading := false;
      error := "";
      success := false;
      message := "";
    }

    /** `handleSubmit` up to the request: the status is cleared first, then
        the fields are checked; returns the credentials sent, if any. */
    method Submit() returns (sent: Option<(string, string)>)
      modifies this
      ensures !success && message == ""
      ensures ClientError(old(email), old(password)).Some? ==>
        sent == None && error == ClientError(old(email), old(password)).value && loading == old(loading)
      ensures ClientError(old(email), old(password)).None? ==>
        sent == Some((old(email), old(password))) && error == "" && loading
      ensures email == old(email) && password == old(password)
    {
      error := "";
      success := false;
      message := "";
      sent := None;
      if email == "" || password == "" {
        error := FieldsRequired;
        return;
      }
      if !MatchesEmailPattern(email) {
        error := InvalidEmail;
        return;
      }
      loading := true;
      sent := Some((email, password));
    }

    /** The rest of `handleSubmit`, once the reply is in. */
    method Receive(outcome: Outcome)
      modifies this
      ensures !loading
      ensures outcome.Replied? && outcome.ok ==>
        success && message == Or(outcome.message, DefaultSuccess) && email == "" && password == "" &&
        error == old(error)
      ensures outcome.Replied? && !outcome.ok ==>
        error == Or(outcome.error, DefaultFailure) &&
        success == old(success) && message == old(message) && email == old(email) && password == old(password)
      ensures outcome.Thrown? ==>
        error == Or(Some(outcome.reason), DefaultFailure) &&
        success == old(success) && message == old(message) && email == old(email) && password == old(password)
    {
      loading := false;
      match outcome
      case Replied(true, m, _) =>
        success := true;
        message := Or(m, DefaultSuccess);
        email := "";
        password := "";
      case Replied(false, _, e) =>
        error := Or(Some(Or(e, DefaultFailure)), DefaultFailure);
      case Thrown(m) =>
        error := Or(Some(m), DefaultFailure);
    }

    /** `handleClose`: ignored while a request is in flight, otherwise
        every field is reset. */
    method Close() returns (closed: bool)
      modifies this
      ensures old(loading) ==> unchanged(this) && !closed
      ensures !old(loading) ==>
        closed && email == "" && password == "" && error == "" && !success && message == "" && !loading
    {
      if loading {
        return false;
      }
      email, password := "", "";
      error := "";
      success := false;
      message := "";
      closed := true;
    }
  }
}
