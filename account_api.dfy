/** The account endpoints of the REST API: adding one account whose browser
    login starts in the background, and bulk-adding accounts from a text file
    of `email:password` lines. The account table is a map from e-mail address
    to stored password; the background browser logins are not modelled. */
module AccountApi {

  import opened Common
  import opened Text

  /** The `FacebookAccount` rows, by e-mail address. */
  type Accounts = map<string, string>

  const RequiredMessage: string := "Email and password are required"
  const ExistsMessage: string := "Account with this email already exists"
  const AddedMessage: string := "Account created successfully. Browser opening for login..."
  const EmptyFieldMessage: string := "Email or password is empty"

  // ---------------------------------------------------------------------
  // Adding one account

  datatype AddReply =
    | AddRejected(error: string)          // 400
    | AddCreated(message: string, email: string)  // 201

  /** Python's `not x` on an optional request field. */
  predicate Missing(field: Option<string>) {
    field.None? || field.value == ""
  }

  /** `add_facebook_account_with_login`: the reply and the account table
      after the call. */
  function AddWithLogin(email: Option<string>, password: Option<string>, accounts: Accounts): (r: (AddReply, Accounts))
    ensures r.0.AddCreated? <==> !Missing(email) && !Missing(password) && email.value !in accounts
    ensures r.0.AddRejected? ==> r.1 == accounts
    ensures r.0.AddRejected? ==>
      r.0.error == (if Missing(email) || Missing(password) then RequiredMessage else ExistsMessage)
    ensures r.0.AddCreated? ==>
      r.0.email == email.value && r.1.Keys == accounts.Keys + {email.value} &&
      r.1[email.value] == password.value &&
      forall e :: e in accounts ==> r.1[e] == accounts[e]
  {
    if Missing(email) || Missing(password) then (AddRejected(RequiredMessage), accounts)
    else if email.value in accounts then (AddRejected(ExistsMessage), accounts)
    else (AddCreated(AddedMessage, email.value), accounts[email.value := password.value])
  }

  /** Repeating any call is refused and changes nothing: the address is
      stored after the first call whenever both fields were given. */
  lemma AddTwiceRejected(email: Option<string>, password: Option<string>, accounts: Accounts)
    ensures var (_, after) := AddWithLogin(email, password, accounts);
      && AddWithLogin(email, password, after).0.AddRejected?
      && AddWithLogin(email, password, after).1 == after
    ensures var (_, after) := AddWithLogin(email, password, accounts);
      !Missing(email) && !Missing(password) ==> AddWithLogin(email, password, after) == (AddRejected(ExistsMessage), after)
  {
  }

  // ---------------------------------------------------------------------
  // Bulk upload: one line

  /** What the loop makes of one raw line. */
  datatype LineKind =
    | Ignored                                  // blank, comment or no ':'
    | EmptyField(line: string)                 // one side of ':' is blank
    | Credentials(email: string, password: string)

  /** The stripped line is skipped when it is empty, starts with '#' or has
      no ':'; otherwise it is split at its first ':' and both sides stripped. */
  function Classify(raw: string): LineKind
  {
    var line := Strip(raw);
    if line == "" || StartsWith(line, "#") || ':' !in line then Ignored
    else
      var halves := SplitFirst(line, ':');
      var email, password := Strip(halves.0), Strip(halves.1);
      if email == "" || password == "" then EmptyField(line)
      else Credentials(email, password)
  }

  predicate Considered(raw: string) {
    !Classify(raw).Ignored?
  }

  /** Blank lines and lines without ':' are never considered. */
  lemma BlankOrColonlessIgnored(raw: string)
    requires IsBlank(raw) || ':' !in raw
    ensures Classify(raw) == Ignored
  {
    StripSpec(raw);
    StripWithin(raw);
  }

  /** An address and a password that survive stripping, with no ':' in the
      address and no leading '#'. */
  predicate PlainPair(email: string, password: string) {
    && email != "" && password != ""
    && ':' !in email && email[0] != '#'
    && !IsSpace(email[0]) && !IsSpace(email[|email| - 1])
    && !IsSpace(password[0]) && !IsSpace(password[|password| - 1])
  }

  /** A line is split at its first ':': the password may itself hold ':'. */
  lemma SplitAtFirstColon(email: string, password: string)
    requires PlainPair(email, password)
    ensures Classify(email + ":" + password) == Credentials(email, password)
  {
    var line := email + ":" + password;
    StripOfTrimmed(line);
    SplitFirstOf(email, ':', password);
    StripOfTrimmed(email);
    StripOfTrimmed(password);
    assert line[0] == email[0];
  }

  /** An illustration of `SplitAtFirstColon` on one line whose password
      contains a colon. */
  lemma ColonInPassword()
    ensures Classify("ann@mail.com:pa:ss") == Credentials("ann@mail.com", "pa:ss")
  {
    assert "ann@mail.com:pa:ss" == "ann@mail.com" + ":" + "pa:ss";
    SplitAtFirstColon("ann@mail.com", "pa:ss");
  }

  /** Nothing after the ':' (once stripped): a failure quoting the line. */
  lemma EmptyPasswordFails(email: string, blank: string)
    requires PlainPair(email, "x") && IsBlank(blank)
    ensures Classify(email + ":" + blank) == EmptyField(email + ":")
  {
    var line := email + ":" + blank;
    var kept := email + ":";
    assert Strip(line) == kept by {
      assert line == kept + blank && line[0] == email[0];
      TrimEndBlankSuffix(kept, blank);
    }
    assert SplitFirst(kept, ':') == (email, "") by {
      assert kept == email + [':'] + "";
      SplitFirstOf(email, ':', "");
    }
    assert Strip(email) == email by {
      StripOfTrimmed(email);
    }
  }

  /** Nothing before the ':': a failure quoting the line. */
  lemma EmptyEmailFails(password: string)
    requires PlainPair("x", password)
    ensures Classify(":" + password) == EmptyField(":" + password)
  {
    var line := ":" + password;
    StripOfTrimmed(line);
    assert line == "" + [':'] + password;
    SplitFirstOf("", ':', password);
  }

  // ---------------------------------------------------------------------
  // Bulk upload: the loop

  datatype Failure = Failure(line: string, error: string)

  /** The three detail lists and the account table, as the loop leaves them. */
  datatype Tally = Tally(created: seq<string>, skipped: seq<string>, failed: seq<Failure>, table: Accounts)

  /** One iteration: an address already in the table, including one created
      earlier in the same file, is skipped. */
  function Step(t: Tally, raw: string): Tally
  {
    match Classify(raw)
    case Ignored => t
    case EmptyField(line) => t.(failed := t.failed + [Failure(line, EmptyFieldMessage)])
    case Credentials(email, password) =>
      if email in t.table then t.(skipped := t.skipped + [email])
      else t.(created := t.created + [email], table := t.table[email := password])
  }

  /** The loop over `lines`, from the table `accounts`. */
  function Run(lines: seq<string>, accounts: Accounts): Tally
  {
    if lines == [] then Tally([], [], [], accounts)
    else Step(Run(lines[..|lines| - 1], accounts), lines[|lines| - 1])
  }

  /** Each considered line lands in exactly one of the three lists, and
      ignored lines in none. */
  lemma {:induction false} RunCounts(lines: seq<string>, accounts: Accounts)
    ensures var t := Run(lines, accounts);
      |t.created| + |t.skipped| + |t.failed| == |Filter(lines, Considered)|
  {
    if lines != [] {
      var init := lines[..|lines| - 1];
      RunCounts(init, accounts);
      assert init + [lines[|lines| - 1]] == lines;
      FilterAppend(init, [lines[|lines| - 1]], Considered);
    }
  }

  /** What the loop keeps true of the table: it holds exactly the old
      addresses and the created ones, old passwords are untouched, the
      created addresses are new and distinct, and every skipped address is
      in the table. */
  ghost predicate Consistent(accounts: Accounts, t: Tally) {
    && (forall e :: e in t.table <==> e in accounts || e in t.created)
    && (forall e :: e in accounts ==> t.table[e] == accounts[e])
    && (forall i :: 0 <= i < |t.created| ==> t.created[i] !in accounts)
    && NoDuplicates(t.created)
    && (forall i :: 0 <= i < |t.skipped| ==> t.skipped[i] in t.table)
  }

  lemma {:induction false} RunConsistent(lines: seq<string>, accounts: Accounts)
    ensures Consistent(accounts, Run(lines, accounts))
  {
    if lines != [] {
      var t := Run(lines[..|lines| - 1], accounts);
      RunConsistent(lines[..|lines| - 1], accounts);
      var raw := lines[|lines| - 1];
      assert Run(lines, accounts) == Step(t, raw);
      match Classify(raw)
      case Ignored =>
      case EmptyField(_) =>
      case Credentials(email, password) =>
        if email !in t.table {
          var created := t.created + [email];
          assert forall i :: 0 <= i < |t.created| ==> created[i] == t.created[i] && t.created[i] in t.table;
        }
    }
  }

  /** A line repeated in one file: created the first time, skipped the second. */
  lemma RepeatedLineSkipped(email: string, password: string, accounts: Accounts)
    requires PlainPair(email, password) && email !in accounts
    ensures var t := Run([email + ":" + password, email + ":" + password], accounts);
      t.created == [email] && t.skipped == [email] && t.failed == []
  {
    var line := email + ":" + password;
    SplitAtFirstColon(email, password);
    var lines := [line, line];
    assert lines[..1] == [line] && [line][..0] == [];
    var once := Tally([email], [], [], accounts[email := password]);
    assert Run([line], accounts) == Step(Tally([], [], [], accounts), line) == once;
    assert Run(lines, accounts) == Step(once, line);
  }

  /** A blank-or-colonless line between two others changes nothing. */
  lemma IgnoredLineChangesNothing(lines: seq<string>, raw: string, accounts: Accounts)
    requires !Considered(raw)
    ensures Run(lines + [raw], accounts) == Run(lines, accounts)
  {
    assert (lines + [raw])[..|lines|] == lines;
  }

  /** The agreement of the two endpoints: a well-formed line from the bulk
      file creates the same row as adding that account on its own. */
  lemma BulkLineAgreesWithAdd(email: string, password: string, accounts: Accounts)
    requires PlainPair(email, password)
    ensures Run([email + ":" + password], accounts).table
      == AddWithLogin(Some(email), Some(password), accounts).1
  {
    SplitAtFirstColon(email, password);
    assert [email + ":" + password][..0] == [];
  }

  // ---------------------------------------------------------------------
  // Bulk upload: the request

  /** An uploaded file: its name and its content, `None` when the bytes are
      not valid UTF-8. */
  datatype TextFile = TextFile(name: string, content: Option<string>)

  datatype BulkError =
    | NoFile         // "No file provided"
    | NotTxt         // "Only .txt files are allowed"
    | Unreadable     // "Failed to process file: ..."

  datatype BulkReply =
    | BulkRejected(error: BulkError)
    | BulkDone(message: string, createdCount: nat, skippedCount: nat, failedCount: nat,
               created: seq<string>, skipped: seq<string>, failed: seq<Failure>)

  /** `content.strip().split('\n')`. */
  function FileLines(content: string): seq<string> {
    Split(Strip(content), '\n')
  }

  function DoneMessage(created: nat): string {
    "Bulk upload completed. Processing " + NatToString(created) + " accounts..."
  }

  /** `bulk_upload_accounts_with_login`: the checks on the file, then the loop
      over its lines. */
  method BulkUploadAccounts(file: Option<TextFile>, accounts: Accounts)
    returns (reply: BulkReply, table: Accounts)
    ensures file.None? ==> reply == BulkRejected(NoFile) && table == accounts
    ensures file.Some? && !EndsWith(file.value.name, ".txt") ==>
      reply == BulkRejected(NotTxt) && table == accounts
    ensures file.Some? && EndsWith(file.value.name, ".txt") && file.value.content.None? ==>
      reply == BulkRejected(Unreadable) && table == accounts
    ensures file.Some? && EndsWith(file.value.name, ".txt") && file.value.content.Some? ==>
      var t := Run(FileLines(file.value.content.value), accounts);
      && reply == BulkDone(DoneMessage(|t.created|), |t.created|, |t.skipped|, |t.failed|,
                           t.created, t.skipped, t.failed)
      && table == t.table
  {
    if file.None? {
      return BulkRejected(NoFile), accounts;
    }
    if !EndsWith(file.value.name, ".txt") {
      return BulkRejected(NotTxt), accounts;
    }
    if file.value.content.None? {
      return BulkRejected(Unreadable), accounts;
    }
    var lines := FileLines(file.value.content.value);
    var created, skipped, failed := [], [], [];
    table := accounts;
    for n := 0 to |lines|
      invariant Tally(created, skipped, failed, table) == Run(lines[..n], accounts)
    {
      assert lines[..n + 1][..n] == lines[..n];
      match Classify(lines[n])
      case Ignored =>
      case EmptyField(line) =>
        failed := failed + [Failure(line, EmptyFieldMessage)];
      case Credentials(email, password) =>
        if email in table {
          skipped := skipped + [email];
        } else {
          table := table[email := password];
          created := created + [email];
        }
    }
    assert lines[..|lines|] == lines;
    reply := BulkDone(DoneMessage(|created|), |created|, |skipped|, |failed|, created, skipped, failed);
  }
}
