/** The form-based account upload page: the automatic clean-up of orphaned
    session files that runs on every visit, the upload loop that creates or
    updates accounts from `email:password` lines, and the background pass that
    decides which accounts need a browser login. */
module AccountViews {

  import opened Common
  import opened Text
  import opened SessionNames
  import AccountApi

  type Accounts = AccountApi.Accounts

  // ---------------------------------------------------------------------
  // Clean-up of orphaned session files

  /** `cleanup_orphaned_sessions`: `listing` is the sessions directory (`None`
      when it does not exist) and `db` the stored addresses; the result is the
      files removed, in listing order. */
  method CleanupOrphanedSessions(listing: Option<seq<string>>, db: set<string>)
    returns (deleted: seq<string>)
    ensures listing.None? ==> deleted == []
    ensures listing.Some? ==> deleted == Orphans(Filter(listing.value, IsJson), db, ViewsEmail)
  {
    if listing.None? {
      return [];
    }
    var sessionFiles := Filter(listing.value, IsJson);
    deleted := [];
    for n := 0 to |sessionFiles|
      invariant deleted == Orphans(sessionFiles[..n], db, ViewsEmail)
    {
      var sessionFile := sessionFiles[n];
      OrphansSnoc(sessionFiles, n, db, ViewsEmail);
      var filename := RemoveAll(sessionFile, JsonSuffix);
      var parts := Split(filename, '_');
      if |parts| >= 3 {
        var email := parts[0] + "@" + Join(parts[1..|parts| - 1], "_") + "." + parts[|parts| - 1];
        ViewsEmailOfParts(sessionFile, parts, email);
        if email !in db {
          deleted := deleted + [sessionFile];
        }
      }
    }
    assert sessionFiles[..|sessionFiles|] == sessionFiles;
  }

  /** The address rebuilt in the loop body is `ViewsEmail`'s. */
  lemma ViewsEmailOfParts(sessionFile: string, parts: seq<string>, email: string)
    requires parts == Split(RemoveAll(sessionFile, JsonSuffix), '_') && |parts| >= 3
    requires email == parts[0] + "@" + Join(parts[1..|parts| - 1], "_") + "." + parts[|parts| - 1]
    ensures ViewsEmail(sessionFile) == Some(email)
  {
  }

  /** Only `.json` files of the listing are removed, never one whose stem has
      fewer than three '_' parts, and a file is removed iff the address
      rebuilt from it is not stored. */
  lemma CleanupScope(listing: seq<string>, db: set<string>, f: string)
    ensures f in Orphans(Filter(listing, IsJson), db, ViewsEmail) <==>
      && f in listing && IsJson(f)
      && |Split(RemoveAll(f, JsonSuffix), '_')| >= 3
      && ViewsEmail(f).value !in db
  {
    OrphansMembers(Filter(listing, IsJson), db, ViewsEmail);
  }

  /** The session file of a stored `local@name.tld` whose local part and
      last label hold no '@', '.' or '_' is kept. */
  lemma PlainSessionKept(local: string, name: string, tld: string, listing: seq<string>, db: set<string>)
    requires NoSeparators(local) && NoSeparators(tld) && '@' !in name && '.' !in name
    requires local + "@" + name + "." + tld in db
    ensures SessionFileName(local + "@" + name + "." + tld) !in Orphans(Filter(listing, IsJson), db, ViewsEmail)
  {
    ViewsRoundTrip(local, name, tld);
    OrphansMembers(Filter(listing, IsJson), db, ViewsEmail);
  }

  /** The mangled form of `first.second@name.tld`. */
  lemma DottedStem(first: string, second: string, name: string, tld: string)
    requires NoSeparators(first) && NoSeparators(second) && NoSeparators(name) && NoSeparators(tld)
    ensures Mangle(first + "." + second + "@" + name + "." + tld)
      == first + "_" + (second + "_" + name) + "_" + tld
  {
    var local := first + "." + second;
    var host := local + "@" + name;
    assert Mangle(local) == first + "_" + second by {
      MangleAround(first, '.', second);
      MangleIdentity(first);
      MangleIdentity(second);
    }
    assert Mangle(host) == first + "_" + second + "_" + name by {
      MangleAround(local, '@', name);
      MangleIdentity(name);
    }
    assert Mangle(host + "." + tld) == first + "_" + second + "_" + name + "_" + tld by {
      MangleAround(host, '.', tld);
      MangleIdentity(tld);
    }
    AppendAssoc(first + "_", second + "_", name);
    AppendAssoc(first + "_", second, "_");
  }

  /** The address the clean-up rebuilds for `first.second@name.tld`: the '@'
      lands on the dot of the local part. */
  lemma DottedLocalRebuilt(first: string, second: string, name: string, tld: string)
    requires NoSeparators(first) && NoSeparators(second) && NoSeparators(name) && NoSeparators(tld)
    ensures ViewsEmail(SessionFileName(first + "." + second + "@" + name + "." + tld))
      == Some(first + "@" + second + "_" + name + "." + tld)
  {
    var email := first + "." + second + "@" + name + "." + tld;
    var middle := second + "_" + name;
    var stem := first + "_" + middle + "_" + tld;
    assert RemoveAll(SessionFileName(email), JsonSuffix) == stem by {
      StemOfSessionFileName(email);
      DottedStem(first, second, name, tld);
    }
    var parts := [first] + Split(middle, '_') + [tld];
    assert Split(stem, '_') == parts by {
      SplitThree(first, middle, tld);
    }
    assert Join(parts[1..|parts| - 1], "_") == middle by {
      assert parts[1..|parts| - 1] == Split(middle, '_');
      JoinSplit(middle, '_');
    }
    assert parts[0] == first && parts[|parts| - 1] == tld;
    assert first + "@" + middle == first + "@" + second + "_" + name by {
      AppendAssoc(first + "@", second + "_", name);
      AppendAssoc(first + "@", second, "_");
    }
    ViewsEmailOfParts(SessionFileName(email), parts, first + "@" + middle + "." + tld);
  }

  /** So a stored `first.second@name.tld`, as the only account, loses its
      own session file to the clean-up. */
  lemma DottedSessionDeleted(first: string, second: string, name: string, tld: string)
    requires NoSeparators(first) && NoSeparators(second) && NoSeparators(name) && NoSeparators(tld)
    ensures var email := first + "." + second + "@" + name + "." + tld;
      SessionFileName(email) in Orphans(Filter([SessionFileName(email)], IsJson), {email}, ViewsEmail)
  {
    var email := first + "." + second + "@" + name + "." + tld;
    DottedLocalRebuilt(first, second, name, tld);
    var rebuilt := first + "@" + second + "_" + name + "." + tld;
    assert rebuilt[|first|] == '@' && email[|first|] == '.';
    OrphansMembers(Filter([SessionFileName(email)], IsJson), {email}, ViewsEmail);
  }

  // ---------------------------------------------------------------------
  // The upload loop

  /** The address and password of a line the view keeps: any stripped line
      holding ':' (a leading '#' does not make it a comment here), split at
      its first ':' with both sides stripped. Empty sides are not refused. */
  function ViewLine(raw: string): Option<(string, string)>
  {
    var line := Strip(raw);
    if line == "" || ':' !in line then None
    else
      var halves := SplitFirst(line, ':');
      Some((Strip(halves.0), Strip(halves.1)))
  }

  predicate KeptByView(raw: string) {
    ViewLine(raw).Some?
  }

  /** An entry of `accounts_to_process`: the address and whether
      `get_or_create` created its row. */
  datatype Processed = Processed(email: string, created: bool)

  datatype Upserted = Upserted(processed: seq<Processed>, table: Accounts)

  /** One iteration: a new address is created with the line's password; an
      existing one has its password overwritten. */
  function UpsertStep(u: Upserted, raw: string): Upserted
  {
    match ViewLine(raw)
    case None => u
    case Some((email, password)) =>
      Upserted(u.processed + [Processed(email, email !in u.table)], u.table[email := password])
  }

  function Upsert(lines: seq<string>, table: Accounts): Upserted
  {
    if lines == [] then Upserted([], table)
    else UpsertStep(Upsert(lines[..|lines| - 1], table), lines[|lines| - 1])
  }

  /** The outcome of one visit to the upload page: the page, or a server
      error raised after the clean-up. */
  datatype UploadPage =
    | UploadPage(removed: seq<string>, message: Option<string>, processed: seq<Processed>, table: Accounts)
    | Crashed(removed: seq<string>)

  function UploadedMessage(n: nat): string {
    "Uploaded " + NatToString(n) + " accounts. Sessions are being created in background."
  }

  /** The uploaded file as the view reads it: no valid form (a page view, or
      a form without a file), bytes that are not UTF-8, or the decoded text. */
  datatype UploadedFile = NoFile | Undecodable | Decoded(content: string)

  /** `bulk_upload_accounts`: the clean-up, then, for a valid upload, the
      loop over `content.strip().split('\n')`. Decoding is outside any
      `try`, so a file that is not UTF-8 ends the request with a server
      error, the clean-up already done and no row written. */
  method BulkUploadAccounts(listing: Option<seq<string>>, file: UploadedFile, table: Accounts)
    returns (page: UploadPage)
    ensures listing.None? ==> page.removed == []
    ensures listing.Some? ==> page.removed == Orphans(Filter(listing.value, IsJson), table.Keys, ViewsEmail)
    ensures file.NoFile? ==> page.UploadPage? && page.message.None? && page.processed == [] && page.table == table
    ensures file.Undecodable? ==> page.Crashed?
    ensures file.Decoded? ==>
      var u := Upsert(Split(Strip(file.content), '\n'), table);
      && page.UploadPage?
      && page.processed == u.processed && page.table == u.table
      && page.message == Some(UploadedMessage(|u.processed|))
  {
    var removed := CleanupOrphanedSessions(listing, table.Keys);
    if file.NoFile? {
      return UploadPage(removed, None, [], table);
    }
    if file.Undecodable? {
      return Crashed(removed);
    }
    var lines := Split(Strip(file.content), '\n');
    var accountsToProcess: seq<Processed> := [];
    var rows := table;
    for n := 0 to |lines|
      invariant Upserted(accountsToProcess, rows) == Upsert(lines[..n], table)
    {
      assert lines[..n + 1][..n] == lines[..n];
      match ViewLine(lines[n])
      case None =>
      case Some((email, password)) =>
        var created := email !in rows;
        rows := rows[email := password];
        accountsToProcess := accountsToProcess + [Processed(email, created)];
    }
    assert lines[..|lines|] == lines;
    page := UploadPage(removed, Some(UploadedMessage(|accountsToProcess|)), accountsToProcess, rows);
  }

  /** One entry per kept line, in file order. */
  lemma {:induction false} UpsertOnePerLine(lines: seq<string>, table: Accounts)
    ensures |Upsert(lines, table).processed| == |Filter(lines, KeptByView)|
  {
    if lines != [] {
      var init := lines[..|lines| - 1];
      UpsertOnePerLine(init, table);
      assert init + [lines[|lines| - 1]] == lines;
      FilterAppend(init, [lines[|lines| - 1]], KeptByView);
    }
  }

  /** The addresses of the processed entries, in order. */
  function Emails(ps: seq<Processed>): (r: seq<string>)
    ensures |r| == |ps| && forall i :: 0 <= i < |ps| ==> r[i] == ps[i].email
  {
    seq(|ps|, i requires 0 <= i < |ps| => ps[i].email)
  }

  /** The table afterwards holds exactly the old addresses and the
      processed ones. */
  lemma {:induction false} UpsertKeys(lines: seq<string>, table: Accounts)
    ensures var u := Upsert(lines, table);
      forall e :: e in u.table <==> e in table || e in Emails(u.processed)
  {
    if lines != [] {
      var u := Upsert(lines[..|lines| - 1], table);
      UpsertKeys(lines[..|lines| - 1], table);
      var raw := lines[|lines| - 1];
      assert Upsert(lines, table) == UpsertStep(u, raw);
      match ViewLine(raw)
      case None =>
      case Some((email, password)) =>
        assert Emails(u.processed + [Processed(email, email !in u.table)]) == Emails(u.processed) + [email];
    }
  }

  /** An entry is flagged created iff its address was neither stored
      before nor met earlier in the file. */
  lemma {:induction false} UpsertCreatedFlags(lines: seq<string>, table: Accounts)
    ensures var ps := Upsert(lines, table).processed;
      forall i :: 0 <= i < |ps| ==>
        (ps[i].created <==> ps[i].email !in table && ps[i].email !in Emails(ps[..i]))
  {
    if lines != [] {
      var u := Upsert(lines[..|lines| - 1], table);
      UpsertCreatedFlags(lines[..|lines| - 1], table);
      UpsertKeys(lines[..|lines| - 1], table);
      var raw := lines[|lines| - 1];
      assert Upsert(lines, table) == UpsertStep(u, raw);
      match ViewLine(raw)
      case None =>
      case Some((email, password)) =>
        var ps := u.processed + [Processed(email, email !in u.table)];
        assert ps[..|u.processed|] == u.processed;
        assert forall i :: 0 <= i < |u.processed| ==> ps[i] == u.processed[i] && ps[..i] == u.processed[..i];
    }
  }

  /** Whether a raw line is kept and names the address `e`. */
  predicate Names(raw: string, e: string) {
    ViewLine(raw).Some? && ViewLine(raw).value.0 == e
  }

  /** Line `j` is kept and no later line names its address again. */
  predicate LastNaming(lines: seq<string>, j: nat)
    requires j < |lines|
  {
    ViewLine(lines[j]).Some? && forall k :: j < k < |lines| ==> !Names(lines[k], ViewLine(lines[j]).value.0)
  }

  /** The table after one more line: the line's address set to its
      password, when the line is kept. */
  lemma UpsertLast(lines: seq<string>, table: Accounts)
    requires lines != []
    ensures var last := lines[|lines| - 1];
      var u := Upsert(lines[..|lines| - 1], table).table;
      Upsert(lines, table).table ==
        if ViewLine(last).Some? then u[ViewLine(last).value.0 := ViewLine(last).value.1] else u
  {
  }

  /** Every address of the upload ends up with the password of the last
      line naming it. */
  lemma UpsertLastWins(lines: seq<string>, table: Accounts)
    ensures var t := Upsert(lines, table).table;
      forall j :: 0 <= j < |lines| && LastNaming(lines, j) ==>
        ViewLine(lines[j]).value.0 in t && t[ViewLine(lines[j]).value.0] == ViewLine(lines[j]).value.1
  {
    forall j | 0 <= j < |lines| && LastNaming(lines, j)
      ensures var t := Upsert(lines, table).table;
        ViewLine(lines[j]).value.0 in t && t[ViewLine(lines[j]).value.0] == ViewLine(lines[j]).value.1
    {
      LastWinsAt(lines, table, j);
    }
  }

  lemma {:induction false} LastWinsAt(lines: seq<string>, table: Accounts, j: nat)
    requires j < |lines| && LastNaming(lines, j)
    ensures var t, line := Upsert(lines, table).table, ViewLine(lines[j]).value;
      line.0 in t && t[line.0] == line.1
  {
    var n := |lines|;
    var init := lines[..n - 1];
    var line := ViewLine(lines[j]).value;
    UpsertLast(lines, table);
    if j < n - 1 {
      assert init[j] == lines[j];
      assert LastNaming(init, j) by {
        assert forall k :: j < k < n - 1 ==> init[k] == lines[k];
      }
      LastWinsAt(init, table, j);
      assert !Names(lines[n - 1], line.0);
    }
  }

  /** An address no line names keeps its row, or its absence, as it was. */
  lemma {:induction false} UpsertUnnamedKept(lines: seq<string>, table: Accounts, e: string)
    requires forall j :: 0 <= j < |lines| ==> !Names(lines[j], e)
    ensures var t := Upsert(lines, table).table;
      (e in t <==> e in table) && (e in table ==> t[e] == table[e])
  {
    if lines != [] {
      var n := |lines|;
      var init := lines[..n - 1];
      assert forall j :: 0 <= j < n - 1 ==> init[j] == lines[j];
      UpsertUnnamedKept(init, table, e);
      UpsertLast(lines, table);
      assert !Names(lines[n - 1], e);
    }
  }

  /** A commented-out line with a ':' is ignored by the API upload but
      processed here, '#' and all. */
  lemma CommentedLineProcessed(email: string, password: string)
    requires AccountApi.PlainPair(email, password)
    ensures AccountApi.Classify("#" + email + ":" + password) == AccountApi.Ignored
    ensures ViewLine("#" + email + ":" + password) == Some(("#" + email, password))
  {
    var line := "#" + email + ":" + password;
    assert line == ("#" + email) + [':'] + password;
    assert StartsWith(line, "#");
    assert '#' != ':';
    StripOfTrimmed(line);
    SplitFirstOf("#" + email, ':', password);
    StripOfTrimmed("#" + email);
    StripOfTrimmed(password);
  }

  // ---------------------------------------------------------------------
  // The background login pass

  /** A browser login started for `email` with the stored password (`None`
      when the row no longer exists). */
  datatype Login = Login(email: string, password: Option<string>)

  function Lookup(table: Accounts, email: string): Option<string> {
    if email in table then Some(table[email]) else None
  }

  /** The logins `process_sessions` starts: every processed address, in
      order, whose session file does not exist yet. */
  function Logins(processed: seq<Processed>, sessionFiles: set<string>, table: Accounts): (r: seq<Login>)
    ensures |r| <= |processed|
    ensures forall j :: 0 <= j < |r| ==>
      SessionFileName(r[j].email) !in sessionFiles && r[j].password == Lookup(table, r[j].email)
  {
    if processed == [] then []
    else
      var last := processed[|processed| - 1];
      Logins(processed[..|processed| - 1], sessionFiles, table) +
        (if SessionFileName(last.email) in sessionFiles then [] else [Login(last.email, Lookup(table, last.email))])
  }

  function LoginEmails(r: seq<Login>): (es: seq<string>)
    ensures |es| == |r| && forall j :: 0 <= j < |r| ==> es[j] == r[j].email
  {
    seq(|r|, j requires 0 <= j < |r| => r[j].email)
  }

  /** A login is started for a processed address iff it has no session file. */
  lemma {:induction false} LoginsSkipExisting(processed: seq<Processed>, sessionFiles: set<string>, table: Accounts)
    ensures forall e :: e in LoginEmails(Logins(processed, sessionFiles, table)) <==>
      e in Emails(processed) && SessionFileName(e) !in sessionFiles
  {
    if processed != [] {
      var init := processed[..|processed| - 1];
      var last := processed[|processed| - 1];
      LoginsSkipExisting(init, sessionFiles, table);
      var r := Logins(init, sessionFiles, table);
      assert Emails(processed) == Emails(init) + [last.email];
      if SessionFileName(last.email) !in sessionFiles {
        var login := Login(last.email, Lookup(table, last.email));
        assert Logins(processed, sessionFiles, table) == r + [login];
        assert LoginEmails(r + [login]) == LoginEmails(r) + [last.email];
      } else {
        assert Logins(processed, sessionFiles, table) == r + [];
        assert r + [] == r;
      }
    }
  }

  /** Whether the `k`-th call of `save_session` in a pass writes its
      session file: the outcome of the browser login. */
  type SaveOutcomes = nat -> bool

  /** The call as `process_sessions` makes it: it passes the address and
      the password, but the `save_session` it imports takes the address
      alone, so every call raises a TypeError before a browser opens; the
      handler reports the failure and nothing is written. */
  function CallAsWritten(k: nat): bool {
    false
  }

  /** A call that logs in and saves its session every time. */
  function AlwaysSaves(k: nat): bool {
    true
  }

  /** The pass so far: the logins started and the names in the sessions
      directory. */
  datatype Pass = Pass(logins: seq<Login>, files: set<string>)

  /** The session files written by the logins whose call saved. */
  function SavedFiles(logins: seq<Login>, saves: SaveOutcomes): set<string> {
    set j | 0 <= j < |logins| && saves(j) :: SessionFileName(logins[j].email)
  }

  /** `process_sessions` over the directory as it changes: an entry whose
      session file exists when it is reached is skipped; otherwise a login
      is started with the stored password, and its file appears when the
      call saves it. */
  function LoginPass(processed: seq<Processed>, files: set<string>, table: Accounts, saves: SaveOutcomes): (p: Pass)
    ensures files <= p.files
    ensures |p.logins| <= |processed|
    ensures forall j :: 0 <= j < |p.logins| ==>
      SessionFileName(p.logins[j].email) !in files && p.logins[j].password == Lookup(table, p.logins[j].email)
  {
    if processed == [] then Pass([], files)
    else
      var prev := LoginPass(processed[..|processed| - 1], files, table, saves);
      var last := processed[|processed| - 1];
      var name := SessionFileName(last.email);
      if name in prev.files then prev
      else Pass(prev.logins + [Login(last.email, Lookup(table, last.email))],
                if saves(|prev.logins|) then prev.files + {name} else prev.files)
  }

  /** The directory after the pass holds the files it started with and
      exactly those the saving logins wrote. */
  lemma {:induction false} PassFiles(processed: seq<Processed>, files: set<string>, table: Accounts, saves: SaveOutcomes)
    ensures var p := LoginPass(processed, files, table, saves);
      p.files == files + SavedFiles(p.logins, saves)
  {
    if processed != [] {
      var init := processed[..|processed| - 1];
      var prev := LoginPass(init, files, table, saves);
      PassFiles(init, files, table, saves);
      var last := processed[|processed| - 1];
      var name := SessionFileName(last.email);
      if name !in prev.files {
        var logins := prev.logins + [Login(last.email, Lookup(table, last.email))];
        var n := |prev.logins|;
        assert forall j :: 0 <= j < n ==> logins[j] == prev.logins[j];
        assert SavedFiles(logins, saves) ==
          SavedFiles(prev.logins, saves) + (if saves(n) then {name} else {}) by {
          assert logins[n].email == last.email;
        }
      }
    }
  }

  /** Once a login has saved its session, no later entry whose address
      maps to the same file starts another: the directory is checked
      again before each entry. */
  lemma {:induction false} SavedNotRepeated(processed: seq<Processed>, files: set<string>, table: Accounts, saves: SaveOutcomes)
    ensures var p := LoginPass(processed, files, table, saves);
      forall j, k :: 0 <= j < k < |p.logins| && saves(j) ==>
        SessionFileName(p.logins[j].email) != SessionFileName(p.logins[k].email)
  {
    if processed != [] {
      var init := processed[..|processed| - 1];
      var prev := LoginPass(init, files, table, saves);
      SavedNotRepeated(init, files, table, saves);
      PassFiles(init, files, table, saves);
      var last := processed[|processed| - 1];
      var name := SessionFileName(last.email);
      if name !in prev.files {
        var logins := prev.logins + [Login(last.email, Lookup(table, last.email))];
        var n := |prev.logins|;
        forall j | 0 <= j < n && saves(j)
          ensures SessionFileName(logins[j].email) != SessionFileName(logins[n].email)
        {
          assert SessionFileName(prev.logins[j].email) in SavedFiles(prev.logins, saves);
        }
      }
    }
  }

  /** When every call saves, each session file is logged in at most once,
      however often the upload names its address. */
  lemma AlwaysSavesOnce(processed: seq<Processed>, files: set<string>, table: Accounts)
    ensures var p := LoginPass(processed, files, table, AlwaysSaves);
      forall j, k :: 0 <= j < k < |p.logins| ==>
        SessionFileName(p.logins[j].email) != SessionFileName(p.logins[k].email)
  {
    SavedNotRepeated(processed, files, table, AlwaysSaves);
  }

  /** As written nothing is ever saved, so the directory does not change
      during the pass and the logins are those its first state calls for:
      an address listed twice is logged in twice. */
  lemma {:induction false} PassAsWritten(processed: seq<Processed>, files: set<string>, table: Accounts)
    ensures LoginPass(processed, files, table, CallAsWritten) == Pass(Logins(processed, files, table), files)
  {
    if processed != [] {
      PassAsWritten(processed[..|processed| - 1], files, table);
    }
  }

  /** `process_sessions`: the sessions directory holds `sessionFiles` when
      the pass starts and is checked again before each entry; `saves`
      gives the outcome of each call of `save_session`, `CallAsWritten`
      for the call as the source makes it. */
  method ProcessSessions(accountsList: seq<Processed>, sessionFiles: set<string>, table: Accounts, saves: SaveOutcomes)
    returns (logins: seq<Login>, files: set<string>)
    ensures Pass(logins, files) == LoginPass(accountsList, sessionFiles, table, saves)
  {
    logins := [];
    files := sessionFiles;
    for n := 0 to |accountsList|
      invariant Pass(logins, files) == LoginPass(accountsList[..n], sessionFiles, table, saves)
    {
      assert accountsList[..n + 1][..n] == accountsList[..n];
      var email := accountsList[n].email;
      var sessionFile := SessionFileName(email);
      if sessionFile in files {
        continue;
      }
      var password: Option<string> := None;
      if email in table {
        password := Some(table[email]);
      }
      var saved := saves(|logins|);
      logins := logins + [Login(email, password)];
      if saved {
        files := files + {sessionFile};
      }
    }
    assert accountsList[..|accountsList|] == accountsList;
  }
}
