/** The status and health endpoints: the server-sent event stream that
    follows a posting job, the error-log listing with its `limit` parameter,
    the health check over all accounts and the check of one account's
    session file. The job and log tables, the clock and the session files
    are inputs. */
module RealtimeViews {

  import opened Common
  import opened Text
  import opened SessionNames

  // ---------------------------------------------------------------------
  // The status stream

  const MaxIterations: nat := 600
  const JobNotFound: string := "Job not found"

  /** The fields of a posting job the stream looks at. */
  datatype Job = Job(completedPosts: int, status: string)

  /** What one poll of the job table gives: no job, an exception with its
      message, or the job. */
  datatype Poll = Missing | Failure(message: string) | Found(job: Job)

  /** The stream's `data:` events. */
  datatype Event =
    | ErrorEvent(message: string)     // {"error": ...}
    | Snapshot(job: Job)              // the serialized job
    | Complete                        // {"status": "complete", "final": true}
    | Closed                          // {"status": "stream_closed"}

  predicate Finished(job: Job) {
    job.status == "completed" || job.status == "failed"
  }

  /** A snapshot is sent when the completed count changed since the last
      one sent, and on every fifth iteration. */
  predicate Emits(job: Job, k: nat, last: int) {
    job.completedPosts != last || k % 5 == 0
  }

  /** The events from iteration `k` on, `last` being the completed count
      last sent; `poll(k)` is what the job table gives at iteration `k`. */
  function Stream(poll: nat -> Poll, k: nat, last: int): seq<Event>
    decreases MaxIterations - k
  {
    if k >= MaxIterations then [Closed]
    else match poll(k)
      case Missing => [ErrorEvent(JobNotFound), Closed]
      case Failure(message) => [ErrorEvent(message), Closed]
      case Found(job) =>
        if Finished(job) then Sent(job, k, last) + [Complete, Closed]
        else Sent(job, k, last) + Stream(poll, k + 1, LastSent(job, k, last))
  }

  /** What iteration `k` sends for the job: its snapshot, or nothing. */
  function Sent(job: Job, k: nat, last: int): seq<Event> {
    if Emits(job, k, last) then [Snapshot(job)] else []
  }

  /** The completed count last sent, after iteration `k`. */
  function LastSent(job: Job, k: nat, last: int): int {
    if Emits(job, k, last) then job.completedPosts else last
  }

  /** One iteration of the stream, unfolded. */
  lemma StreamUnfold(poll: nat -> Poll, k: nat, last: int)
    requires k < MaxIterations
    ensures poll(k).Missing? ==> Stream(poll, k, last) == [ErrorEvent(JobNotFound), Closed]
    ensures poll(k).Failure? ==> Stream(poll, k, last) == [ErrorEvent(poll(k).message), Closed]
    ensures poll(k).Found? && Finished(poll(k).job) ==>
      Stream(poll, k, last) == Sent(poll(k).job, k, last) + [Complete, Closed]
    ensures poll(k).Found? && !Finished(poll(k).job) ==>
      Stream(poll, k, last) == Sent(poll(k).job, k, last) + Stream(poll, k + 1, LastSent(poll(k).job, k, last))
  {
  }

  /** One iteration of the stream, after `events` were sent. */
  lemma StreamStep(poll: nat -> Poll, k: nat, last: int, events: seq<Event>)
    requires k < MaxIterations && Stream(poll, 0, -1) == events + Stream(poll, k, last)
    ensures poll(k).Failure? ==> Stream(poll, 0, -1) == events + [ErrorEvent(poll(k).message)] + [Closed]
    ensures poll(k).Missing? ==> Stream(poll, 0, -1) == events + [ErrorEvent(JobNotFound)] + [Closed]
    ensures poll(k).Found? && Finished(poll(k).job) ==>
      Stream(poll, 0, -1) == events + Sent(poll(k).job, k, last) + [Complete] + [Closed]
    ensures poll(k).Found? && !Finished(poll(k).job) ==>
      Stream(poll, 0, -1) == events + Sent(poll(k).job, k, last) + Stream(poll, k + 1, LastSent(poll(k).job, k, last))
  {
    StreamUnfold(poll, k, last);
    match poll(k)
    case Missing =>
      AppendAssoc(events, [ErrorEvent(JobNotFound)], [Closed]);
    case Failure(message) =>
      AppendAssoc(events, [ErrorEvent(message)], [Closed]);
    case Found(job) =>
      var sent := Sent(job, k, last);
      if Finished(job) {
        AppendAssoc(events, sent, [Complete, Closed]);
        AppendAssoc(events + sent, [Complete], [Closed]);
      } else {
        AppendAssoc(events, sent, Stream(poll, k + 1, LastSent(job, k, last)));
      }
  }

  /** `event_stream`: the events of one connection. */
  method EventStream(poll: nat -> Poll) returns (events: seq<Event>)
    ensures events == Stream(poll, 0, -1)
  {
    var lastCompleted := -1;
    var iteration: nat := 0;
    events := [];
    while iteration < MaxIterations
      invariant iteration <= MaxIterations
      invariant Stream(poll, 0, -1) == events + Stream(poll, iteration, lastCompleted)
      decreases MaxIterations - iteration
    {
      var outcome := poll(iteration);
      StreamStep(poll, iteration, lastCompleted, events);
      if outcome.Failure? {
        // the exception's message, then the close event after the loop
        return events + [ErrorEvent(outcome.message)] + [Closed];
      }
      if outcome.Missing? {
        return events + [ErrorEvent(JobNotFound)] + [Closed];
      }
      var job := outcome.job;
      var sent := Sent(job, iteration, lastCompleted);
      var next := LastSent(job, iteration, lastCompleted);
      if Finished(job) {
        return events + sent + [Complete] + [Closed];
      }
      events := events + sent;
      lastCompleted := next;
      iteration := iteration + 1;
    }
    events := events + [Closed];
  }

  /** Every stream ends with exactly one `Closed`; an error or `Complete`
      event can only come just before it, and everything earlier is a
      snapshot. */
  ghost predicate WellShaped(s: seq<Event>) {
    && |s| >= 1 && s[|s| - 1] == Closed
    && (forall i :: 0 <= i < |s| - 2 ==> s[i].Snapshot?)
    && (forall i :: 0 <= i < |s| - 1 ==> !s[i].Closed?)
  }

  lemma {:induction false} StreamShape(poll: nat -> Poll, k: nat, last: int)
    ensures WellShaped(Stream(poll, k, last))
    decreases MaxIterations - k
  {
    if k < MaxIterations && poll(k).Found? && !Finished(poll(k).job) {
      var job := poll(k).job;
      var next := if Emits(job, k, last) then job.completedPosts else last;
      StreamShape(poll, k + 1, next);
    }
  }

  /** The stream reads the job table at most 600 times: two pollings that
      agree on the first 600 iterations give the same events. */
  lemma {:induction false} StreamPollsAtMost600(poll: nat -> Poll, other: nat -> Poll, k: nat, last: int)
    requires forall j :: k <= j < MaxIterations ==> poll(j) == other(j)
    ensures Stream(poll, k, last) == Stream(other, k, last)
    decreases MaxIterations - k
  {
    if k < MaxIterations && poll(k).Found? && !Finished(poll(k).job) {
      var job := poll(k).job;
      StreamPollsAtMost600(poll, other, k + 1, if Emits(job, k, last) then job.completedPosts else last);
    }
  }

  /** The first poll that finds the job always sends it. */
  lemma FirstPollSends(poll: nat -> Poll)
    requires poll(0).Found?
    ensures Stream(poll, 0, -1)[0] == Snapshot(poll(0).job)
  {
  }

  /** A job that is finished when first polled gives exactly its snapshot,
      `Complete` and `Closed`. */
  lemma FinishedAtOnce(poll: nat -> Poll)
    requires poll(0).Found? && Finished(poll(0).job)
    ensures Stream(poll, 0, -1) == [Snapshot(poll(0).job), Complete, Closed]
  {
  }

  /** A job that never changes and never finishes, from an iteration that
      is not a multiple of 5: one snapshot per later multiple of 5, then
      `Closed`. */
  lemma {:induction false} QuietJob(poll: nat -> Poll, job: Job, k: nat)
    requires forall j :: poll(j) == Found(job)
    requires !Finished(job) && k <= MaxIterations && (k % 5 != 0 || k == MaxIterations)
    ensures |Stream(poll, k, job.completedPosts)| == (MaxIterations - k) / 5 + 1
    decreases MaxIterations - k
  {
    if k < MaxIterations {
      var next := k + 1;
      assert Stream(poll, k, job.completedPosts) == Stream(poll, next, job.completedPosts);
      QuietCount(k);
      if next % 5 == 0 && next < MaxIterations {
        QuietJob(poll, job, next + 1);
        assert Stream(poll, next, job.completedPosts) ==
          [Snapshot(job)] + Stream(poll, next + 1, job.completedPosts);
      } else {
        QuietJob(poll, job, next);
      }
    }
  }

  /** The counting step of `QuietJob`: an iteration off the multiples of 5
      leaves the number of multiples ahead unchanged. */
  lemma QuietCount(k: nat)
    requires k < MaxIterations && k % 5 != 0
    ensures (k + 1) % 5 == 0 && k + 1 < MaxIterations ==>
      (k + 2) % 5 != 0 && (MaxIterations - k) / 5 == (MaxIterations - k - 2) / 5 + 1
    ensures (k + 1) % 5 != 0 ==> (MaxIterations - k) / 5 == (MaxIterations - k - 1) / 5
  {
    var q := k / 5;
    assert k == 5 * q + k % 5;
  }

  /** So a connection to such a job sees 120 snapshots, at iterations 0, 5,
      ..., 595, and then `Closed`. */
  lemma QuietJobFromStart(poll: nat -> Poll, job: Job)
    requires forall j :: poll(j) == Found(job)
    requires !Finished(job)
    ensures |Stream(poll, 0, -1)| == 121
  {
    assert poll(0) == Found(job);
    assert Emits(job, 0, -1);
    assert Stream(poll, 0, -1) == [Snapshot(job)] + Stream(poll, 1, job.completedPosts);
    QuietJob(poll, job, 1);
    assert (MaxIterations - 1) / 5 + 1 == 120;
  }

  // ---------------------------------------------------------------------
  // Error logs

  const DefaultLimit: nat := 50

  datatype ErrorLog = ErrorLog(postId: int, errorType: string)

  datatype LogsReply =
    | Logs(count: nat, errorLogs: seq<ErrorLog>)
    | ServerError    // a `post_id` that is no integer, or a negative limit

  /** The `limit` query parameter: 50 when absent or not an integer. */
  function Limit(param: Option<string>): int
  {
    match param
    case None => DefaultLimit
    case Some(text) =>
      match ParseInt(text)
      case None => DefaultLimit
      case Some(n) => n
  }

  /** Every integer written out is taken as the limit. */
  lemma LimitOfInteger(n: int)
    ensures Limit(Some(IntToString(n))) == n
  {
    IntRoundTrip(n);
  }

  lemma LimitOfText()
    ensures Limit(Some("ten")) == DefaultLimit && Limit(Some("")) == DefaultLimit
  {
    assert Strip("ten") == "ten" && !DigitOrSeparator("ten", 0);
    assert Strip("") == "";
  }

  /** Whether a log passes the filters: the post id when one is asked for,
      the error type when a non-empty one is asked for. */
  predicate Matches(log: ErrorLog, postId: Option<int>, errorType: Option<string>) {
    && (postId.None? || log.postId == postId.value)
    && (errorType.None? || errorType.value == "" || log.errorType == errorType.value)
  }

  /** The filtered query set: exactly the matching logs, in table order. */
  function LogsFor(logs: seq<ErrorLog>, postId: Option<int>, errorType: Option<string>): (r: seq<ErrorLog>)
    ensures |r| <= |logs|
    ensures forall l :: l in r <==> l in logs && Matches(l, postId, errorType)
  {
    Filter(logs, (l: ErrorLog) => Matches(l, postId, errorType))
  }

  /** Table order is kept: the logs of a front part of the table come before
      those of the rest. With `LogsForOne`, this pins the filtered list down. */
  lemma LogsForKeepsOrder(front: seq<ErrorLog>, back: seq<ErrorLog>, postId: Option<int>, errorType: Option<string>)
    ensures LogsFor(front + back, postId, errorType) == LogsFor(front, postId, errorType) + LogsFor(back, postId, errorType)
  {
    FilterAppend(front, back, (l: ErrorLog) => Matches(l, postId, errorType));
  }

  /** A single log is listed exactly when it matches. */
  lemma LogsForOne(log: ErrorLog, postId: Option<int>, errorType: Option<string>)
    ensures LogsFor([log], postId, errorType) == if Matches(log, postId, errorType) then [log] else []
  {
    assert [log][1..] == [];
  }

  /** The `post_id` filter: none when the parameter is absent or empty, the
      id when it is an integer, and `None` when the lookup cannot convert it
      (Django raises, and the view answers 500). */
  function PostFilter(param: Option<string>): Option<Option<int>>
  {
    if param.None? || param.value == "" then Some(None)
    else match ParseInt(param.value)
      case None => None
      case Some(n) => Some(Some(n))
  }

  /** `get_error_logs`: the optional filters (an empty `post_id` or
      `error_type` filters nothing), then at most `limit` logs in table
      order. */
  function GetErrorLogs(logs: seq<ErrorLog>, postId: Option<string>, errorType: Option<string>, limit: Option<string>): (r: LogsReply)
    ensures r.ServerError? <==> PostFilter(postId).None? || Limit(limit) < 0
    ensures r.Logs? ==>
      var matching := LogsFor(logs, PostFilter(postId).value, errorType);
      && r.count == |r.errorLogs|
      && r.count == (if |matching| < Limit(limit) then |matching| else Limit(limit))
      && r.errorLogs == matching[..r.count]
  {
    var filter := PostFilter(postId);
    var n := Limit(limit);
    if filter.None? || n < 0 then ServerError
    else
      var selected := LogsFor(logs, filter.value, errorType);
      var shown := if n < |selected| then selected[..n] else selected;
      Logs(|shown|, shown)
  }

  /** An integer `post_id` lists only that post's logs. */
  lemma PostIdOfInteger(logs: seq<ErrorLog>, n: int, errorType: Option<string>, limit: Option<string>)
    ensures PostFilter(Some(IntToString(n))) == Some(Some(n))
    ensures var r := GetErrorLogs(logs, Some(IntToString(n)), errorType, limit);
      r.Logs? ==> forall l :: l in r.errorLogs ==> l.postId == n
  {
    IntRoundTrip(n);
    var r := GetErrorLogs(logs, Some(IntToString(n)), errorType, limit);
    if r.Logs? {
      var matching := LogsFor(logs, Some(n), errorType);
      assert r.errorLogs == matching[..r.count];
      forall l | l in r.errorLogs ensures l.postId == n {
        assert l in matching;
      }
    }
  }

  /** A `post_id` that is no integer is a server error, whatever the other
      parameters. */
  lemma PostIdOfText(logs: seq<ErrorLog>, errorType: Option<string>, limit: Option<string>)
    ensures GetErrorLogs(logs, Some("abc"), errorType, limit).ServerError?
  {
    assert Strip("abc") == "abc" && !DigitOrSeparator("abc", 0);
  }

  /** Without a `limit`, at most 50 logs come back. */
  lemma AtMostFiftyByDefault(logs: seq<ErrorLog>, postId: Option<string>, errorType: Option<string>)
    requires PostFilter(postId).Some?
    ensures GetErrorLogs(logs, postId, errorType, None).Logs?
    ensures GetErrorLogs(logs, postId, errorType, None).count <= DefaultLimit
  {
  }

  // ---------------------------------------------------------------------
  // Health check

  datatype Health = Healthy | Warning | Error

  datatype Account = Account(id: int, email: string)

  /** A post row as the statistics count it. */
  datatype PostRow = PostRow(accountId: int, posted: bool, status: string)

  datatype AccountHealth = AccountHealth(
    accountId: int, email: string, sessionExists: bool, sessionValid: bool,
    totalPosts: nat, postedCount: nat, failedCount: nat, health: Health)

  function CountWhere(posts: seq<PostRow>, accountId: int, posted: bool, failed: bool): (n: nat)
    ensures n <= |posts|
  {
    if posts == [] then 0
    else
      var p := posts[0];
      (if p.accountId == accountId && (!posted || p.posted) && (!failed || p.status == "failed") then 1 else 0)
        + CountWhere(posts[1..], accountId, posted, failed)
  }

  /** The rule of `health_status`, with validity equal to existence. */
  function HealthOf(sessionExists: bool, sessionValid: bool): (h: Health)
    ensures sessionValid == sessionExists ==> h != Warning
    ensures h == Healthy <==> sessionValid
  {
    if sessionValid then Healthy else if sessionExists then Warning else Error
  }

  function CheckAccount(account: Account, sessionFiles: set<string>, posts: seq<PostRow>): (r: AccountHealth)
    ensures r.health == Healthy <==> SessionFileName(account.email) in sessionFiles
    ensures r.health != Warning
  {
    var present := SessionFileName(account.email) in sessionFiles;
    AccountHealth(account.id, account.email, present, present,
      CountWhere(posts, account.id, false, false),
      CountWhere(posts, account.id, true, false),
      CountWhere(posts, account.id, false, true),
      HealthOf(present, present))
  }

  /** `health_check_accounts`' loop over the accounts. */
  method CheckAccounts(accounts: seq<Account>, sessionFiles: set<string>, posts: seq<PostRow>)
    returns (results: seq<AccountHealth>)
    ensures |results| == |accounts|
    ensures forall i :: 0 <= i < |accounts| ==> results[i] == CheckAccount(accounts[i], sessionFiles, posts)
  {
    results := [];
    for n := 0 to |accounts|
      invariant |results| == n
      invariant forall i :: 0 <= i < n ==> results[i] == CheckAccount(accounts[i], sessionFiles, posts)
    {
      var account := accounts[n];
      var sessionExists := SessionFileName(account.email) in sessionFiles;
      var sessionValid := sessionExists;
      var totalPosts := CountWhere(posts, account.id, false, false);
      var postedCount := CountWhere(posts, account.id, true, false);
      var failedCount := CountWhere(posts, account.id, false, true);
      var health := if sessionValid then Healthy else if sessionExists then Warning else Error;
      results := results + [AccountHealth(account.id, account.email, sessionExists, sessionValid,
                                          totalPosts, postedCount, failedCount, health)];
    }
  }

  function Count(results: seq<AccountHealth>, h: Health): (n: nat)
    ensures n <= |results|
  {
    if results == [] then 0
    else (if results[0].health == h then 1 else 0) + Count(results[1..], h)
  }

  /** The three summary counts add up to the number of accounts. */
  lemma {:induction false} CountsSum(results: seq<AccountHealth>)
    ensures Count(results, Healthy) + Count(results, Warning) + Count(results, Error) == |results|
  {
    if results != [] {
      CountsSum(results[1..]);
    }
  }

  lemma {:induction false} CountZero(results: seq<AccountHealth>, h: Health)
    ensures Count(results, h) == 0 <==> forall i :: 0 <= i < |results| ==> results[i].health != h
  {
    if results != [] {
      CountZero(results[1..], h);
      assert forall i :: 1 <= i < |results| ==> results[i] == results[1..][i - 1];
    }
  }

  datatype Summary = Summary(overall: Health, total: nat, healthy: nat, warning: nat, error: nat)

  /** The reply's `overall_health` and `summary`. */
  function Summarize(results: seq<AccountHealth>): Summary {
    var healthy, warning, error := Count(results, Healthy), Count(results, Warning), Count(results, Error);
    Summary(if error == 0 then Healthy else if healthy > 0 then Warning else Error,
            |results|, healthy, warning, error)
  }

  /** Overall health is healthy iff no account is in error (so an empty
      list is healthy), a warning iff some are in error and some healthy,
      and an error iff some are in error and none is healthy. */
  lemma OverallHealth(results: seq<AccountHealth>)
    ensures var s := Summarize(results);
      && s.healthy + s.warning + s.error == s.total
      && (s.overall == Healthy <==> forall i :: 0 <= i < |results| ==> results[i].health != Error)
      && (s.overall == Warning <==>
            (exists i :: 0 <= i < |results| && results[i].health == Error) &&
            (exists i :: 0 <= i < |results| && results[i].health == Healthy))
  {
    CountsSum(results);
    CountZero(results, Error);
    CountZero(results, Healthy);
  }

  /** `health_check_accounts` never reports a warning. */
  lemma NoWarnings(accounts: seq<Account>, sessionFiles: set<string>, posts: seq<PostRow>, results: seq<AccountHealth>)
    requires |results| == |accounts|
    requires forall i :: 0 <= i < |accounts| ==> results[i] == CheckAccount(accounts[i], sessionFiles, posts)
    ensures Summarize(results).warning == 0
  {
    CountZero(results, Warning);
  }

  // ---------------------------------------------------------------------
  // One account's session

  /** A session file: absent; not JSON; unreadable for the membership test
      (bytes that are not UTF-8, or a top level that is `null`, a number or a
      boolean); or JSON whose top level holds the given members (keys of an
      object, elements of a list, substrings of a string). */
  datatype SessionContent = NoFile | Corrupted | Unreadable | Parsed(members: set<string>)

  datatype SessionReply =
    | AccountNotFound                                      // 404
    | SessionServerError                                   // 500: an exception the view does not catch
    | Validity(valid: bool, message: string, actionRequired: Option<string>)

  const UpdateSessionAction: string := "Please update session for this account"

  /** `validate_account_session`: `accounts` maps ids to addresses and
      `sessions` the sessions directory's file names to their content. */
  function ValidateSession(accountId: int, accounts: map<int, string>, sessions: map<string, SessionContent>): (r: SessionReply)
    ensures r.AccountNotFound? <==> accountId !in accounts
    ensures r.SessionServerError? <==>
      accountId in accounts && SessionFileName(accounts[accountId]) in sessions &&
      sessions[SessionFileName(accounts[accountId])].Unreadable?
    ensures r.Validity? ==>
      var name := SessionFileName(accounts[accountId]);
      (r.valid <==> name in sessions && sessions[name].Parsed? && "cookies" in sessions[name].members)
    ensures r.Validity? ==> (r.actionRequired.None? <==> r.valid)
  {
    if accountId !in accounts then AccountNotFound
    else
      var name := SessionFileName(accounts[accountId]);
      if name !in sessions || sessions[name].NoFile? then
        Validity(false, "Session file does not exist", Some(UpdateSessionAction))
      else match sessions[name]
        case Corrupted => Validity(false, "Session file is corrupted", Some(UpdateSessionAction))
        case Unreadable => SessionServerError
        case Parsed(members) =>
          var valid := "cookies" in members;
          Validity(valid, if valid then "Session is valid (kept forever)" else "Session file missing cookies",
                   if valid then None else Some(UpdateSessionAction))
  }

  /** A valid session is one the health check calls healthy, but not the
      other way round: the health check never opens the file. */
  lemma ValidImpliesHealthy(account: Account, accounts: map<int, string>, sessions: map<string, SessionContent>, posts: seq<PostRow>)
    requires accounts == map[account.id := account.email]
    requires ValidateSession(account.id, accounts, sessions).Validity?
    requires ValidateSession(account.id, accounts, sessions).valid
    ensures CheckAccount(account, sessions.Keys, posts).health == Healthy
  {
  }

  lemma CorruptedButHealthy(account: Account, posts: seq<PostRow>)
    ensures var sessions := map[SessionFileName(account.email) := Corrupted];
      && ValidateSession(account.id, map[account.id := account.email], sessions) ==
           Validity(false, "Session file is corrupted", Some(UpdateSessionAction))
      && CheckAccount(account, sessions.Keys, posts).health == Healthy
  {
  }
}
