/** The `cleanup_sessions` management command: remove every session file
    whose address, read back from the file name, has no stored account, and
    report what was removed. Console styling and emoji are not modelled. */
module CleanupSessionsCommand {

  import opened Common
  import opened Text
  import opened SessionNames

  const MissingDirWarning: string := "Sessions directory does not exist"
  const NothingDeletedMessage: string := "No orphaned sessions found"
  const DeletedPrefix: string := "Deleted orphaned session: "

  /** The closing line for `deletedCount` removals. */
  function Summary(deletedCount: nat): string {
    if deletedCount == 0 then NothingDeletedMessage
    else "Deleted " + NatToString(deletedCount) + " orphaned session(s)"
  }

  /** The "nothing found" line appears iff nothing was removed. */
  lemma NothingDeletedIffZero(deletedCount: nat)
    ensures Summary(deletedCount) == NothingDeletedMessage <==> deletedCount == 0
  {
    if deletedCount != 0 {
      assert Summary(deletedCount)[0] == 'D' != NothingDeletedMessage[0];
    }
  }

  /** One output line per removed file. */
  function DeletedLines(files: seq<string>): (lines: seq<string>)
    ensures |lines| == |files|
    ensures forall i :: 0 <= i < |files| ==> lines[i] == DeletedPrefix + files[i]
  {
    seq(|files|, i requires 0 <= i < |files| => DeletedPrefix + files[i])
  }

  /** `Command.handle`: `listing` is the sessions directory (`None` when it
      does not exist) and `db` the stored addresses. Returns what was written
      and the files removed, in listing order. */
  method Handle(listing: Option<seq<string>>, db: set<string>)
    returns (output: seq<string>, deleted: seq<string>)
    ensures listing.None? ==> output == [MissingDirWarning] && deleted == []
    ensures listing.Some? ==>
      && deleted == Orphans(Filter(listing.value, IsJson), db, CommandReading)
      && output == DeletedLines(deleted) + [Summary(|deleted|)]
  {
    if listing.None? {
      return [MissingDirWarning], [];
    }
    var sessionFiles := Filter(listing.value, IsJson);
    var deletedCount: nat := 0;
    deleted, output := [], [];
    for n := 0 to |sessionFiles|
      invariant deleted == Orphans(sessionFiles[..n], db, CommandReading)
      invariant deletedCount == |deleted| && output == DeletedLines(deleted)
    {
      var sessionFile := sessionFiles[n];
      OrphansSnoc(sessionFiles, n, db, CommandReading);
      var email := ReplaceChar(ReplaceFirst(RemoveAll(sessionFile, JsonSuffix), '_', '@'), '_', '.');
      if email !in db {
        deleted := deleted + [sessionFile];
        deletedCount := deletedCount + 1;
        output := output + [DeletedPrefix + sessionFile];
      }
    }
    assert sessionFiles[..|sessionFiles|] == sessionFiles;
    output := output + [Summary(deletedCount)];
  }

  /** A stored address without '_' whose local part has no '.' keeps its
      session file. */
  lemma PlainSessionKept(local: string, domain: string, listing: seq<string>, db: set<string>)
    requires OneAt(local, domain) && '.' !in local && '_' !in local && '_' !in domain
    requires local + "@" + domain in db
    ensures SessionFileName(local + "@" + domain) !in Orphans(Filter(listing, IsJson), db, CommandReading)
  {
    CommandReadsBack(local, domain);
    OrphansMembers(Filter(listing, IsJson), db, CommandReading);
  }

  /** A stored address with a '.' in its local part, as the only account,
      loses its own session file. */
  lemma DottedSessionDeleted(local: string, domain: string)
    requires OneAt(local, domain) && '.' in local
    ensures var email := local + "@" + domain;
      SessionFileName(email) in Orphans(Filter([SessionFileName(email)], IsJson), {email}, CommandReading)
  {
    var email := local + "@" + domain;
    CommandMisreadsDottedLocal(local, domain);
    OrphansMembers(Filter([SessionFileName(email)], IsJson), {email}, CommandReading);
  }
}
