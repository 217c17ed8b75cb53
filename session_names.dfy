/** How an account's e-mail address names its saved browser session, and the
    two ways the cleanup code reads an address back out of a file name.

    Forward: `sessions/<email with '@' and '.' replaced by '_'>.json`.
    Back (management command): drop ".json", first '_' -> '@', other '_' -> '.'.
    Back (upload view): drop ".json", split at '_', rebuild
    `parts[0] @ parts[1..-1] joined by '_' . parts[-1]` when there are >= 3 parts. */
module SessionNames {

  import opened Common
  import opened Text

  const SessionsDir: string := "sessions"
  const JsonSuffix: string := ".json"

  /** `email.replace('@', '_').replace('.', '_')`. */
  function Mangle(email: string): (r: string)
    ensures |r| == |email|
    ensures forall i :: 0 <= i < |email| ==>
      r[i] == if email[i] == '@' || email[i] == '.' then '_' else email[i]
  {
    ReplaceChar(ReplaceChar(email, '@', '_'), '.', '_')
  }

  /** The base name of an account's session file. */
  function SessionFileName(email: string): (name: string)
    ensures |name| == |email| + |JsonSuffix| && EndsWith(name, JsonSuffix)
    ensures '@' !in name[..|email|] && '.' !in name[..|email|]
  {
    var m := Mangle(email);
    assert forall i :: 0 <= i < |m| ==> m[i] != '@' && m[i] != '.';
    assert (m + JsonSuffix)[..|email|] == m;
    m + JsonSuffix
  }

  /** The path the views test with `os.path.exists`. */
  function SessionPath(email: string): string {
    SessionsDir + "/" + SessionFileName(email)
  }

  /** The forward mapping is not injective: three different addresses share one file. */
  lemma MangleCollides()
    ensures SessionFileName("a.b@c.d") == SessionFileName("a_b@c.d") == SessionFileName("a@b.c.d")
  {
    assert Mangle("a.b@c.d") == "a_b_c_d";
    assert Mangle("a_b@c.d") == "a_b_c_d";
    assert Mangle("a@b.c.d") == "a_b_c_d";
  }

  /** A well-formed address for the round-trip lemmas: one '@' between a
      local part and a domain. */
  predicate OneAt(local: string, domain: string) {
    '@' !in local && '@' !in domain
  }

  // ---------------------------------------------------------------------
  // The management command's inverse

  /** `f.replace('.json', '').replace('_', '@', 1).replace('_', '.')`. */
  function CommandEmail(fileName: string): (email: string)
    ensures '_' !in email
  {
    var e := ReplaceChar(ReplaceFirst(RemoveAll(fileName, JsonSuffix), '_', '@'), '_', '.');
    assert forall i :: 0 <= i < |e| ==> e[i] != '_';
    e
  }

  /** Stripping the suffix from a forward name leaves the mangled address. */
  lemma StemOfSessionFileName(email: string)
    ensures RemoveAll(SessionFileName(email), JsonSuffix) == Mangle(email)
  {
    var m := Mangle(email);
    assert forall i :: 0 <= i < |m| ==> m[i] != '.';
    RemoveAllSuffix(m, JsonSuffix);
  }

  lemma MangleAppend(a: string, b: string)
    ensures Mangle(a + b) == Mangle(a) + Mangle(b)
  {
    var l, r := Mangle(a + b), Mangle(a) + Mangle(b);
    forall i | 0 <= i < |a + b| ensures l[i] == r[i] {
      if i < |a| { } else { assert (a + b)[i] == b[i - |a|]; }
    }
  }

  /** Mangling `a`, a separator ('@' or '.'), then `b` gives `a`'s and `b`'s
      mangled forms joined by '_'. */
  lemma MangleAround(a: string, sep: char, b: string)
    requires sep == '@' || sep == '.'
    ensures Mangle(a + [sep] + b) == Mangle(a) + "_" + Mangle(b)
  {
    MangleAppend(a + [sep], b);
    MangleAppend(a, [sep]);
  }

  lemma MangleIdentity(s: string)
    requires '@' !in s && '.' !in s
    ensures Mangle(s) == s
  {
  }

  /** Turning '_' back into '.' undoes the mangling of a domain without '@' or '_'. */
  lemma UnmangleDomain(domain: string)
    requires '@' !in domain && '_' !in domain
    ensures ReplaceChar(Mangle(domain), '_', '.') == domain
  {
  }

  /** Back direction of the command's round trip: it succeeds when no '_'
      occurs and the local part has no '.'. */
  lemma CommandReadsBack(local: string, domain: string)
    requires OneAt(local, domain) && '.' !in local && '_' !in local && '_' !in domain
    ensures CommandEmail(SessionFileName(local + "@" + domain)) == local + "@" + domain
  {
    var email := local + "@" + domain;
    var md := Mangle(domain);
    var stem := local + "_" + md;
    var at := local + "@" + md;
    assert RemoveAll(SessionFileName(email), JsonSuffix) == stem by {
      StemOfSessionFileName(email);
      MangleAround(local, '@', domain);
      MangleIdentity(local);
    }
    assert ReplaceFirst(stem, '_', '@') == at by {
      IndexOfAfter(local, '_', md);
    }
    assert ReplaceChar(at, '_', '.') == email by {
      UnmangleDomain(domain);
      ReplaceCharAppend(local + "@", md, '_', '.');
      assert ReplaceChar(local + "@", '_', '.') == local + "@";
    }
  }

  /** Whatever file name it reads, the command's address has its '@' at the
      first '_' of the stem; so a '.' in the local part moves the '@'. */
  lemma CommandMisreadsDottedLocal(local: string, domain: string)
    requires OneAt(local, domain) && '.' in local
    ensures CommandEmail(SessionFileName(local + "@" + domain)) != local + "@" + domain
  {
    var email := local + "@" + domain;
    StemOfSessionFileName(email);
    var stem := Mangle(email);
    var k := IndexOf(stem, '_');
    var j :| 0 <= j < |local| && local[j] == '.';
    assert email[j] == '.' && stem[j] == '_';
    assert k <= j;
    var out := CommandEmail(SessionFileName(email));
    assert out[k] == '@';
    assert email[k] == local[k];
  }

  /** The command reads back exactly the addresses without '_' whose local
      part has no '.'; every other address comes back different. */
  lemma CommandRoundTrip(local: string, domain: string)
    requires OneAt(local, domain)
    ensures var email := local + "@" + domain;
      CommandEmail(SessionFileName(email)) == email <==> ('_' !in email && '.' !in local)
  {
    var email := local + "@" + domain;
    if '_' !in email && '.' !in local {
      assert '_' !in local && '_' !in domain by {
        assert forall i :: 0 <= i < |local| ==> email[i] == local[i];
        assert forall i :: 0 <= i < |domain| ==> email[|local| + 1 + i] == domain[i];
      }
      CommandReadsBack(local, domain);
    } else if '.' in local {
      CommandMisreadsDottedLocal(local, domain);
    }
  }

  // ---------------------------------------------------------------------
  // The upload view's inverse

  /** The address the view rebuilds from a file name, or `None` when the
      name splits into fewer than three '_' parts (such files are kept). */
  function ViewsEmail(fileName: string): Option<string>
  {
    var parts := Split(RemoveAll(fileName, JsonSuffix), '_');
    if |parts| >= 3 then
      Some(parts[0] + "@" + Join(parts[1..|parts| - 1], "_") + "." + parts[|parts| - 1])
    else None
  }

  predicate NoSeparators(s: string) {
    '@' !in s && '.' !in s && '_' !in s
  }

  /** The three-part split the view relies on. */
  lemma {:induction false} SplitThree(local: string, name: string, tld: string)
    requires '_' !in local && '_' !in tld
    ensures Split(local + "_" + name + "_" + tld, '_') == [local] + Split(name, '_') + [tld]
  {
    var middle := Split(name, '_');
    var back := middle + [tld];
    var parts := [local] + back;
    assert parts == [local] + middle + [tld];
    JoinSplit(name, '_');
    assert Join(middle, "_") == name;
    JoinAppend(middle, [tld], "_");
    assert Join(back, "_") == name + "_" + tld;
    JoinAppend([local], back, "_");
    var stem := Join(parts, "_");
    assert stem == local + "_" + (name + "_" + tld);
    assert stem == local + "_" + name + "_" + tld;
    forall i | 0 <= i < |parts| ensures '_' !in parts[i] {
      if 0 < i < |parts| - 1 {
        assert parts[i] == middle[i - 1];
      }
    }
    SplitJoin(parts, '_');
    assert Split(stem, '_') == parts;
  }

  /** The stem of the forward file name of `local@name.tld`, when no part
      holds '@' or '.'. */
  lemma StemOfThreeParts(local: string, name: string, tld: string)
    requires NoSeparators(local) && NoSeparators(tld)
    requires '@' !in name && '.' !in name
    ensures RemoveAll(SessionFileName(local + "@" + name + "." + tld), JsonSuffix) == local + "_" + name + "_" + tld
  {
    var email := local + "@" + name + "." + tld;
    var rest := name + "." + tld;
    var mangledRest := name + "_" + tld;
    assert email == local + "@" + rest;
    StemOfSessionFileName(email);
    assert Mangle(rest) == mangledRest by {
      MangleAround(name, '.', tld);
      MangleIdentity(name);
      MangleIdentity(tld);
    }
    assert Mangle(email) == local + "_" + mangledRest by {
      MangleAround(local, '@', rest);
      MangleIdentity(local);
    }
    assert local + "_" + mangledRest == local + "_" + name + "_" + tld;
  }

  /** The view reads back `local@name.tld` when the local part and the last
      label have no '@', '.' or '_' and the middle has no '@' or '.'. */
  lemma ViewsRoundTrip(local: string, name: string, tld: string)
    requires NoSeparators(local) && NoSeparators(tld)
    requires '@' !in name && '.' !in name
    ensures ViewsEmail(SessionFileName(local + "@" + name + "." + tld))
      == Some(local + "@" + name + "." + tld)
  {
    StemOfThreeParts(local, name, tld);
    SplitThree(local, name, tld);
    var middle := Split(name, '_');
    var parts := [local] + middle + [tld];
    assert |parts| >= 3 && parts[0] == local && parts[|parts| - 1] == tld;
    assert parts[1..|parts| - 1] == middle;
    JoinSplit(name, '_');
  }

  /** When the local part holds a '.' or '_', the view puts the '@' too early
      and rebuilds a different address. */
  lemma ViewsMisreadsLocalSeparator(local: string, domain: string)
    requires OneAt(local, domain)
    requires '.' in local || '_' in local
    ensures ViewsEmail(SessionFileName(local + "@" + domain)) != Some(local + "@" + domain)
  {
    var email := local + "@" + domain;
    var stem := Mangle(email);
    StemOfSessionFileName(email);
    var k := IndexOf(stem, '_');
    var j :| 0 <= j < |local| && (local[j] == '.' || local[j] == '_');
    assert email[j] == local[j] && stem[j] == '_';
    assert k < |local|;
    var parts := Split(stem, '_');
    assert parts[0] == stem[..k];
  }

  /** No two positions of `s` both hold a '.'. */
  predicate AtMostOneDot(s: string) {
    forall i, j :: 0 <= i < j < |s| && s[i] == '.' ==> s[j] != '.'
  }

  lemma OneDotBetween(a: string, b: string)
    requires '.' !in a && '.' !in b
    ensures AtMostOneDot(a + "." + b)
  {
    var s := a + "." + b;
    assert forall k :: 0 <= k < |a| ==> s[k] == a[k];
    assert forall k :: |a| < k < |s| ==> s[k] == b[k - |a| - 1];
    forall i, j | 0 <= i < j < |s| && s[i] == '.'
      ensures s[j] != '.'
    {
      assert i == |a|;
      assert s[j] == b[j - |a| - 1];
    }
  }

  /** Whatever the file name came from, the view rebuilds an address with
      at most one '.': the one it puts before the last part. */
  lemma ViewsRebuildsOneDot(email: string)
    requires ViewsEmail(SessionFileName(email)).Some?
    ensures AtMostOneDot(ViewsEmail(SessionFileName(email)).value)
  {
    var stem := Mangle(email);
    StemOfSessionFileName(email);
    assert '.' !in stem by {
      assert forall i :: 0 <= i < |stem| ==> stem[i] != '.';
    }
    var parts := Split(stem, '_');
    SplitAvoids(stem, '_', '.');
    var n := |parts|;
    var inner := parts[1..n - 1];
    assert forall i :: 0 <= i < |inner| ==> inner[i] == parts[i + 1];
    JoinAvoids(inner, "_", '.');
    var front := parts[0] + "@" + Join(inner, "_");
    assert '.' !in front;
    assert '.' !in parts[n - 1];
    OneDotBetween(front, parts[n - 1]);
  }

  /** So the view misreads every address with two dots, `user@mail.co.uk` as
      much as `first.last@gmail.com`: a stored one loses its session file to
      the clean-up unless the misread address is also stored (OrphansMembers). */
  lemma ViewsMisreadsTwoDots(a: string, b: string, c: string)
    ensures var email := a + "." + b + "." + c;
      ViewsEmail(SessionFileName(email)) != Some(email)
  {
    var email := a + "." + b + "." + c;
    assert email[|a|] == '.' && email[|a| + 1 + |b|] == '.';
    if ViewsEmail(SessionFileName(email)) == Some(email) {
      ViewsRebuildsOneDot(email);
      assert false;
    }
  }

  // ---------------------------------------------------------------------
  // Orphaned session files

  predicate IsJson(name: string) {
    EndsWith(name, JsonSuffix)
  }

  /** The files, in listing order, whose address as `read` rebuilds it has
      no account in `db`. A file `read` rebuilds no address from is kept. */
  function Orphans(files: seq<string>, db: set<string>, read: string -> Option<string>): seq<string>
  {
    if files == [] then []
    else
      var f := files[|files| - 1];
      Orphans(files[..|files| - 1], db, read) + (if read(f).Some? && read(f).value !in db then [f] else [])
  }

  /** A file is among the orphans iff it is listed and the address rebuilt
      from it is not stored. */
  lemma {:induction false} OrphansMembers(files: seq<string>, db: set<string>, read: string -> Option<string>)
    ensures |Orphans(files, db, read)| <= |files|
    ensures forall f :: f in Orphans(files, db, read) <==> f in files && read(f).Some? && read(f).value !in db
  {
    if files != [] {
      var init := files[..|files| - 1];
      OrphansMembers(init, db, read);
      assert files == init + [files[|files| - 1]];
    }
  }

  /** One more file: the orphans so far, then that file if it is one. */
  lemma OrphansSnoc(files: seq<string>, n: nat, db: set<string>, read: string -> Option<string>)
    requires n < |files|
    ensures Orphans(files[..n + 1], db, read) ==
      Orphans(files[..n], db, read) + (if read(files[n]).Some? && read(files[n]).value !in db then [files[n]] else [])
  {
    assert files[..n + 1][..n] == files[..n];
  }

  /** The management command always rebuilds an address. */
  function CommandReading(name: string): Option<string> {
    Some(CommandEmail(name))
  }

  /** The session files of the accounts in `db`. */
  function LiveNames(db: set<string>): set<string> {
    set e | e in db :: SessionFileName(e)
  }

  /** What the cleanup is for: a file is orphaned iff it is no account's
      session file, whatever the account's address looks like. */
  function FixedOrphans(files: seq<string>, db: set<string>): (r: seq<string>)
    ensures forall f :: f in r <==> f in files && f !in LiveNames(db)
    ensures forall e :: e in db ==> SessionFileName(e) !in r
  {
    if files == [] then []
    else
      var f := files[|files| - 1];
      FixedOrphans(files[..|files| - 1], db) + (if f !in LiveNames(db) then [f] else [])
  }
}
