/** Dropbox_Facade of release 0.7.2 (tags/0.7.2/class-dropbox-facade.php):
    the stored OAuth tokens and what the constructor, is_authorized and
    get_authorize_url do with them, the outcome checks of upload_backup, and
    the remote retention of purge_backups. The Dropbox API and OAuth calls
    are inputs: their answers are parameters. */
module DropboxFacade {
  import opened Common
  import opened Retention

  // ------------------------------------------------------------ backup names

  /** The fixed part of the pattern `wordpress-backup-\d{4}-\d{2}-\d{2}.zip`. */
  const Stem: string := "wordpress-backup-"

  /** The length of a text the pattern matches: the stem, "dddd-dd-dd",
      one character for the unescaped '.', and "zip". */
  const PatternLength: int := 31

  predicate Digits(s: string, from: int, n: int)
    requires 0 <= from && from + n <= |s|
  {
    forall k :: from <= k < from + n ==> IsDigit(s[k])
  }

  /** The pattern matches `s` at index `i`: the stem, four digits, '-', two
      digits, '-', two digits, any character but a newline (the '.' of the
      pattern is not escaped), then "zip". */
  predicate MatchesAt(s: string, i: int)
    requires 0 <= i && i + PatternLength <= |s|
  {
    && s[i..i + 17] == Stem
    && Digits(s, i + 17, 4) && s[i + 21] == '-'
    && Digits(s, i + 22, 2) && s[i + 24] == '-'
    && Digits(s, i + 25, 2)
    && s[i + 27] != '\n'
    && s[i + 28..i + 31] == "zip"
  }

  /** preg_match of the backup pattern: it is not anchored, so it matches
      when it occurs anywhere in the path. */
  predicate IsBackupPath(s: string)
  {
    exists i :: 0 <= i && i + PatternLength <= |s| && MatchesAt(s, i)
  }

  /** The daily zip the plugin uploads matches, in whatever folder it is. */
  lemma BackupZipMatches(folder: string, date: string)
    requires |date| == 10 && date[4] == '-' && date[7] == '-'
    requires forall k :: 0 <= k < 10 && k != 4 && k != 7 ==> IsDigit(date[k])
    ensures IsBackupPath(folder + Stem + date + ".zip")
  {
    var s := folder + Stem + date + ".zip";
    var i := |folder|;
    assert s[i..i + 17] == Stem;
    assert s[i + 17..i + 27] == date;
    assert s[i + 27..i + 31] == ".zip";
    assert s[i + 28..i + 31] == "zip";
    assert forall k :: 0 <= k < 10 ==> s[i + 17 + k] == date[k];
    assert MatchesAt(s, i);
  }

  /** Because the '.' is not escaped, a name with any other character in its
      place is taken for a backup too. */
  lemma AnyCharBeforeZip(folder: string, date: string, c: char)
    requires |date| == 10 && date[4] == '-' && date[7] == '-'
    requires forall k :: 0 <= k < 10 && k != 4 && k != 7 ==> IsDigit(date[k])
    requires c != '\n'
    ensures IsBackupPath(folder + Stem + date + [c] + "zip")
  {
    var s := folder + Stem + date + [c] + "zip";
    var i := |folder|;
    assert s[i..i + 17] == Stem;
    assert s[i + 17..i + 27] == date;
    assert s[i + 27] == c;
    assert s[i + 28..i + 31] == "zip";
    assert forall k :: 0 <= k < 10 ==> s[i + 17 + k] == date[k];
    assert MatchesAt(s, i);
  }

  // ------------------------------------------------------------ purge

  /** One item of getMetaData's `contents`: its path and whether it is a
      folder. */
  datatype Meta = Meta(path: string, isDir: bool)

  predicate Candidate(m: Meta)
  {
    !m.isDir && IsBackupPath(m.path)
  }

  /** The paths purge_backups considers, in metadata order: files whose
      path matches the backup pattern. */
  function Candidates(contents: seq<Meta>): (r: seq<string>)
    ensures |r| <= |contents|
  {
    if contents == [] then []
    else
      var rest := Candidates(contents[..|contents| - 1]);
      var m := contents[|contents| - 1];
      if Candidate(m) then rest + [m.path] else rest
  }

  /** Every candidate is the path of a file of the folder that matches the
      pattern, and every such file is a candidate. */
  lemma {:induction false} CandidatesSpec(contents: seq<Meta>, p: string)
    ensures p in Candidates(contents) <==> exists k :: 0 <= k < |contents| && contents[k].path == p && Candidate(contents[k])
  {
    if contents != [] {
      var n := |contents| - 1;
      CandidatesSpec(contents[..n], p);
      if p in Candidates(contents[..n]) {
        var k :| 0 <= k < n && contents[..n][k].path == p && Candidate(contents[..n][k]);
        assert contents[k] == contents[..n][k];
      }
      if exists k :: 0 <= k < |contents| && contents[k].path == p && Candidate(contents[k]) {
        var k :| 0 <= k < |contents| && contents[k].path == p && Candidate(contents[k]);
        if k < n {
          assert contents[..n][k] == contents[k];
        }
      }
    }
  }

  /** What purge_backups deletes: the oldest candidates beyond `max`, by
      name order. */
  function RemoteDeletions(contents: seq<Meta>, max: int): seq<string>
    requires max >= 1
  {
    OldestExcess(Candidates(contents), max)
  }

  /** The purge deletes only files whose path matches the pattern, exactly
      max(0, n - max) of them for n candidates, and keeps the `max` newest
      when there are more. */
  lemma RemoteDeletionsSpec(contents: seq<Meta>, max: int)
    requires max >= 1
    ensures var n := |Candidates(contents)|;
      |RemoteDeletions(contents, max)| == (if n > max then n - max else 0)
    ensures forall p :: p in RemoteDeletions(contents, max) ==>
      exists k :: 0 <= k < |contents| && contents[k].path == p && !contents[k].isDir && IsBackupPath(p)
    ensures var del := RemoteDeletions(contents, max);
      var kept := SortAsc(Candidates(contents))[|del|..];
      && |kept| == (if |Candidates(contents)| > max then max else |Candidates(contents)|)
      && multiset(del) + multiset(kept) == multiset(Candidates(contents))
      && (forall i, j :: 0 <= i < |del| && 0 <= j < |kept| ==> LexLe(del[i], kept[j]))
  {
    var names := Candidates(contents);
    OldestExcessSpec(names, max);
    var del := RemoteDeletions(contents, max);
    forall p | p in del
      ensures exists k :: 0 <= k < |contents| && contents[k].path == p && !contents[k].isDir && IsBackupPath(p)
    {
      assert p in multiset(del);
      assert p in multiset(names);
      CandidatesSpec(contents, p);
    }
  }

  /** A Dropbox call of purge_backups that throws: the delete of the
      `at`-th path to go, with the exception's message. */
  datatype DeleteFailure = DeleteFailure(at: nat, message: string)

  /** What purge_backups does when its calls may throw: nothing when
      getMetaData throws (`metaError`); otherwise the deletions in order up
      to the one that throws, if any. Returns the paths deleted and the
      message of the exception that ends the purge. */
  function RemotePurge(contents: seq<Meta>, max: int, metaError: Option<string>,
                       deleteError: Option<DeleteFailure>): (seq<string>, Option<string>)
    requires max >= 1
  {
    if metaError.Some? then ([], metaError)
    else
      var dels := RemoteDeletions(contents, max);
      if deleteError.Some? && deleteError.value.at < |dels|
      then (dels[..deleteError.value.at], Some(deleteError.value.message))
      else (dels, None)
  }

  /** A purge that throws has deleted an in-order prefix of what a complete
      purge deletes, nothing at all when the listing fails; it completes
      exactly when no call throws, and then deletes all of it. */
  lemma RemotePurgeSpec(contents: seq<Meta>, max: int, metaError: Option<string>, deleteError: Option<DeleteFailure>)
    requires max >= 1
    ensures var (deleted, err) := RemotePurge(contents, max, metaError, deleteError);
      var dels := RemoteDeletions(contents, max);
      && |deleted| <= |dels| && deleted == dels[..|deleted|]
      && (metaError.Some? ==> deleted == [] && err == metaError)
      && (err.None? <==> metaError.None? && (deleteError.None? || deleteError.value.at >= |dels|))
      && (err.None? ==> deleted == dels)
      && (metaError.None? && err.Some? ==>
            deleteError.Some? && |deleted| == deleteError.value.at && err == Some(deleteError.value.message))
  {
  }

  // ------------------------------------------------------------ facade

  /** The stored tokens; `None` stands for PHP's false. */
  datatype Tokens = Tokens(access: Option<string>, request: Option<string>)

  /** The body of the upload failure message. */
  function UploadMessage(status: nat, body: string): string
  {
    "error while uploading the backup to Dropbox. HTTP Status: " + DecimalString(status) + ", Body: " + body
  }

  const MissingMessage: string := "backup file does not exist."

  class Facade {
    var tokens: Tokens
    /** Whether a Dropbox_API object was created. */
    var connected: bool
    /** The value of the tokens option, as last saved. */
    var stored: Option<Tokens>

    /** An access token is only ever held together with an API object, so
        is_authorized never calls into a missing one. */
    predicate Valid()
      reads this
    {
      tokens.access.Some? ==> connected
    }

    /** __construct: without stored tokens, store and keep {access: false,
        request: false} and create no API object; otherwise, when there is
        no access token yet, try to exchange the request token (`exchange`
        is the access token obtained, None when the exchange throws) and
        save on success, and create the API object. */
    constructor(saved: Option<Tokens>, exchange: Option<string>)
      ensures Valid()
      ensures saved.None? ==> tokens == Tokens(None, None) && !connected && stored == Some(tokens)
      ensures saved.Some? && saved.value.access.Some? ==>
        tokens == saved.value && connected && stored == saved
      ensures saved.Some? && saved.value.access.None? && exchange.Some? ==>
        tokens == saved.value.(access := exchange) && connected && stored == Some(tokens)
      ensures saved.Some? && saved.value.access.None? && exchange.None? ==>
        tokens == saved.value && connected && stored == saved
    {
      if saved.None? {
        tokens := Tokens(None, None);
        stored := Some(tokens);
        connected := false;
      } else {
        var t := saved.value;
        stored := saved;
        if t.access.None? {
          if exchange.Some? {
            t := t.(access := exchange);
            stored := Some(t);
          } else {
            t := t.(access := None);
          }
        }
        tokens := t;
        connected := true;
      }
    }

    /** is_authorized: an access token, and an account-info call that
        succeeds (`accountInfo` is its answer, `accountError` the message of
        the exception it throws, if it does); the call is not made without a
        token. An exception is passed on as `err`. */
    method IsAuthorized(accountInfo: bool, accountError: Option<string>)
      returns (authorized: bool, called: bool, err: Option<string>)
      requires Valid()
      ensures called <==> tokens.access.Some?
      ensures called ==> connected
      ensures err == (if called then accountError else None)
      ensures authorized <==> tokens.access.Some? && accountError.None? && accountInfo
    {
      if tokens.access.None? {
        return false, false, None;
      }
      if accountError.Some? {
        return false, true, accountError;
      }
      return accountInfo, true, None;
    }

    /** get_authorize_url: store a fresh request token and return the
        authorization address OAuth gives for it. */
    method GetAuthorizeUrl(requestToken: string, url: string) returns (u: string)
      requires Valid()
      modifies this
      ensures Valid()
      ensures tokens == old(tokens).(request := Some(requestToken))
      ensures stored == Some(tokens) && connected == old(connected)
      ensures u == url
    {
      tokens := tokens.(request := Some(requestToken));
      stored := Some(tokens);
      u := url;
    }

    /** upload_backup: fail before uploading when the local file is missing;
        otherwise upload (putFile throws `putError`, or answers `status` and
        `body`) and fail with both unless the status is 200. Returns the
        exception text, if any, and whether putFile was called. */
    method UploadBackup(fileExists: bool, putError: Option<string>, status: nat, body: string)
      returns (err: Option<string>, uploaded: bool)
      ensures uploaded <==> fileExists
      ensures err == None <==> fileExists && putError.None? && status == 200
      ensures !fileExists ==> err == Some(MissingMessage)
      ensures fileExists && putError.Some? ==> err == putError
      ensures fileExists && putError.None? && status != 200 ==> err == Some(UploadMessage(status, body))
    {
      if !fileExists {
        return Some(MissingMessage), false;
      }
      uploaded := true;
      if putError.Some? {
        return putError, uploaded;
      }
      if status != 200 {
        return Some(UploadMessage(status, body)), uploaded;
      }
      err := None;
    }

    /** purge_backups: list the folder (getMetaData throws `metaError`, if
        it does), collect the files whose path matches the backup pattern,
        sort them, and delete the oldest beyond `max`, stopping at a delete
        that throws (`deleteError`). Returns the paths deleted, in order, and
        the message of the exception that ended the purge. */
    method PurgeBackups(contents: seq<Meta>, max: int, metaError: Option<string>, deleteError: Option<DeleteFailure>)
      returns (deleted: seq<string>, err: Option<string>)
      requires max >= 1
      ensures (deleted, err) == RemotePurge(contents, max, metaError, deleteError)
      ensures err.None? ==> deleted == RemoteDeletions(contents, max)
    {
      if metaError.Some? {
        return [], metaError;
      }
      var backups: seq<string> := [];
      var i := 0;
      while i < |contents|
        invariant 0 <= i <= |contents|
        invariant backups == Candidates(contents[..i])
      {
        assert contents[..i + 1][..i] == contents[..i];
        if !contents[i].isDir && IsBackupPath(contents[i].path) {
          backups := backups + [contents[i].path];
        }
        i := i + 1;
      }
      assert contents[..i] == contents;
      var sorted := SortAsc(backups);
      var count := |backups|;
      deleted := [];
      err := None;
      if count > max {
        var diff := count - max;
        var k := 0;
        while k < diff
          invariant 0 <= k <= diff
          invariant deleted == sorted[..k]
          invariant deleteError.Some? ==> deleteError.value.at >= k
        {
          if deleteError.Some? && deleteError.value.at == k {
            assert RemoteDeletions(contents, max) == sorted[..diff];
            assert sorted[..diff][..k] == sorted[..k];
            return deleted, Some(deleteError.value.message);
          }
          assert sorted[..k + 1] == sorted[..k] + [sorted[k]];
          deleted := deleted + [sorted[k]];
          k := k + 1;
        }
      }
    }
  }
}
