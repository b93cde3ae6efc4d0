/** The plugin's entry points in trunk/wp-backup-to-dropbox.php: the backup
    run execute_drobox_backup, which drives WP_Backup (trunk revision) and
    Dropbox_Facade and records its progress in the history, and the filter
    that adds the plugin's recurrences to WordPress's cron schedules. */
module Plugin {
  import opened Common
  import opened History
  import opened Retention
  import opened Settings
  import opened SqlDump
  import opened Archive
  import opened Schedule
  import opened WpBackupTrunk
  import opened DropboxFacade

  // ------------------------------------------------------------ messages

  const NotAuthorizedMessage: string := "your Dropbox account is not authorized yet."
  const ArchiveMessage: string := "error creating backup archive."
  /** Prefixed to the message of any exception the run catches. */
  const ExceptionPrefix: string := "exception - "

  function MemoryMessage(needed: nat): string
  {
    "failed to set the php memory limit to " + DecimalString(needed)
      + "M. More memory is required to upload this backup."
  }

  // ------------------------------------------------------------ memory check

  /** The memory the upload needs, in MB: the archive size in MB times 2.5,
      rounded. */
  function NeededMB(size: nat): nat
  {
    RaisedLimitMB(size)
  }

  /** (int) preg_replace('/\D/', '', ini_get('memory_limit')): the digits of
      the setting, read as MB. */
  function LimitMB(ini: string): nat
  {
    DecimalValue(DigitsOnly(ini))
  }

  /** The value the run passes to ini_set('memory_limit', ...) as written:
      the limit already in force. */
  function RequestedLimitAsWritten(needed: nat, limit: nat): string
  {
    DecimalString(limit) + "M"
  }

  /** The value evidently intended: the memory the upload needs. */
  function RequestedLimit(needed: nat, limit: nat): string
  {
    DecimalString(needed) + "M"
  }

  /** Reading back a limit written as digits followed by "M" gives those
      digits. */
  lemma {:induction false} DigitsThenM(d: string)
    requires forall k :: 0 <= k < |d| ==> IsDigit(d[k])
    ensures DigitsOnly(d + "M") == d
  {
    if d == [] {
      assert d + "M" == "M";
      assert DigitsOnly("M") == DigitsOnly([]);
    } else {
      assert (d + "M")[0] == d[0];
      assert (d + "M")[1..] == d[1..] + "M";
      DigitsThenM(d[1..]);
      assert [d[0]] + d[1..] == d;
    }
  }

  /** As written, when the upload needs more than the limit in force, the
      run asks for that same limit again: the limit it sets is still below
      what the upload needs. */
  lemma RequestedLimitAsWrittenNoRaise(needed: nat, limit: nat)
    requires needed > limit
    ensures LimitMB(RequestedLimitAsWritten(needed, limit)) == limit < needed
  {
    DigitsThenM(DecimalString(limit));
  }

  /** The corrected request sets the limit to what the upload needs, which
      for an archive of at least one MB is more than twice its size. */
  lemma RequestedLimitSpec(size: nat, limit: nat)
    ensures LimitMB(RequestedLimit(NeededMB(size), limit)) == NeededMB(size)
    ensures size >= MB ==> 2 * size < LimitMB(RequestedLimit(NeededMB(size), limit)) * MB
  {
    DigitsThenM(DecimalString(NeededMB(size)));
    RaisedLimitSpec(size);
  }

  /** A concrete run that the check as written lets through without raising
      the limit: a 100 MB archive under a 128M limit needs 250 MB. */
  lemma MemoryRaiseAsWrittenExample()
    ensures NeededMB(100 * MB) == 250
    ensures LimitMB(RequestedLimitAsWritten(250, LimitMB("128M"))) == 128
  {
    assert DigitsOnly("128M") == "128" by {
      DigitsThenM("128");
      assert "128" + "M" == "128M";
    }
    assert DecimalValue("128") == 128 by {
      assert "128"[..2] == "12";
      assert "12"[..1] == "1";
      assert "1"[..0] == "";
    }
    RequestedLimitAsWrittenNoRaise(250, 128);
  }

  // ------------------------------------------------------------ a run

  /** The world one run meets: the saved tokens and the answers of the
      Dropbox calls, everything execute consumes, the archive's size and the
      memory settings, the upload's answers, the remote folder's metadata
      and the local dump directory's listing. A Dropbox call that throws is
      given by its exception's message: getAccountInfo (`accountError`),
      putFile (`putError`), getMetaData (`metaError`) and one delete of the
      remote purge (`deleteError`). */
  datatype World = World(
    saved: Option<Tokens>, exchange: Option<string>, accountInfo: bool, accountError: Option<string>,
    site: Site, dir: DirState, outer: OuterZip, tables: Option<seq<Table>>,
    io: FileIo, src: Source, zip: ZipIo,
    fileSize: nat, memoryIni: string, iniSetOk: bool,
    fileExists: bool, putError: Option<string>, status: nat, body: string,
    remote: seq<Meta>, metaError: Option<string>, deleteError: Option<DeleteFailure>,
    listing: seq<string>)

  /** The access token the facade holds once constructed. */
  function AccessToken(saved: Option<Tokens>, exchange: Option<string>): Option<string>
  {
    if saved.None? then None
    else if saved.value.access.Some? then saved.value.access
    else exchange
  }

  /** What is_authorized gives: whether the account is authorized, or the
      message of the exception getAccountInfo throws. */
  function Authorization(w: World): Result<bool, string>
  {
    if AccessToken(w.saved, w.exchange).None? then Ok(false)
    else if w.accountError.Some? then Err(w.accountError.value)
    else Ok(w.accountInfo)
  }

  function ExecuteResult(w: World): Result<Option<string>, Failure>
  {
    ExecuteOutcome(w.dir, w.outer, w.tables, w.io, w.src, w.zip, ZipName(w.site))
  }

  /** The message of the exception upload_backup throws, if any. */
  function UploadError(w: World): Option<string>
  {
    if !w.fileExists then Some(MissingMessage)
    else if w.putError.Some? then w.putError
    else if w.status != 200 then Some(UploadMessage(w.status, w.body))
    else None
  }

  /** What a run leaves behind: the statuses it writes to the history, in
      order; the Dropbox path a file was put to; the remote and local
      backups deleted; the archive unlinked; and the memory limit asked
      for. */
  datatype Effects = Effects(trace: seq<Record>, uploaded: Option<string>,
                             remoteDeleted: seq<string>, localDeleted: seq<string>,
                             unlinked: Option<string>, memoryRequest: Option<string>)

  /** A run that stops with an ERROR before uploading anything. */
  function Stop(msg: string): (r: Effects)
    ensures |r.trace| == 2
  {
    Effects([Record(Started, None), Record(Error, Some(msg))], None, [], [], None, None)
  }

  /** The effects of a run whose execute returned the zip `file`: the
      memory check, the upload, the remote purge, and after SUCCESS the
      local purge or the unlink of the archive. */
  function UploadPlan(w: World, o: Options, file: string): (r: Effects)
    requires o.count >= 1
    ensures |r.trace| == 3
  {
    var needed := NeededMB(w.fileSize);
    var limit := LimitMB(w.memoryIni);
    var request := if needed > limit then Some(RequestedLimit(needed, limit)) else None;
    var begun := [Record(Started, None), Record(Uploading, None)];
    if needed > limit && !w.iniSetOk then
      Effects(begun + [Record(Error, Some(MemoryMessage(needed)))], None, [], [], None, request)
    else
      var put := if w.fileExists then Some(o.dropboxLocation + "/" + file) else None;
      match UploadError(w)
      case Some(m) => Effects(begun + [Record(Error, Some(ExceptionPrefix + m))], put, [], [], None, request)
      case None =>
        var (remote, purgeError) := RemotePurge(w.remote, o.count, w.metaError, w.deleteError);
        if purgeError.Some? then
          Effects(begun + [Record(Error, Some(ExceptionPrefix + purgeError.value))], put, remote, [], None, request)
        else
          Effects(begun + [Record(Success, None)], put, remote,
                  if o.keepLocal then PurgeDeletions(Listed(w.listing), o.count) else [],
                  if o.keepLocal then None else Some(w.site.abspath + o.dumpLocation + "/" + file),
                  request)
  }

  /** The effects of a run, given what is_authorized gave, what execute
      produced and the options in force. */
  function Plan(auth: Result<bool, string>, exec: Result<Option<string>, Failure>, w: World, o: Options): (r: Effects)
    requires o.count >= 1
    ensures 2 <= |r.trace| <= 3
  {
    if auth.Err? then Stop(ExceptionPrefix + auth.error)
    else if !auth.value then Stop(NotAuthorizedMessage)
    else match exec
      case Err(e) => Stop(ExceptionPrefix + WpBackupTrunk.Message(e))
      case Ok(None) => Stop(ArchiveMessage)
      case Ok(Some(file)) => UploadPlan(w, o, file)
  }

  /** Every run starts with STARTED and ends with exactly one ERROR or
      SUCCESS, with at most UPLOADING between them. It ends in SUCCESS
      exactly when the account is authorized, execute returned the zip, the
      memory check passed, the upload succeeded and the remote purge threw
      nothing; UPLOADING is written exactly when there is a zip to upload; an
      unauthorized account gets one ERROR saying so and nothing else
      happens, and an account check that throws gets one ERROR with the
      exception's message. */
  lemma PlanTraceSpec(auth: Result<bool, string>, exec: Result<Option<string>, Failure>, w: World, o: Options)
    requires o.count >= 1
    ensures var p := Plan(auth, exec, w, o); var t := p.trace;
      && t[0] == Record(Started, None)
      && (forall i :: 0 < i < |t| - 1 ==> t[i] == Record(Uploading, None))
      && (t[|t| - 1].status == Success || t[|t| - 1].status == Error)
      && (t[|t| - 1].status == Success <==>
           auth == Ok(true) && exec.Ok? && exec.value.Some?
           && (NeededMB(w.fileSize) <= LimitMB(w.memoryIni) || w.iniSetOk) && UploadError(w).None?
           && RemotePurge(w.remote, o.count, w.metaError, w.deleteError).1.None?)
      && (Record(Uploading, None) in t <==> auth == Ok(true) && exec.Ok? && exec.value.Some?)
      && (auth == Ok(false) ==> p == Effects([Record(Started, None), Record(Error, Some(NotAuthorizedMessage))], None, [], [], None, None))
      && (auth.Err? ==> p == Effects([Record(Started, None), Record(Error, Some(ExceptionPrefix + auth.error))], None, [], [], None, None))
  {
    var t := Plan(auth, exec, w, o).trace;
    if auth == Ok(true) && exec.Ok? && exec.value.Some? {
      assert t[1] == Record(Uploading, None);
    } else {
      assert |t| == 2 && t[1].status == Error;
    }
  }

  /** Local backups are deleted, or the archive unlinked, only after
      SUCCESS; remote backups are deleted only after a successful upload,
      and always an in-order prefix of what a complete purge deletes; after
      SUCCESS the remote folder has been purged completely and exactly one
      of the local purge and the unlink happens, as keep_local says; a file
      is put to Dropbox only after UPLOADING. */
  lemma PlanEffectsSpec(auth: Result<bool, string>, exec: Result<Option<string>, Failure>, w: World, o: Options)
    requires o.count >= 1
    ensures var p := Plan(auth, exec, w, o); var t := p.trace;
      var dels := RemoteDeletions(w.remote, o.count);
      && (p.localDeleted != [] || p.unlinked.Some? ==> t[|t| - 1].status == Success)
      && (p.remoteDeleted != [] ==> p.uploaded.Some? && UploadError(w).None?)
      && |p.remoteDeleted| <= |dels| && p.remoteDeleted == dels[..|p.remoteDeleted|]
      && (t[|t| - 1].status == Success ==> p.uploaded.Some? && p.remoteDeleted == dels)
      && (t[|t| - 1].status == Success ==> (p.unlinked.Some? <==> !o.keepLocal))
      && (p.uploaded.Some? ==> Record(Uploading, None) in t)
  {
    var t := Plan(auth, exec, w, o).trace;
    RemotePurgeSpec(w.remote, o.count, w.metaError, w.deleteError);
    if auth == Ok(true) && exec.Ok? && exec.value.Some? {
      assert t[1] == Record(Uploading, None);
    }
  }

  /** A run whose execute throws reports the exception's own message after
      the prefix, and a run whose execute returns false reports that no
      archive was made. */
  lemma PlanReportsExecuteFailure(e: Failure, w: World, o: Options)
    requires o.count >= 1
    ensures Plan(Ok(true), Err(e), w, o).trace
      == [Record(Started, None), Record(Error, Some(ExceptionPrefix + WpBackupTrunk.Message(e)))]
    ensures Plan(Ok(true), Ok(None), w, o).trace
      == [Record(Started, None), Record(Error, Some(ArchiveMessage))]
  {
  }

  /** Once the upload is under way, an exception of upload_backup or of the
      remote purge ends the run with an ERROR carrying its message after the
      prefix, the upload's exception taking precedence since the purge only
      runs after it. */
  lemma PlanReportsDropboxFailure(file: string, w: World, o: Options)
    requires o.count >= 1
    requires NeededMB(w.fileSize) <= LimitMB(w.memoryIni) || w.iniSetOk
    ensures var t := Plan(Ok(true), Ok(Some(file)), w, o).trace;
      var purgeError := RemotePurge(w.remote, o.count, w.metaError, w.deleteError).1;
      && (UploadError(w).Some? ==> t[2] == Record(Error, Some(ExceptionPrefix + UploadError(w).value)))
      && (UploadError(w).None? && purgeError.Some? ==> t[2] == Record(Error, Some(ExceptionPrefix + purgeError.value)))
      && (w.fileExists && w.putError.Some? ==> t[2] == Record(Error, Some(ExceptionPrefix + w.putError.value)))
      && (UploadError(w).None? && w.metaError.Some? ==> t[2] == Record(Error, Some(ExceptionPrefix + w.metaError.value)))
  {
  }

  /** The history after the run's set_history calls, the j-th at the time
      of clocks[j]. */
  function Replay(h: seq<Entry>, count: int, recs: seq<Record>, clocks: seq<Clock>): seq<Entry>
    requires |recs| <= |clocks|
  {
    if recs == [] then h
    else
      var n := |recs| - 1;
      AfterSetHistory(Replay(h, count, recs[..n], clocks), count, WpBackupTrunk.Batch, clocks[n].blogNow, recs[n])
  }

  /** The history stays krsort-ordered through a run, and afterwards holds
      the run's final status under the time it was written. */
  lemma {:induction false} ReplaySpec(h: seq<Entry>, count: int, recs: seq<Record>, clocks: seq<Clock>)
    requires |recs| <= |clocks|
    requires Descending(h)
    ensures Descending(Replay(h, count, recs, clocks))
    ensures recs != [] ==>
      Lookup(Replay(h, count, recs, clocks), clocks[|recs| - 1].blogNow) == Some(recs[|recs| - 1])
  {
    if recs != [] {
      var n := |recs| - 1;
      ReplaySpec(h, count, recs[..n], clocks);
      SetHistoryEffect(Replay(h, count, recs[..n], clocks), count, WpBackupTrunk.Batch, clocks[n].blogNow, recs[n]);
    }
  }

  lemma ReplaySnoc(h: seq<Entry>, count: int, recs: seq<Record>, rec: Record, clocks: seq<Clock>)
    requires |recs| < |clocks|
    ensures Replay(h, count, recs + [rec], clocks)
      == AfterSetHistory(Replay(h, count, recs, clocks), count, WpBackupTrunk.Batch, clocks[|recs|].blogNow, rec)
  {
    assert (recs + [rec])[..|recs|] == recs;
  }

  function InitialHistory(stored: Option<seq<Entry>>): seq<Entry>
  {
    if stored.Some? then Krsort(stored.value) else []
  }

  function InitialOptions(stored: Option<Options>): Options
  {
    if stored.Some? then stored.value else Defaults
  }

  /** execute_drobox_backup: load WP_Backup and write STARTED; construct
      the facade and stop with an ERROR unless the account is authorized;
      run execute and stop with an ERROR when it returns false; write
      UPLOADING; when the upload needs more memory than the limit in force,
      ask for more and stop with an ERROR if that fails; upload and purge the
      remote folder, write SUCCESS, then purge the local dump directory when
      local copies are kept and delete the archive otherwise. An exception
      from execute or the upload is reported as an ERROR.
      Returns what the run did and the history it leaves behind. */
  method ExecuteDropboxBackup(storedHistory: Option<seq<Entry>>, storedOptions: Option<Options>,
                              event: Option<CronEvent>, w: World, clocks: seq<Clock>)
    returns (effects: Effects, history: seq<Entry>)
    requires storedHistory.Some? ==> DistinctKeys(storedHistory.value)
    requires InitialOptions(storedOptions).count >= 1
    requires |clocks| >= 3
    ensures effects == Plan(Authorization(w), ExecuteResult(w), w, InitialOptions(storedOptions))
    ensures history == Replay(InitialHistory(storedHistory), InitialOptions(storedOptions).count, effects.trace, clocks)
  {
    var backup := new WpBackupTrunk.Backup(storedHistory, storedOptions, event, clocks[0]);
    ghost var h0 := backup.history;
    var trace := Log(backup, h0, [], Record(Started, None), clocks);
    var auth, dropbox := Authorize(w);
    if auth.Err? || !auth.value {
      var msg := if auth.Err? then ExceptionPrefix + auth.error else NotAuthorizedMessage;
      effects := Stop(msg);
      trace := Log(backup, h0, trace, Record(Error, Some(msg)), clocks);
      assert trace == effects.trace;
    } else {
      effects := RunAuthorized(backup, h0, dropbox, w, clocks);
    }
    history := backup.history;
  }

  /** The run once the account is authorized: execute, then either the
      ERROR for a missing archive or UPLOADING and the upload stage, then
      after SUCCESS the local purge or the unlink. */
  method RunAuthorized(backup: WpBackupTrunk.Backup, ghost h0: seq<Entry>, dropbox: Facade, w: World, clocks: seq<Clock>)
    returns (effects: Effects)
    requires backup.Valid() && backup.options.count >= 1 && |clocks| >= 3
    requires backup.history == Replay(h0, backup.options.count, [Record(Started, None)], clocks)
    modifies backup
    ensures backup.options == old(backup.options)
    ensures effects == Plan(Ok(true), ExecuteResult(w), w, backup.options)
    ensures backup.history == Replay(h0, backup.options.count, effects.trace, clocks)
  {
    var o := backup.options;
    var trace := [Record(Started, None)];
    var r := RunExecute(backup, w);
    if r.Err? || r.value.None? {
      var msg := if r.Err? then ExceptionPrefix + WpBackupTrunk.Message(r.error) else ArchiveMessage;
      effects := Stop(msg);
      trace := Log(backup, h0, trace, Record(Error, Some(msg)), clocks);
      assert trace == effects.trace;
      return;
    }
    effects := RunArchived(backup, h0, dropbox, w, clocks, r.value.value);
  }

  /** The run once execute returned the zip `file`: UPLOADING, the upload
      stage and its final status, then after SUCCESS the local purge or
      the unlink. */
  method RunArchived(backup: WpBackupTrunk.Backup, ghost h0: seq<Entry>, dropbox: Facade, w: World, clocks: seq<Clock>, file: string)
    returns (effects: Effects)
    requires backup.Valid() && backup.options.count >= 1 && |clocks| >= 3
    requires backup.history == Replay(h0, backup.options.count, [Record(Started, None)], clocks)
    modifies backup
    ensures backup.options == old(backup.options)
    ensures effects == UploadPlan(w, backup.options, file)
    ensures backup.history == Replay(h0, backup.options.count, effects.trace, clocks)
  {
    var o := backup.options;
    var trace := Log(backup, h0, [Record(Started, None)], Record(Uploading, None), clocks);
    effects := UploadStage(dropbox, w, o, file);
    var last := effects.trace[2];
    trace := Log(backup, h0, trace, last, clocks);
    assert trace == effects.trace;
    if last.status == Success {
      effects := AfterSuccess(backup, w, o, file, effects);
    }
  }


  /** new Dropbox_Facade() and is_authorized(); an exception of the
      account-info call is returned as its message. */
  method Authorize(w: World) returns (auth: Result<bool, string>, dropbox: Facade)
    ensures auth == Authorization(w)
  {
    dropbox := new Facade(w.saved, w.exchange);
    var authorized, called, err := dropbox.IsAuthorized(w.accountInfo, w.accountError);
    auth := if err.Some? then Err(err.value) else Ok(authorized);
  }

  /** After SUCCESS: purge the local dump directory when local copies are
      kept, unlink the archive otherwise. */
  method AfterSuccess(backup: WpBackupTrunk.Backup, w: World, o: Options, file: string, effects: Effects)
    returns (effects': Effects)
    requires backup.options == o
    ensures effects' == if o.keepLocal
      then effects.(localDeleted := PurgeDeletions(Listed(w.listing), o.count))
      else effects.(unlinked := Some(w.site.abspath + o.dumpLocation + "/" + file))
  {
    if o.keepLocal {
      var deleted := backup.PurgeBackups(w.listing);
      effects' := effects.(localDeleted := deleted);
    } else {
      effects' := effects.(unlinked := Some(w.site.abspath + o.dumpLocation + "/" + file));
    }
  }

  /** One set_history call of the run, at the time of the next clock. */
  method Log(backup: WpBackupTrunk.Backup, ghost h0: seq<Entry>, trace: seq<Record>, rec: Record, clocks: seq<Clock>)
    returns (trace': seq<Record>)
    requires backup.Valid() && |trace| < |clocks|
    requires backup.history == Replay(h0, backup.options.count, trace, clocks)
    modifies backup
    ensures backup.Valid() && backup.options == old(backup.options)
    ensures trace' == trace + [rec]
    ensures backup.history == Replay(h0, backup.options.count, trace', clocks)
  {
    ReplaySnoc(h0, backup.options.count, trace, rec, clocks);
    backup.SetHistory(rec.status, rec.msg, clocks[|trace|]);
    trace' := trace + [rec];
  }

  /** The call $backup->execute() of the run; the zip's contents are not
      looked at again. */
  method RunExecute(backup: WpBackupTrunk.Backup, w: World) returns (r: Result<Option<string>, Failure>)
    ensures r == ExecuteResult(w)
  {
    var archive, removed;
    r, archive, removed := backup.Execute(w.site, w.dir, w.outer, w.tables, w.io, w.src, w.zip);
  }

  /** The part of the run after UPLOADING: the memory check, the upload
      and the remote purge. What follows SUCCESS is left to the caller. */
  method UploadStage(dropbox: Facade, w: World, o: Options, file: string) returns (effects: Effects)
    requires o.count >= 1
    ensures effects == UploadPlan(w, o, file).(localDeleted := [], unlinked := None)
    ensures effects.trace == [Record(Started, None), Record(Uploading, None), effects.trace[2]]
    ensures effects.localDeleted == [] && effects.unlinked == None
  {
    var begun := [Record(Started, None), Record(Uploading, None)];
    var needed := NeededMB(w.fileSize);
    var limit := LimitMB(w.memoryIni);
    var request: Option<string> := None;
    if needed > limit {
      request := Some(RequestedLimit(needed, limit));
      if !w.iniSetOk {
        return Effects(begun + [Record(Error, Some(MemoryMessage(needed)))], None, [], [], None, request);
      }
    }
    var err, put := dropbox.UploadBackup(w.fileExists, w.putError, w.status, w.body);
    var uploaded := if put then Some(o.dropboxLocation + "/" + file) else None;
    if err.Some? {
      return Effects(begun + [Record(Error, Some(ExceptionPrefix + err.value))], uploaded, [], [], None, request);
    }
    var remote, purgeError := dropbox.PurgeBackups(w.remote, o.count, w.metaError, w.deleteError);
    if purgeError.Some? {
      return Effects(begun + [Record(Error, Some(ExceptionPrefix + purgeError.value))], uploaded, remote, [], None, request);
    }
    effects := Effects(begun + [Record(Success, None)], uploaded, remote, [], None, request);
  }

  // ------------------------------------------------------------ cron schedules

  /** One cron recurrence: its interval in seconds and its label. */
  datatype Recurrence = Recurrence(interval: int, display: string)

  const Day: int := 86400

  /** The plugin's recurrences as written: the daily one is labelled
      "Weekly". */
  function NewSchedulesAsWritten(): map<string, Recurrence>
  {
    map[
      "daily" := Recurrence(86400, "Weekly"),
      "weekly" := Recurrence(604800, "Weekly"),
      "fortnightly" := Recurrence(1209600, "Fortnightly"),
      "monthly" := Recurrence(2419200, "Once Every 4 weeks"),
      "two_monthly" := Recurrence(4838400, "Once Every 8 weeks"),
      "three_monthly" := Recurrence(7257600, "Once Every 12 weeks")]
  }

  /** The recurrences with the daily one labelled as intended. */
  function NewSchedules(): (r: map<string, Recurrence>)
    ensures r.Keys == NewSchedulesAsWritten().Keys
    ensures forall k :: k in r ==> r[k].interval == NewSchedulesAsWritten()[k].interval
  {
    NewSchedulesAsWritten()["daily" := Recurrence(86400, "Daily")]
  }

  /** As written, two different recurrences carry the same label, so the
      schedule list cannot tell daily from weekly. */
  lemma DailyLabelAsWritten()
    ensures var m := NewSchedulesAsWritten();
      m["daily"].display == m["weekly"].display && m["daily"].interval != m["weekly"].interval
  {
  }

  /** With the corrected label every recurrence has a label of its own, and
      the intervals are whole multiples of a day: a week is seven days, and
      the longer ones are two, four, eight and twelve weeks. */
  lemma NewSchedulesSpec()
    ensures var m := NewSchedules();
      forall a, b :: a in m && b in m && a != b ==> m[a].display != m[b].display
    ensures var m := NewSchedules();
      && m["daily"].interval == Day
      && m["weekly"].interval == 7 * Day
      && m["fortnightly"].interval == 2 * m["weekly"].interval
      && m["monthly"].interval == 4 * m["weekly"].interval
      && m["two_monthly"].interval == 8 * m["weekly"].interval
      && m["three_monthly"].interval == 12 * m["weekly"].interval
  {
    var m := NewSchedules();
    assert m.Keys == {"daily", "weekly", "fortnightly", "monthly", "two_monthly", "three_monthly"};
  }

  /** backup_to_dropbox_cron_schedules: array_merge of WordPress's schedules
      with the plugin's; on a name both hold, the plugin's wins. */
  function CronSchedules(schedules: map<string, Recurrence>): (r: map<string, Recurrence>)
    ensures r.Keys == schedules.Keys + NewSchedules().Keys
    ensures forall k :: k in NewSchedules() ==> r[k] == NewSchedules()[k]
    ensures forall k :: k in schedules && k !in NewSchedules() ==> r[k] == schedules[k]
  {
    schedules + NewSchedules()
  }
}
