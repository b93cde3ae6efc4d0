/** WP_Backup as the newer revision (class-wp-backup.php) has it: one object
    holding the options, the backup history and the schedule, whose methods
    update them; the local purge; the database dump written to its file one
    piece at a time; the website zip flushed to disk as memory fills; and
    the run that puts the dump and the website into one zip. */
module WpBackup {
  import opened Common
  import opened History
  import opened Retention
  import opened Settings
  import opened SqlDump
  import opened Archive
  import opened Schedule

  /** History entries popped per backup: three statuses per backup. */
  const Batch: nat := 3

  /** The exception texts of backup_database. */
  function DumpMessage(f: DumpFailure): string
  {
    match f
    case TablesFailed => "error while accessing database. (ERROR_3)"
    case OpenFailed => "error creating sql dump file. (ERROR_4)"
    case WriteFailed => "error writing to sql dump file. (ERROR_10)"
    case CreateFailed => "error while accessing database. (ERROR_5)"
    case SelectFailed => "error while accessing database. (ERROR_6)"
    case CloseFailed => "error closing sql dump file. (ERROR_7)"
  }

  /** The exception texts of backup_website. */
  function ZipMessage(f: ZipFailure): string
  {
    match f
    case RaiseFailed =>
      "Memory limit error adding a file to the zip archive. The plugin attempted to increase the memory limit automatically but failed due to server restrictions."
    case ZipOpenFailed => "error opening zip archive. (ERROR_1)"
    case ZipCloseFailed => "error closing zip archive (ERROR_2)"
  }

  /** Why a backup run throws: the dump directory cannot be created, the
      day's earlier zip cannot be removed, or the dump or the website
      archive fails. */
  datatype Failure = DirFailed | OverwriteFailed(file: string) | DumpFailed(dump: DumpFailure) | ZipFailed(zip: ZipFailure)

  /** The text of the exception a run throws. */
  function Message(e: Failure): string
  {
    match e
    case DirFailed => "error while creating the local dump directory."
    case OverwriteFailed(file) => "error overwriting backup file " + file + "."
    case DumpFailed(f) => DumpMessage(f)
    case ZipFailed(f) => ZipMessage(f)
  }

  /** Every text written to the dump file before the first table. */
  function HeaderWrites(site: Site): seq<string>
  {
    PreambleWrites(Head, site.version, site.generated) + DatabaseWrites(Recreate, site.dbName)
  }

  /** Every text written before the first table is non-empty, so none of
      those writes fails on its own. */
  lemma HeaderWritesNonEmpty(site: Site)
    ensures NonEmpty(HeaderWrites(site))
  {
  }

  /** The dump file's content after a run in which every query succeeded. */
  function DumpText(site: Site, ts: seq<Table>): string
  {
    Concat(HeaderWrites(site)) + Sections(Dump, ts)
  }

  /** Which failure, if any, ends backup_database: SHOW TABLES, then
      fopen, then the header writes, then the first unreadable table, then
      fclose. */
  function DumpOutcome(tables: Option<seq<Table>>, io: FileIo): Option<DumpFailure>
  {
    if tables.None? then Some(TablesFailed)
    else if !io.openOk then Some(OpenFailed)
    else if !io.writeOk then Some(WriteFailed)
    else if FirstTableFailure(tables.value).Some? then FirstTableFailure(tables.value)
    else if !io.closeOk then Some(CloseFailed)
    else None
  }

  /** A dump succeeds exactly when every query and every file operation
      does; a failed SHOW TABLES stops it before the file is touched, and a
      failed fclose is reported only when everything before it succeeded. */
  lemma DumpOutcomeSpec(tables: Option<seq<Table>>, io: FileIo)
    ensures DumpOutcome(tables, io) == None <==>
      tables.Some? && io.openOk && io.writeOk && io.closeOk
      && AllReadable(tables.value)
    ensures tables.None? ==> DumpOutcome(tables, io) == Some(TablesFailed)
    ensures DumpOutcome(tables, io) == Some(CloseFailed) <==>
      tables.Some? && io.openOk && io.writeOk && !io.closeOk
      && AllReadable(tables.value)
  {
  }

  /** The body of backup_database from SHOW TABLES to fclose, given the
      texts written before the first table and the table banners: the
      failure that ends it, and the text the dump file holds. */
  method DumpDatabase(header: seq<string>, b: Banners, tables: Option<seq<Table>>, io: FileIo)
    returns (failure: Option<DumpFailure>, text: string)
    requires NonEmpty(header)
    ensures failure == DumpOutcome(tables, io)
    ensures tables.Some? && io.openOk && io.writeOk && FirstTableFailure(tables.value) == None ==>
      text == Concat(header) + Sections(b, tables.value)
  {
    text := "";
    if tables.None? {
      return Some(TablesFailed), text;
    }
    if !io.openOk {
      return Some(OpenFailed), text;
    }
    var ok;
    ok, text := WriteAll(text, header, io);
    if !ok {
      return Some(WriteFailed), text;
    }
    EmptyPrefix(Concat(header));
    failure, text := DumpTables(b, text, tables.value, io);
    if failure == None && !io.closeOk {
      failure := Some(CloseFailed);
    }
  }

  /** The name of the dump file. */
  function DumpFile(site: Site, dumpLocation: string): string
  {
    site.abspath + dumpLocation + "/db-backup-" + site.date + ".sql"
  }

  /** What backup_website returns: nothing to add when the site root is not
      a directory, otherwise the walk's entries or its failure. */
  function WebsiteOutcome(site: Site, dumpLocation: string, src: Source, probes: seq<Probe>): Result<seq<ZipEntry>, ZipFailure>
    requires src.Directory? ==> |probes| == |src.walk|
  {
    if !src.Directory? then Ok([])
    else match Run(src.walk, probes, Exclude(site, dumpLocation), site.realpath, MemoryLimit(site.memoryLimit))
         case Ok(st) => Ok(st.entries)
         case Err(f) => Err(f)
  }

  /** The checks execute makes before dumping: the dump directory must
      exist or be created, and an earlier zip of the same day must be
      removable. */
  function PrepareFailure(file: string, dir: DirState): Option<Failure>
  {
    if !dir.dirExists && !dir.mkdirOk then Some(DirFailed)
    else if dir.zipExists && !dir.unlinkOk then Some(OverwriteFailed(file))
    else None
  }

  /** What the website walk leaves out: the backup zips in the dump
      directory. */
  function Exclude(site: Site, dumpLocation: string): string
  {
    site.abspath + dumpLocation + "/wordpress-backup"
  }

  /** The file-system answers of execute: whether the dump directory exists,
      whether mkdir succeeds, whether an old zip of the same day exists, and
      whether unlinking it succeeds. */
  datatype DirState = DirState(dirExists: bool, mkdirOk: bool, zipExists: bool, unlinkOk: bool)

  /** write_to_file: one fwrite, which fails when the file refuses writes or
      when the text is empty (fwrite then reports 0 bytes). */
  method WriteToFile(text: string, chunk: string, io: FileIo) returns (ok: bool, written: string)
    ensures ok == (io.writeOk && chunk != [])
    ensures written == if ok then text + chunk else text
  {
    ok := io.writeOk && chunk != [];
    written := if ok then text + chunk else text;
  }

  predicate NonEmpty(chunks: seq<string>)
  {
    forall k :: 0 <= k < |chunks| ==> chunks[k] != []
  }

  /** Several write_to_file calls in a row, stopping at the first failure. */
  method WriteAll(text: string, chunks: seq<string>, io: FileIo) returns (ok: bool, written: string)
    ensures ok == (io.writeOk && NonEmpty(chunks))
    ensures ok ==> written == text + Concat(chunks)
  {
    written := text;
    var i := 0;
    ok := true;
    while i < |chunks|
      invariant 0 <= i <= |chunks|
      invariant forall k :: 0 <= k < i ==> chunks[k] != []
      invariant io.writeOk || i == 0
      invariant written == text + Concat(chunks[..i])
    {
      ok, written := WriteToFile(written, chunks[i], io);
      if !ok {
        return;
      }
      assert chunks[..i + 1] == chunks[..i] + [chunks[i]];
      ConcatSnoc(chunks[..i], chunks[i]);
      i := i + 1;
    }
    assert chunks[..i] == chunks;
    ok := io.writeOk;
  }

  /** The data part of a table's section: the data header and, for a table
      with rows, the INSERT statement, written one piece at a time. */
  method DumpData(b: Banners, text: string, name: string, rows: seq<Row>, io: FileIo) returns (ok: bool, written: string)
    requires io.writeOk
    ensures ok && written == text + (DataHeader(b, name) + (if rows == [] then "" else InsertStatement(b, name, rows)))
  {
    var data := DataHeader(b, name);
    assert data == b.data + name + "`\n--\n\n";
    ok, written := WriteToFile(text, data, io);
    if !ok {
      return;
    }
    if rows == [] {
      assert written == text + (data + "");
    } else {
      var head := InsertHead(b, name, rows);
      assert |head| >= |") VALUES \n"|;
      ok, written := WriteToFile(written, head, io);
      if !ok {
        return;
      }
      var body := RenderRows(rows);
      ok, written := WriteToFile(written, body, io);
      if !ok {
        return;
      }
      Regroup(text, data, head, body);
      assert InsertStatement(b, name, rows) == head + body;
    }
  }

  /** One table's part of backup_database: the structure header, SHOW
      CREATE TABLE and its statement, then SELECT and the data part.
      Returns the failure that ends the dump, if any. */
  method DumpTable(b: Banners, text: string, t: Table, io: FileIo) returns (failure: Option<DumpFailure>, written: string)
    requires io.writeOk
    ensures t.create.None? ==> failure == Some(CreateFailed)
    ensures t.create.Some? && t.rows.None? ==> failure == Some(SelectFailed)
    ensures failure == None <==> Readable(t)
    ensures Readable(t) ==> written == text + Section(b, t.name, t.create.value, t.rows.value)
  {
    var ok;
    var head := StructureHeader(b, t.name);
    assert head == b.structure + t.name + "`\n--\n\n";
    ok, written := WriteToFile(text, head, io);
    if !ok {
      return Some(WriteFailed), written;
    }
    if t.create.None? {
      return Some(CreateFailed), written;
    }
    var create := t.create.value + ";\n\n";
    ok, written := WriteToFile(written, create, io);
    if !ok {
      return Some(WriteFailed), written;
    }
    if t.rows.None? {
      return Some(SelectFailed), written;
    }
    ghost var before := written;
    ok, written := DumpData(b, written, t.name, t.rows.value, io);
    if !ok {
      return Some(WriteFailed), written;
    }
    SectionPieces(b, t.name, t.create.value, t.rows.value);
    Regroup(text, head, create, written[|before|..]);
    failure := None;
  }

  /** The per-table part of backup_database, table by table in SHOW TABLES
      order, stopping at the first table whose queries fail. */
  method DumpTables(b: Banners, text: string, ts: seq<Table>, io: FileIo) returns (failure: Option<DumpFailure>, written: string)
    requires io.writeOk
    ensures failure == FirstTableFailure(ts)
    ensures failure == None ==> written == text + Sections(b, ts)
  {
    written := text;
    var i := 0;
    while i < |ts|
      invariant 0 <= i <= |ts|
      invariant AllReadable(ts[..i])
      invariant written == text + Sections(b, ts[..i])
    {
      failure, written := DumpTable(b, written, ts[i], io);
      if failure.Some? {
        FirstTableFailureAt(ts, i);
        return;
      }
      SectionsStep(text, b, ts, i);
      AllReadableSnoc(ts, i);
      i := i + 1;
    }
    assert ts[..i] == ts;
    failure := None;
  }

  /** Archiving one walk item whose path is not excluded: raise the limit
      for an oversize file or fail, open the zip if it is closed, add the
      directory or file entry, and close the zip when memory use is past the
      threshold. */
  method AddItem(st: ZipState, e: FsEntry, p: Probe, limit: int, source: string) returns (res: Result<ZipState, ZipFailure>)
    ensures res == Step(st, e, p, limit, source)
    ensures res.Ok? ==>
      && res.value.entries == st.entries + [EntryFor(source, e)]
      && res.value.limit3 == LimitInForce(st, e, limit)
      && (!res.value.isOpen <==> PastClose(p.usage, res.value.limit3))
    ensures res.Err? <==>
      (Oversize(e.size, limit) && !p.raiseOk) || (!st.isOpen && !p.openOk)
      || (PastClose(p.usage, LimitInForce(st, e, limit)) && !p.closeOk)
  {
    StepSpec(st, e, p, limit, source);
    var limit3 := st.limit3;
    var isOpen := st.isOpen;
    if 2 * e.size > limit {
      var newLimit := RaisedLimitMB(e.size);
      if p.raiseOk {
        limit3 := newLimit * MB;
      } else {
        return Err(RaiseFailed);
      }
    }
    if !isOpen {
      if !p.openOk {
        return Err(ZipOpenFailed);
      }
      isOpen := true;
    }
    var entries := st.entries;
    if e.isDir {
      entries := entries + [DirEntry(StripPrefix(e.path + "/", source + "/"))];
    } else {
      entries := entries + [FileEntry(StripPrefix(e.path, source + "/"), e.content)];
    }
    if 3 * p.usage > limit3 {
      if !p.closeOk {
        return Err(ZipCloseFailed);
      }
      isOpen := false;
    }
    res := Ok(ZipState(entries, isOpen, limit3));
  }

  class Backup {
    var options: Options
    var history: seq<Entry>
    var schedule: Option<(int, string)>

    /** The history is kept in krsort order. */
    predicate Valid()
      reads this
    {
      Descending(history)
    }

    /** Load the stored history (empty when there is none) and krsort it,
        load the stored options or the defaults, and take the schedule from
        the cron event, moved from server time to blog time. */
    constructor(storedHistory: Option<seq<Entry>>, storedOptions: Option<Options>, event: Option<CronEvent>, clock: Clock)
      requires storedHistory.Some? ==> DistinctKeys(storedHistory.value)
      ensures Valid()
      ensures history == if storedHistory.Some? then Krsort(storedHistory.value) else []
      ensures options == if storedOptions.Some? then storedOptions.value else Defaults
      ensures schedule == if event.Some? && event.value.time != 0 && event.value.recurrence != ""
        then Some((clock.blogNow + (event.value.time - clock.serverNow), event.value.recurrence))
        else None
    {
      if storedHistory.Some? {
        KrsortSpec(storedHistory.value);
        history := Krsort(storedHistory.value);
      } else {
        history := [];
      }
      options := if storedOptions.Some? then storedOptions.value else Defaults;
      if event.Some? && event.value.time != 0 && event.value.recurrence != "" {
        schedule := Some((clock.blogNow + (event.value.time - clock.serverNow), event.value.recurrence));
      } else {
        schedule := None;
      }
    }

    /** set_history: make room by popping the three oldest entries when the
        history holds count * 3 of them, store the record under the current
        blog time and krsort. */
    method SetHistory(status: Status, msg: Option<string>, clock: Clock)
      requires Valid()
      modifies this
      ensures Valid()
      ensures history == AfterSetHistory(old(history), options.count, Batch, clock.blogNow, Record(status, msg))
      ensures options == old(options) && schedule == old(schedule)
    {
      if |history| >= options.count * 3 {
        PopNMore(history, 0);
        PopNMore(history, 1);
        PopNMore(history, 2);
        history := Pop(history);
        history := Pop(history);
        history := Pop(history);
      }
      history := Put(history, clock.blogNow, Record(status, msg));
      history := Krsort(history);
      SetHistoryEffect(old(history), options.count, Batch, clock.blogNow, Record(status, msg));
    }

    /** purge_backups: with a positive count, list the dump directory, asort
        the names and unlink the oldest beyond the count; returns the names
        unlinked, in order. */
    method PurgeBackups(listing: seq<string>) returns (deleted: seq<string>)
      ensures deleted == PurgeDeletions(Listed(listing), options.count)
    {
      deleted := [];
      var max := options.count;
      if max > 0 {
        var backups: seq<string> := [];
        var k := 0;
        while k < |listing| && listing[k] != "0"
          invariant 0 <= k <= ReaddirStop(listing)
          invariant backups == NonDot(listing[..k])
        {
          assert listing[..k + 1][..k] == listing[..k];
          if listing[k] != "." && listing[k] != ".." {
            backups := backups + [listing[k]];
          }
          k := k + 1;
        }
        var sorted := SortAsc(backups);
        var count := |backups|;
        if count > max {
          var diff := count - max;
          var i := 0;
          while i < diff
            invariant 0 <= i <= diff
            invariant deleted == sorted[..i]
          {
            assert sorted[..i + 1] == sorted[..i] + [sorted[i]];
            deleted := deleted + [sorted[i]];
            i := i + 1;
          }
        }
      }
    }

    /** set_options: clamp the count to at least one; when it drops by d, pop
        3 * d history entries; store the new options; then purge the local
        backups against the new count. */
    method SetOptions(dumpLocation: string, dropboxLocation: string, keepLocal: bool, count: int, listing: seq<string>)
      returns (deleted: seq<string>)
      requires Valid()
      modifies this
      ensures Valid()
      ensures options == Options(dumpLocation, dropboxLocation, keepLocal, ClampCount(count))
      ensures history == if old(options.count) > ClampCount(count)
        then PopN(old(history), Batch * (old(options.count) - ClampCount(count)))
        else old(history)
      ensures deleted == SetOptionsDeletions(old(options.count), count, Listed(listing))
      ensures schedule == old(schedule)
    {
      var backupCount := count;
      if backupCount < 1 {
        backupCount := 1;
      }
      var purge := options.count > backupCount;
      if purge {
        var diff := options.count - backupCount;
        var i := 0;
        while i < diff
          invariant 0 <= i <= diff
          invariant history == PopN(old(history), 3 * i)
          invariant options == old(options) && schedule == old(schedule)
        {
          PopNMore(old(history), 3 * i);
          PopNMore(old(history), 3 * i + 1);
          PopNMore(old(history), 3 * i + 2);
          history := Pop(history);
          history := Pop(history);
          history := Pop(history);
          i := i + 1;
        }
        PopNPrefix(old(history), 3 * diff);
        DescendingPrefix(old(history), |history|);
      }
      options := Options(dumpLocation, dropboxLocation, keepLocal, backupCount);
      if purge {
        deleted := PurgeBackups(listing);
      } else {
        deleted := [];
      }
    }

    /** backup_database: query the tables, open the dump file, write the
        header, then per table its structure header, CREATE statement, data
        header and INSERT, and close the file. Returns the file name or the
        exception text, and the text written. */
    method BackupDatabase(site: Site, tables: Option<seq<Table>>, io: FileIo) returns (r: Result<string, Failure>, text: string)
      ensures r == match DumpOutcome(tables, io)
                   case None => Ok(DumpFile(site, options.dumpLocation))
                   case Some(f) => Err(DumpFailed(f))
      ensures tables.Some? && io.openOk && io.writeOk && FirstTableFailure(tables.value) == None ==>
        text == DumpText(site, tables.value)
    {
      var failure: Option<DumpFailure>;
      HeaderWritesNonEmpty(site);
      failure, text := DumpDatabase(HeaderWrites(site), Dump, tables, io);
      if failure.Some? {
        r := Err(DumpFailed(failure.value));
      } else {
        r := Ok(DumpFile(site, options.dumpLocation));
      }
    }

    /** backup_website: walk the site and add every item whose path is not
        excluded, raising the memory limit for oversize files, opening the
        zip when it is closed, and closing it to flush when memory use passes
        the threshold. Returns the archive's entries or the exception text. */
    method BackupWebsite(site: Site, src: Source, probes: seq<Probe>) returns (r: Result<seq<ZipEntry>, Failure>)
      requires src.Directory? ==> |probes| == |src.walk|
      ensures r == match WebsiteOutcome(site, options.dumpLocation, src, probes)
                   case Ok(es) => Ok(es)
                   case Err(f) => Err(ZipFailed(f))
      ensures src.Directory? && r.Ok? ==>
        r.value == Entries(site.realpath, SelectedOf(src.walk, Exclude(site, options.dumpLocation)))
    {
      if !src.Directory? {
        return Ok([]);
      }
      var walk := src.walk;
      var source := site.realpath;
      var exclude := Exclude(site, options.dumpLocation);
      var limit := MemoryLimit(site.memoryLimit);
      var st := ZipState([], false, limit);
      var i := 0;
      while i < |walk|
        invariant 0 <= i <= |walk|
        invariant Run(walk[..i], probes[..i], exclude, source, limit) == Ok(st)
      {
        assert walk[..i + 1][..i] == walk[..i] && probes[..i + 1][..i] == probes[..i];
        if !Contains(walk[i].path, exclude) {
          var res := AddItem(st, walk[i], probes[i], limit, source);
          if res.Err? {
            RunPrefixErr(walk, probes, exclude, source, limit, i + 1);
            return Err(ZipFailed(res.error));
          }
          st := res.value;
        }
        i := i + 1;
      }
      assert walk[..i] == walk && probes[..i] == probes;
      RunEntries(walk, probes, exclude, source, limit);
      r := Ok(st.entries);
    }

    /** backup_now: queue one run of the instant backup hook now. */
    method BackupNow(cron: Cron, clock: Clock)
      modifies cron
      ensures cron.single == old(cron.single) + [SingleEvent(clock.serverNow, "execute_instant_drobox_backup")]
      ensures cron.periodic == old(cron.periodic)
    {
      cron.ScheduleSingle(clock.serverNow, "execute_instant_drobox_backup");
    }

    /** set_schedule: pick the run day for the weekday and hour, remove the
        periodic event if there is one, register the new one at the server
        time of the chosen blog time, and remember the blog time and the
        recurrence. Returns the event that was removed. */
    method SetSchedule(day: int, hour: int, minute: int, recurrence: string, clock: Clock, cron: Cron)
      returns (removed: Option<CronEvent>)
      requires 0 <= day < 7
      modifies this, cron
      ensures removed == old(cron.periodic)
      ensures var s := ScheduledTime(RunDayAsWritten(clock.today, clock.serverToday, clock.hour, day, hour), hour, minute);
        && schedule == Some((s, recurrence))
        && cron.periodic == Some(CronEvent(ServerTime(clock.serverNow, clock.blogNow, s), recurrence))
      ensures cron.single == old(cron.single)
      ensures options == old(options) && history == old(history)
    {
      var date := clock.today;
      if Weekday(clock.today) != day {
        date := NextWeekday(clock.serverToday, day);
      } else if hour <= clock.hour {
        date := clock.serverToday + 7;
      }
      removed := cron.periodic;
      if cron.periodic.Some? {
        cron.Unschedule();
      }
      var scheduled := ScheduledTime(date, hour, minute);
      var serverTime := clock.serverNow + (scheduled - clock.blogNow);
      cron.SchedulePeriodic(serverTime, recurrence);
      schedule := Some((scheduled, recurrence));
    }

    /** The two archiving steps of execute: backup_database, whose
        exception stops the run, then backup_website. Returns the dump file
        to remove, or the failure, and the website's entries. */
    method DumpAndArchive(site: Site, tables: Option<seq<Table>>, io: FileIo, src: Source, probes: seq<Probe>)
      returns (r: Result<string, Failure>, archive: seq<ZipEntry>)
      requires src.Directory? ==> |probes| == |src.walk|
      ensures r == match DumpOutcome(tables, io)
                   case Some(f) => Err(DumpFailed(f))
                   case None =>
                     match WebsiteOutcome(site, options.dumpLocation, src, probes)
                     case Err(f) => Err(ZipFailed(f))
                     case Ok(_) => Ok(DumpFile(site, options.dumpLocation))
      ensures r.Ok? ==> archive == WebsiteOutcome(site, options.dumpLocation, src, probes).value
    {
      archive := [];
      var db, dump := BackupDatabase(site, tables, io);
      if db.Err? {
        return db, archive;
      }
      var ws := BackupWebsite(site, src, probes);
      if ws.Err? {
        return Err(ws.error), archive;
      }
      archive := ws.value;
      r := db;
    }

    /** execute: make sure the dump directory exists, remove an earlier zip
        of the same day, dump the database, zip the website (the dump file
        included), and delete the dump file. Returns the zip's file name or
        the exception text, the archive's entries, and the files deleted. */
    method Execute(site: Site, dir: DirState, tables: Option<seq<Table>>, io: FileIo, src: Source, probes: seq<Probe>)
      returns (r: Result<string, Failure>, archive: seq<ZipEntry>, removed: seq<string>)
      requires src.Directory? ==> |probes| == |src.walk|
      ensures var file := "wordpress-backup-" + site.date + ".zip";
        r == match PrepareFailure(file, dir)
             case Some(e) => Err(e)
             case None =>
               match DumpOutcome(tables, io)
               case Some(f) => Err(DumpFailed(f))
               case None =>
                 match WebsiteOutcome(site, options.dumpLocation, src, probes)
                 case Err(f) => Err(ZipFailed(f))
                 case Ok(_) => Ok(file)
      ensures r.Ok? ==>
        archive == WebsiteOutcome(site, options.dumpLocation, src, probes).value
        && removed == (if dir.zipExists then [site.abspath + options.dumpLocation + "/" + r.value] else [])
                      + [DumpFile(site, options.dumpLocation)]
      ensures var file := "wordpress-backup-" + site.date + ".zip";
        r.Err? ==>
          removed == (if PrepareFailure(file, dir).None? && dir.zipExists
                      then [site.abspath + options.dumpLocation + "/" + file] else [])
    {
      var file := "wordpress-backup-" + site.date + ".zip";
      var dumpDir := site.abspath + options.dumpLocation;
      var destination := dumpDir + "/" + file;
      archive := [];
      removed := [];
      var prep := PrepareFailure(file, dir);
      if prep.Some? {
        r := Err(prep.value);
        return;
      }
      if dir.zipExists {
        removed := [destination];
      }
      var res;
      res, archive := DumpAndArchive(site, tables, io, src, probes);
      if res.Err? {
        r := Err(res.error);
        return;
      }
      removed := removed + [res.value];
      r := Ok(file);
    }
  }
}
