/** WP_Backup as the older revision (trunk/class-wp-backup.php) has it: the
    same options, history and schedule, a history cap of two statuses per
    backup, the whole database dump built in memory and written with one
    fwrite, the website put into a zip of its own without any memory
    management, and a run that stores both files inside a third zip. */
module WpBackupTrunk {
  import opened Common
  import opened History
  import opened Retention
  import opened Settings
  import opened SqlDump
  import opened Archive
  import opened Schedule

  /** History entries popped per backup: two statuses per backup. */
  const Batch: nat := 2

  /** Why a run of this revision throws: the dump directory cannot be
      created, the database dump fails, or the website archive fails. */
  datatype Failure = DirFailed | DumpFailed(dump: DumpFailure) | WebsiteFailed

  /** The text of the exception a run throws. */
  function Message(e: Failure): string
  {
    match e
    case DirFailed => "error while creating the local dump directory."
    case DumpFailed(TablesFailed) => "error while accessing database. (DB_01)"
    case DumpFailed(CreateFailed) => "error while accessing database. (DB_02)"
    case DumpFailed(SelectFailed) => "error while accessing database. (DB_03)"
    case DumpFailed(OpenFailed) => "error while creating database archive. (FS_01)"
    case DumpFailed(WriteFailed) => "error while creating database archive. (FS_02)"
    case DumpFailed(CloseFailed) => "error while creating database archive. (FS_03)"
    case WebsiteFailed => "error while creating the website archive"
  }

  // ------------------------------------------------------------ database

  /** The dump as this revision writes it when every query succeeded: the
      preamble, then one section per table. */
  function DumpText(site: Site, ts: seq<Table>): string
  {
    Concat(PreambleWrites(Head, site.version, site.generated)) + Sections(Dump, ts)
  }

  /** The name of the dump file. */
  function DumpFile(site: Site, dumpLocation: string): string
  {
    site.abspath + dumpLocation + "/db-backup-" + site.date + ".sql"
  }

  /** Which failure, if any, ends backup_database: every query runs before
      the file is touched, so SHOW TABLES, then the first unreadable table,
      then fopen, fwrite and fclose. */
  function DumpOutcome(tables: Option<seq<Table>>, io: FileIo): Option<DumpFailure>
  {
    if tables.None? then Some(TablesFailed)
    else if FirstTableFailure(tables.value).Some? then FirstTableFailure(tables.value)
    else if !io.openOk then Some(OpenFailed)
    else if !io.writeOk then Some(WriteFailed)
    else if !io.closeOk then Some(CloseFailed)
    else None
  }

  /** A dump succeeds exactly when every query and every file operation
      does; a query failure is reported whatever the file would have
      answered, and a file failure only when every query succeeded. */
  lemma DumpOutcomeSpec(tables: Option<seq<Table>>, io: FileIo)
    ensures DumpOutcome(tables, io) == None <==>
      tables.Some? && AllReadable(tables.value) && io.openOk && io.writeOk && io.closeOk
    ensures tables.Some? && !AllReadable(tables.value) ==>
      DumpOutcome(tables, io) == FirstTableFailure(tables.value)
    ensures DumpOutcome(tables, io) in {Some(OpenFailed), Some(WriteFailed), Some(CloseFailed)} ==>
      tables.Some? && AllReadable(tables.value)
  {
  }

  /** The first lines of the dump are not empty, so the single fwrite of a
      dump never writes zero bytes. */
  lemma PreambleNonEmpty(version: string, generated: string)
    ensures Concat(PreambleWrites(Head, version, generated)) != []
  {
    var w := PreambleWrites(Head, version, generated);
    assert w[0] == Head.title;
    assert Concat(w) == w[0] + Concat(w[1..]);
  }

  /** The INSERT appended to the accumulated text: the head line, one tuple
      and ",\n" per row, then rtrim of ",\n" from the whole text and the
      closing ";\n". With rows that is the INSERT statement; without rows
      the trim eats the head's newline and leaves the malformed statement. */
  method AppendInsert(b: Banners, out: string, name: string, rows: seq<Row>) returns (s: string)
    ensures rows != [] ==> s == out + InsertStatement(b, name, rows)
    ensures rows == [] ==> s == out + ZeroRowInsert(b, name)
  {
    var head := InsertHead(b, name, rows);
    ghost var p := out + head;
    s := out + head;
    var k := 0;
    while k < |rows|
      invariant 0 <= k <= |rows|
      invariant s == p + Concat(Suffixed(Tuples(rows)[..k], ",\n"))
    {
      var tuple := RenderTuple(rows[k]);
      ghost var c := Concat(Suffixed(Tuples(rows)[..k], ",\n"));
      RowsStep(rows, k);
      Regroup(p, c, tuple, ",\n");
      Assoc(c, tuple, ",\n");
      s := s + tuple + ",\n";
      k := k + 1;
    }
    assert Tuples(rows)[..k] == Tuples(rows);
    if rows == [] {
      var open := out + b.insert + name + "` (``) VALUES ";
      assert Concat(Suffixed(Tuples(rows), ",\n")) == "";
      assert s == open + "\n";
      RTrimTail(open, "\n", RowsTrim);
      s := RTrim(s, RowsTrim) + ";\n";
    } else {
      RowsTrimmed(rows);
      RTrimAppend(p, Concat(Suffixed(Tuples(rows), ",\n")), RowsTrim);
      var joined := Join(Tuples(rows), ",\n");
      s := RTrim(s, RowsTrim) + ";\n";
      Regroup(out, head, joined, ";\n");
    }
  }

  /** One table's part of the dump, appended to the accumulated text: the
      structure header, SHOW CREATE TABLE and its statement, SELECT, the
      data header and, for a table with rows, the INSERT. */
  method AppendTable(b: Banners, out: string, t: Table) returns (failure: Option<DumpFailure>, s: string)
    ensures t.create.None? ==> failure == Some(CreateFailed)
    ensures t.create.Some? && t.rows.None? ==> failure == Some(SelectFailed)
    ensures failure == None <==> Readable(t)
    ensures Readable(t) ==> s == out + Section(b, t.name, t.create.value, t.rows.value)
  {
    var head := StructureHeader(b, t.name);
    s := out + head;
    if t.create.None? {
      return Some(CreateFailed), s;
    }
    var create := t.create.value + ";\n\n";
    s := s + create;
    if t.rows.None? {
      return Some(SelectFailed), s;
    }
    var rows := t.rows.value;
    var data := DataHeader(b, t.name);
    s := s + data;
    ghost var before := s;
    if rows != [] {
      s := AppendInsert(b, s, t.name, rows);
    }
    var ins := if rows == [] then "" else InsertStatement(b, t.name, rows);
    assert s == before + ins;
    SectionPieces(b, t.name, t.create.value, rows);
    Regroup(out, head, create, data + ins);
    Regroup(out + head, create, data, ins);
    Assoc(out, head, create + (data + ins));
    failure := None;
  }

  /** The per-table part of backup_database, table by table in SHOW TABLES
      order, stopping at the first table whose queries fail. */
  method AppendTables(b: Banners, out: string, ts: seq<Table>) returns (failure: Option<DumpFailure>, s: string)
    ensures failure == FirstTableFailure(ts)
    ensures failure == None ==> s == out + Sections(b, ts)
  {
    s := out;
    var i := 0;
    while i < |ts|
      invariant 0 <= i <= |ts|
      invariant AllReadable(ts[..i])
      invariant s == out + Sections(b, ts[..i])
    {
      failure, s := AppendTable(b, s, ts[i]);
      if failure.Some? {
        FirstTableFailureAt(ts, i);
        return;
      }
      SectionsStep(out, b, ts, i);
      AllReadableSnoc(ts, i);
      i := i + 1;
    }
    assert ts[..i] == ts;
    failure := None;
  }

  // ------------------------------------------------------------ website

  /** The file-system answers of the website archive: whether the zip
      extension is loaded, and whether opening and closing the zip
      succeed. */
  datatype ZipIo = ZipIo(loaded: bool, openOk: bool, closeOk: bool)

  /** The website zip: ABSPATH, '/', the dump location and the day's name. */
  function WebsiteZip(site: Site, dumpLocation: string): string
  {
    site.abspath + "/" + dumpLocation + "/website-backup-" + site.date + ".zip"
  }

  /** What the website walk leaves out: everything inside the dump
      directory. */
  function Exclude(site: Site, dumpLocation: string): string
  {
    site.abspath + dumpLocation + "/"
  }

  /** Every path inside the dump directory is left out of the website
      archive, the dump of the same run included. */
  lemma ExcludesDumpDirectory(site: Site, dumpLocation: string, name: string)
    ensures !Selected(FsEntry(site.abspath + dumpLocation + "/" + name, false, 0, ""), Exclude(site, dumpLocation))
  {
    ExcludeDumpDirectory(site.abspath + dumpLocation, name);
  }

  /** backup_website succeeds exactly when the zip extension is loaded,
      ABSPATH exists, and the zip opens and closes. */
  predicate WebsiteOk(src: Source, zip: ZipIo)
  {
    zip.loaded && !src.Missing? && zip.openOk && zip.closeOk
  }

  /** The entries of the website zip: for a directory, its walk items whose
      path is not excluded, under their relative names; for a single file,
      that file under its basename. */
  function WebsiteEntries(site: Site, dumpLocation: string, src: Source): seq<ZipEntry>
  {
    match src
    case Missing => []
    case Directory(walk) => Entries(site.realpath, SelectedOf(walk, Exclude(site, dumpLocation)))
    case RegularFile(content) => [FileEntry(Basename(site.realpath), content)]
  }

  // ------------------------------------------------------------ execute

  /** The file-system answers of execute: whether the dump directory exists
      and whether mkdir succeeds. */
  datatype DirState = DirState(dirExists: bool, mkdirOk: bool)

  /** The answers of the outer zip: whether it opens, whether each of the
      two addFromString calls succeeds, and whether it closes. */
  datatype OuterZip = OuterZip(openOk: bool, addDbOk: bool, addWsOk: bool, closeOk: bool)

  /** The name of the day's backup zip. */
  function ZipName(site: Site): string
  {
    "wordpress-backup-" + site.date + ".zip"
  }

  /** What execute returns: its exception, false (None), or the zip name.
      Nothing is archived when the outer zip does not open; an exception of
      backup_database or backup_website ends the run; the name is returned
      only when both adds and the close succeed. */
  function ExecuteOutcome(dir: DirState, outer: OuterZip, tables: Option<seq<Table>>, io: FileIo, src: Source, zip: ZipIo, file: string)
    : Result<Option<string>, Failure>
  {
    if !dir.dirExists && !dir.mkdirOk then Err(DirFailed)
    else if !outer.openOk then Ok(None)
    else match DumpOutcome(tables, io)
      case Some(f) => Err(DumpFailed(f))
      case None =>
        if !WebsiteOk(src, zip) then Err(WebsiteFailed)
        else if outer.addDbOk && outer.addWsOk && outer.closeOk then Ok(Some(file))
        else Ok(None)
  }

  /** execute returns the zip name exactly when every step succeeded, and
      reports false, not an exception, when only the outer zip fails. */
  lemma ExecuteOutcomeSpec(dir: DirState, outer: OuterZip, tables: Option<seq<Table>>, io: FileIo, src: Source, zip: ZipIo, file: string)
    ensures ExecuteOutcome(dir, outer, tables, io, src, zip, file) == Ok(Some(file)) <==>
      (dir.dirExists || dir.mkdirOk) && outer.openOk && outer.addDbOk && outer.addWsOk && outer.closeOk
      && tables.Some? && AllReadable(tables.value) && io.openOk && io.writeOk && io.closeOk
      && WebsiteOk(src, zip)
    ensures (dir.dirExists || dir.mkdirOk) && !outer.openOk ==>
      ExecuteOutcome(dir, outer, tables, io, src, zip, file) == Ok(None)
  {
    DumpOutcomeSpec(tables, io);
  }

  class Backup {
    var options: Options
    var history: seq<Entry>
    var schedule: Option<(int, string)>

    /** The history is kept in krsort order. */
    predicate Valid()
      reads this
    {
      Descending(history)
    }

    /** Load the stored history (empty when there is none) and krsort it,
        load the stored options or the defaults, and take the schedule from
        the cron event, moved from server time to blog time. */
    constructor(storedHistory: Option<seq<Entry>>, storedOptions: Option<Options>, event: Option<CronEvent>, clock: Clock)
      requires storedHistory.Some? ==> DistinctKeys(storedHistory.value)
      ensures Valid()
      ensures history == if storedHistory.Some? then Krsort(storedHistory.value) else []
      ensures options == if storedOptions.Some? then storedOptions.value else Defaults
      ensures schedule == if event.Some? && event.value.time != 0 && event.value.recurrence != ""
        then Some((clock.blogNow + (event.value.time - clock.serverNow), event.value.recurrence))
        else None
    {
      if storedHistory.Some? {
        KrsortSpec(storedHistory.value);
        history := Krsort(storedHistory.value);
      } else {
        history := [];
      }
      options := if storedOptions.Some? then storedOptions.value else Defaults;
      if event.Some? && event.value.time != 0 && event.value.recurrence != "" {
        schedule := Some((clock.blogNow + (event.value.time - clock.serverNow), event.value.recurrence));
      } else {
        schedule := None;
      }
    }

    /** set_history: make room by popping the two oldest entries when the
        history holds count * 2 of them, store the record under the current
        blog time and krsort. */
    method SetHistory(status: Status, msg: Option<string>, clock: Clock)
      requires Valid()
      modifies this
      ensures Valid()
      ensures history == AfterSetHistory(old(history), options.count, Batch, clock.blogNow, Record(status, msg))
      ensures options == old(options) && schedule == old(schedule)
    {
      if |history| >= options.count * 2 {
        PopNMore(history, 0);
        PopNMore(history, 1);
        history := Pop(history);
        history := Pop(history);
      }
      history := Put(history, clock.blogNow, Record(status, msg));
      history := Krsort(history);
      SetHistoryEffect(old(history), options.count, Batch, clock.blogNow, Record(status, msg));
    }

    /** purge_backups: with a positive count, list the dump directory, asort
        the names and unlink the oldest beyond the count; returns the names
        unlinked, in order. */
    method PurgeBackups(listing: seq<string>) returns (deleted: seq<string>)
      ensures deleted == PurgeDeletions(Listed(listing), options.count)
    {
      deleted := [];
      var max := options.count;
      if max > 0 {
        var backups: seq<string> := [];
        var k := 0;
        while k < |listing| && listing[k] != "0"
          invariant 0 <= k <= ReaddirStop(listing)
          invariant backups == NonDot(listing[..k])
        {
          assert listing[..k + 1][..k] == listing[..k];
          if listing[k] != "." && listing[k] != ".." {
            backups := backups + [listing[k]];
          }
          k := k + 1;
        }
        var sorted := SortAsc(backups);
        var count := |backups|;
        if count > max {
          var diff := count - max;
          var i := 0;
          while i < diff
            invariant 0 <= i <= diff
            invariant deleted == sorted[..i]
          {
            assert sorted[..i + 1] == sorted[..i] + [sorted[i]];
            deleted := deleted + [sorted[i]];
            i := i + 1;
          }
        }
      }
    }

    /** set_options: clamp the count to at least one; when it drops by d, pop
        2 * d history entries; store the new options; then purge the local
        backups against the new count. */
    method SetOptions(dumpLocation: string, dropboxLocation: string, keepLocal: bool, count: int, listing: seq<string>)
      returns (deleted: seq<string>)
      requires Valid()
      modifies this
      ensures Valid()
      ensures options == Options(dumpLocation, dropboxLocation, keepLocal, ClampCount(count))
      ensures history == if old(options.count) > ClampCount(count)
        then PopN(old(history), Batch * (old(options.count) - ClampCount(count)))
        else old(history)
      ensures deleted == SetOptionsDeletions(old(options.count), count, Listed(listing))
      ensures schedule == old(schedule)
    {
      var backupCount := count;
      if backupCount < 1 {
        backupCount := 1;
      }
      var purge := options.count > backupCount;
      if purge {
        var diff := options.count - backupCount;
        var i := 0;
        while i < diff
          invariant 0 <= i <= diff
          invariant history == PopN(old(history), 2 * i)
          invariant options == old(options) && schedule == old(schedule)
        {
          PopNMore(old(history), 2 * i);
          PopNMore(old(history), 2 * i + 1);
          history := Pop(history);
          history := Pop(history);
          i := i + 1;
        }
        PopNPrefix(old(history), 2 * diff);
        DescendingPrefix(old(history), |history|);
      }
      options := Options(dumpLocation, dropboxLocation, keepLocal, backupCount);
      if purge {
        deleted := PurgeBackups(listing);
      } else {
        deleted := [];
      }
    }

    /** backup_database: query the tables and build the whole dump in
        memory, then open the file, write the dump with one fwrite and close
        it. Returns the file name or the failure, and the text written. */
    method BackupDatabase(site: Site, tables: Option<seq<Table>>, io: FileIo) returns (r: Result<string, Failure>, text: string)
      ensures r == match DumpOutcome(tables, io)
                   case None => Ok(DumpFile(site, options.dumpLocation))
                   case Some(f) => Err(DumpFailed(f))
      ensures r.Ok? ==> text == DumpText(site, tables.value)
      ensures r.Err? ==> text == []
    {
      text := [];
      if tables.None? {
        return Err(DumpFailed(TablesFailed)), text;
      }
      var out := Concat(PreambleWrites(Head, site.version, site.generated));
      var failure;
      failure, out := AppendTables(Dump, out, tables.value);
      if failure.Some? {
        return Err(DumpFailed(failure.value)), text;
      }
      var filename := DumpFile(site, options.dumpLocation);
      if !io.openOk {
        return Err(DumpFailed(OpenFailed)), text;
      }
      PreambleNonEmpty(site.version, site.generated);
      var ret := io.writeOk && out != [];
      if !ret {
        return Err(DumpFailed(WriteFailed)), text;
      }
      if !io.closeOk {
        return Err(DumpFailed(CloseFailed)), text;
      }
      text := out;
      r := Ok(filename);
    }

    /** backup_website: with the zip extension loaded and ABSPATH present,
        open the website zip and add either every walk item whose path is
        not excluded or the single file ABSPATH names; the result is the
        zip's name when it closes. Returns also the entries added. */
    method BackupWebsite(site: Site, src: Source, zip: ZipIo) returns (r: Result<string, Failure>, entries: seq<ZipEntry>)
      ensures r == if WebsiteOk(src, zip) then Ok(WebsiteZip(site, options.dumpLocation)) else Err(WebsiteFailed)
      ensures r.Ok? ==> entries == WebsiteEntries(site, options.dumpLocation, src)
    {
      var destination := WebsiteZip(site, options.dumpLocation);
      var exclude := Exclude(site, options.dumpLocation);
      entries := [];
      if !zip.loaded || src.Missing? {
        return Err(WebsiteFailed), entries;
      }
      if zip.openOk {
        var source := site.realpath;
        match src {
          case Directory(walk) =>
            var i := 0;
            while i < |walk|
              invariant 0 <= i <= |walk|
              invariant entries == Entries(source, SelectedOf(walk[..i], exclude))
            {
              assert walk[..i + 1][..i] == walk[..i];
              if !Contains(walk[i].path, exclude) {
                var sel := SelectedOf(walk[..i], exclude);
                assert (sel + [walk[i]])[..|sel|] == sel;
                entries := entries + [EntryFor(source, walk[i])];
              }
              i := i + 1;
            }
            assert walk[..i] == walk;
          case RegularFile(content) =>
            entries := [FileEntry(Basename(source), content)];
        }
      }
      if zip.openOk && zip.closeOk {
        return Ok(destination), entries;
      }
      r := Err(WebsiteFailed);
    }

    /** backup_now: queue one run of the periodic backup hook now. */
    method BackupNow(cron: Cron, clock: Clock)
      modifies cron
      ensures cron.single == old(cron.single) + [SingleEvent(clock.serverNow, "execute_periodic_drobox_backup")]
      ensures cron.periodic == old(cron.periodic)
    {
      cron.ScheduleSingle(clock.serverNow, "execute_periodic_drobox_backup");
    }

    /** set_schedule: pick the run day for the weekday and hour, remove the
        periodic event if there is one, register the new one at the server
        time of the chosen blog time, and remember the blog time and the
        recurrence. Returns the event that was removed. */
    method SetSchedule(day: int, hour: int, minute: int, recurrence: string, clock: Clock, cron: Cron)
      returns (removed: Option<CronEvent>)
      requires 0 <= day < 7
      modifies this, cron
      ensures removed == old(cron.periodic)
      ensures var s := ScheduledTime(RunDayAsWritten(clock.today, clock.serverToday, clock.hour, day, hour), hour, minute);
        && schedule == Some((s, recurrence))
        && cron.periodic == Some(CronEvent(ServerTime(clock.serverNow, clock.blogNow, s), recurrence))
      ensures cron.single == old(cron.single)
      ensures options == old(options) && history == old(history)
    {
      var date := clock.today;
      if Weekday(clock.today) != day {
        date := NextWeekday(clock.serverToday, day);
      } else if hour <= clock.hour {
        date := clock.serverToday + 7;
      }
      removed := cron.periodic;
      if cron.periodic.Some? {
        cron.Unschedule();
      }
      var scheduled := ScheduledTime(date, hour, minute);
      var serverTime := clock.serverNow + (scheduled - clock.blogNow);
      cron.SchedulePeriodic(serverTime, recurrence);
      schedule := Some((scheduled, recurrence));
    }

    /** execute: make sure the dump directory exists, open the day's zip,
        dump the database and archive the website, add both files to the
        zip under their basenames and close it; the two files are removed
        only when both adds and the close succeed. Returns the zip's name,
        None for false, or the exception; the entries added to the zip; and
        the files removed. */
    method Execute(site: Site, dir: DirState, outer: OuterZip, tables: Option<seq<Table>>, io: FileIo, src: Source, zip: ZipIo)
      returns (r: Result<Option<string>, Failure>, archive: seq<ZipEntry>, removed: seq<string>)
      ensures r == ExecuteOutcome(dir, outer, tables, io, src, zip, ZipName(site))
      ensures removed == if r.Ok? && r.value.Some?
        then [DumpFile(site, options.dumpLocation), WebsiteZip(site, options.dumpLocation)]
        else []
      ensures r.Ok? && r.value.Some? ==>
        archive == [FileEntry(Basename(DumpFile(site, options.dumpLocation)), DumpText(site, tables.value)),
                    ZipFileEntry(Basename(WebsiteZip(site, options.dumpLocation)), WebsiteEntries(site, options.dumpLocation, src))]
    {
      var file := ZipName(site);
      archive := [];
      removed := [];
      if !dir.dirExists && !dir.mkdirOk {
        return Err(DirFailed), archive, removed;
      }
      if !outer.openOk {
        return Ok(None), archive, removed;
      }
      var db, dump := BackupDatabase(site, tables, io);
      if db.Err? {
        return Err(db.error), archive, removed;
      }
      var ws, entries := BackupWebsite(site, src, zip);
      if ws.Err? {
        return Err(ws.error), archive, removed;
      }
      if outer.addDbOk && outer.addWsOk && outer.closeOk {
        archive := [FileEntry(Basename(db.value), dump), ZipFileEntry(Basename(ws.value), entries)];
        removed := [db.value, ws.value];
        return Ok(Some(file)), archive, removed;
      }
      if outer.addDbOk {
        archive := archive + [FileEntry(Basename(db.value), dump)];
      }
      if outer.addWsOk {
        archive := archive + [ZipFileEntry(Basename(ws.value), entries)];
      }
      r := Ok(None);
    }
  }
}
