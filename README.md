# WordPress Backup to Dropbox: the backup engine in Dafny

This project models the core of the WordPress plugin "WordPress Backup to Dropbox" and proves properties of that model. The core has four parts:

- `WP_Backup` in two revisions. The newer one is class-wp-backup.php; the older one is trunk/class-wp-backup.php. `WP_Backup` keeps:
  - the backup history, a map from timestamp to (status, message) stored in krsort order;
  - the options: dump location, Dropbox location, keep-local flag and backup count;
  - the schedule.
  It also dumps the database to SQL, zips the website, purges old local backups and runs a whole backup.
- `Dropbox_Facade` of release 0.7.2. The model covers its OAuth token state, the outcome checks of `upload_backup`, and the remote retention of `purge_backups`.
- The entry point `execute_drobox_backup`. It writes STARTED, then UPLOADING, then SUCCESS or ERROR to the history while it drives `WP_Backup` and `Dropbox_Facade`.
- The `cron_schedules` filter, which adds the plugin's recurrences.

## How the model is built

Each revision of `WP_Backup` is a `class` whose fields are `options`, `history` and `schedule`. Its methods update those fields in place:

- `SetHistory` pops entries;
- `SetOptions` pops in a loop;
- `PurgeBackups` runs a readdir loop and an unlink loop;
- the dump runs loops over tables, rows and values;
- the website walk is a loop.

Each method is proved against a specification function. The properties are proved about those functions:

| concern | specification | properties |
|---|---|---|
| history | `History.AfterSetHistory` | `History.SetHistoryEffect`, `History.SetHistoryBounded` |
| escaping | `SqlDump.EscapeValue` | `SqlDump.ReadQuotedEscape` (the unescape round trip) |
| a row | `SqlDump.Tuple` | `SqlDump.ReadTupleRoundTrip` |
| the walk | `Archive.Run` | `Archive.RunEntries`, `Archive.RunFailureCause` |
| the schedule | `Schedule.RunDayAsWritten`, `Schedule.RunDay` | `Schedule.RunDayAsWrittenSpec`, `Schedule.RunDaySpec` |
| a plugin run | `Plugin.Plan` | `Plugin.PlanTraceSpec`, `Plugin.PlanEffectsSpec` |

`Dropbox_Facade` is a class with the token fields. `execute_drobox_backup` is a method. It calls the trunk `Backup` object's `SetHistory` and `Execute` and the facade's methods, and it is proved equal to `Plugin.Plan` and `Plugin.Replay`.

The outside world is given to the model as data, and its answers are parameters:

- the database and its tables, each of whose queries may fail;
- the file system: the directory listing, the pre-order walk of the site as `(path, isDir, size, content)`, and whether open, write, close, mkdir and unlink succeed;
- the zip library;
- php.ini: `memory_limit`, `memory_get_usage`, and whether `ini_set` succeeds;
- WordPress options and cron;
- the clock, as a `Clock` of server time, blog time, calendar day and hour;
- the Dropbox API and OAuth.

Days are whole numbers; a day's weekday is the day modulo 7.

## Model

| member | source | states |
|---|---|---|
| Common.Status.Code | class-wp-backup.php:23-26 | The four statuses STARTED, SUCCESS, ERROR and UPLOADING have the codes 0, 1, 2 and 3, one each. |
| Common.RTrim | class-wp-backup.php:222 | rtrim leaves a prefix of the text. That prefix is empty or ends in a character outside the trimmed set, and every removed character is in the set. |
| Common.Basename | trunk/class-wp-backup.php:109 | basename is a suffix of the path with no '/'. It is the whole path or follows its last '/'. |
| Common.StripPrefix | class-wp-backup.php:127 | When the text starts with the prefix, the prefix followed by the result is the text. Otherwise the text is unchanged. |
| Common.DigitsOnly | class-wp-backup.php:92 | preg_replace of `\D` leaves only digits and never lengthens the text. |
| Common.DigitsOnlySpec | class-wp-backup.php:92 | preg_replace of `\D` keeps every digit as often as it occurs, and a text of digits only is unchanged. |
| Common.DigitsOnlyAppend | class-wp-backup.php:92 | Stripping non-digits from two texts joined is stripping each and joining, so the digits keep their order. |
| Common.DecimalString | tags/0.7.2/class-dropbox-facade.php:118-120 | The decimal text of a number is non-empty and all digits, has no leading zero, and reads back as the same number. |
| History.KrsortSpec | class-wp-backup.php:389 | krsort of a history with distinct keys is strictly descending by key and maps every key to the same record. |
| History.KrsortPermutes | class-wp-backup.php:389 | krsort is a permutation of the history. |
| History.PutLookup | class-wp-backup.php:388 | Storing under a timestamp makes that key give the new record and leaves every other key as it was. |
| History.PutShape | class-wp-backup.php:388 | Storing under a present key keeps the size; storing under a new key appends one pair. |
| History.PopNPrefix | class-wp-backup.php:318-320 | n array_pops leave the history minus its last n pairs, or empty when it is shorter. |
| History.SetHistoryEffect | class-wp-backup.php:380-391 | After set_history: the history is strictly descending and holds the record under the current time, overwriting a same-second pair. Every other key keeps its value. Exactly the `batch` oldest pairs were evicted when the history held count × batch pairs, and none otherwise. |
| History.SetHistoryBounded | class-wp-backup.php:383-388 | With count ≥ 1, a history of at most count × batch pairs stays within that bound after set_history. |
| History.SameSecondWritesCollapse | class-wp-backup.php:388 | Two statuses written in the same second leave only the later one under that timestamp. |
| Retention.SortAscSpec | class-wp-backup.php:347 | asort's value order is sorted and a permutation of the names. |
| Retention.ReaddirStop | class-wp-backup.php:341 | The readdir loop stops at the first entry "0" (a false value in PHP), or at the end of the listing, and no earlier entry is "0". |
| Retention.NonDot | class-wp-backup.php:342-345 | The names kept from the listing are never "." or "..", and each comes from the listing. |
| Retention.NonDotKeeps | class-wp-backup.php:342-345 | Every listed name other than "." and ".." is kept, as often as it is listed. |
| Retention.OldestExcessSpec | class-wp-backup.php:347-354 | The purge deletes exactly max(0, n − max) names, and none when n ≤ max. It keeps max names when there were more. Deleted and kept names together are the listing, and every deleted name sorts before every kept one. |
| Retention.ListingOrderDiffers | class-wp-backup.php:347-352 | As written, with a newer name listed first, the newer name is deleted while the oldest-first rule deletes the older one. |
| Retention.ListingOrderDeletesNewest | class-wp-backup.php:347-352 | A listing of March's backup before January's makes the as-written purge delete March's and keep January's. |
| Settings.ClampCount | class-wp-backup.php:310-312 | The backup count is at least 1: a count below 1 becomes 1, and a count already at least 1 is unchanged. |
| Settings.SetOptionsDeletionsSpec | class-wp-backup.php:315-322 | When the count drops, the corrected purge keeps the new count of backups, or all of them when there are fewer. It deletes only the oldest. |
| Settings.SetOptionsPurgeLags | class-wp-backup.php:322-326 | As written, purge_backups runs before the new count is stored. Lowering the count below the number of backups, which is at most the old count, deletes nothing, while the corrected purge deletes the surplus. |
| SqlDump.EscapeValueEach | class-wp-backup.php:216-219 | addslashes followed by the two str_replace calls escapes each character on its own: `'` `"` `\` and NUL gain a backslash, newline becomes `\n`, and CR becomes `\r`. |
| SqlDump.EscapeValueSafe | class-wp-backup.php:216-219 | An escaped value holds no raw newline, CR or NUL, and every quote, double quote and backslash in it is escaped. |
| SqlDump.ReadQuotedEscape | class-wp-backup.php:216-220 | Reading an escaped value back up to its closing quote gives the original value and the rest of the text, for every value. |
| SqlDump.RenderTuple | class-wp-backup.php:215-222 | The loop over a row's values builds the row's tuple `('v1', 'v2', …)`: each value escaped and quoted, joined by ", ", with the trailing ", " trimmed. |
| SqlDump.TupleTrimmed | class-wp-backup.php:222 | rtrim of " ," removes exactly the final separator, because every quoted value ends in a quote. |
| SqlDump.RowsTrimmed | class-wp-backup.php:224 | rtrim of ",\n" removes exactly the final separator, so the rows are joined by ",\n". |
| SqlDump.RenderRows | class-wp-backup.php:213-224 | The loop over the rows writes the rows' tuples joined by ",\n", then ";\n". |
| SqlDump.ReadTupleRoundTrip | class-wp-backup.php:214-222 | Reading a rendered tuple back gives the row's values and the rest of the text. |
| SqlDump.SectionPieces | class-wp-backup.php:192-224 | A table's section is its structure header, its CREATE statement with ";\n\n", its data header and, for a table with rows, the INSERT with the first row's columns. |
| SqlDump.InsertAsWrittenAgrees | class-wp-backup.php:210-224 | For a table with rows, both revisions' INSERT as written equals the model's INSERT statement. |
| SqlDump.ZeroRowInsertMalformed | class-wp-backup.php:210-224 | As written, a table without rows gets an INSERT with an empty column list and no values, in either revision. The corrected section has no INSERT. |
| SqlDump.FirstTableFailure | class-wp-backup.php:195-205 | The dump has no table failure exactly when every table's SHOW CREATE and SELECT succeed. A failure is ERROR_5 or ERROR_6. |
| SqlDump.FirstTableFailureAt | class-wp-backup.php:195-205 | The failure reported is the first unreadable table's: ERROR_5 when its SHOW CREATE failed, otherwise ERROR_6. |
| Archive.SelectedOf | class-wp-backup.php:101-103 | The items archived are items of the walk whose path does not contain the excluded text. |
| Archive.SelectedOfComplete | class-wp-backup.php:103 | Every walk item whose path does not contain the excluded text is archived. |
| Archive.ExcludeBackups | class-wp-backup.php:85 | A `wordpress-backup-*.zip` in the dump directory contains the excluded text, so it is not archived. |
| Archive.ExcludeKeepsDump | class-wp-backup.php:85 | The `db-backup-*.sql` dump in the dump directory does not contain the excluded text, so it is archived. |
| Archive.EntryForRelative | class-wp-backup.php:126-130 | An item under the site root is archived under its path relative to the root; a directory gets a trailing '/'. |
| Archive.EntryNameAsWrittenAgrees | class-wp-backup.php:127-129 | str_replace gives the relative name whenever the relative part does not itself contain the root followed by '/'. |
| Archive.EntryNameCollapses | class-wp-backup.php:129 | As written, with root "/w", the file "/w/a/w/b" is stored as "ab" rather than "a/w/b". |
| Archive.RaisedLimitSpec | class-wp-backup.php:109-112 | The raised limit is 2.5 times the file size in MB, rounded. Under it a file of at least 1 MB is no longer oversize. |
| Archive.RunEntries | class-wp-backup.php:101-140 | A walk that completes has archived exactly the selected items in walk order, whatever the memory answers: closing to flush and raising the limit never lose or reorder an entry. |
| Archive.RunCompletes | class-wp-backup.php:109-139 | When every ini_set, open and close succeeds, the walk completes. |
| Archive.RunFailureCause | class-wp-backup.php:109-139 | A walk fails only at a selected item reached with the run so far intact, whose step fails: an oversize file whose limit raise was refused, a zip that was closed and could not be opened (ERROR_1), or a flush that was due and whose close was refused (ERROR_2). |
| Archive.StepSpec | class-wp-backup.php:108-139 | One item appends its entry. After an oversize file the raised limit is in force, otherwise the old one. The zip is left closed exactly when memory use is past a third of the limit in force. The item fails exactly when the raise is refused for an oversize file, a closed zip cannot be opened, or a due close is refused; a refused raise is reported first. |
| Archive.RunPrefixErr | class-wp-backup.php:113-136 | Once the walk has failed, nothing after the failure changes the outcome. |
| Schedule.NextWeekday | class-wp-backup.php:272 | "next $day" is the first day after today with that weekday, at most seven days on. |
| Schedule.RunDaySpec | class-wp-backup.php:269-275 | The intended run day, on the blog's calendar alone, has the chosen weekday and lies within the coming week. It is today exactly when the weekday matches and the hour is still ahead, and today + 7 exactly when the weekday matches and the hour has come. No earlier day after today has the weekday. |
| Schedule.RunDayAsWrittenSpec | class-wp-backup.php:269-275 | As written, the weekday and hour tests read the blog's calendar while "next $day" and "+7 days" count from the server's. With the calendars at most a day apart, the day is never in the past and at most eight days on. It is today exactly when the weekday matches and the hour is ahead. The "next $day" branch keeps the weekday. When the calendars agree, the day is the intended one. |
| Schedule.RunDayAsWrittenWrongWeekday | class-wp-backup.php:270-274 | A blog on Monday whose server is still on Sunday, asking for Monday after the hour has passed: as written the run lands on a Sunday, while the intended day is the next Monday. |
| Schedule.RunDayAsWrittenSkipsWeek | class-wp-backup.php:270-272 | A blog on Monday whose server is already on Tuesday, asking for Tuesday: as written the run comes eight days on, while the intended day is tomorrow. |
| Schedule.ScheduledInFuture | class-wp-backup.php:269-286 | With the server's calendar day at most a day from the blog's, the time set_schedule registers for the day it chooses as written is later than now on the blog's clock and, once moved to the server clock, on the server's. |
| Schedule.Cron.Unschedule | class-wp-backup.php:277-280 | Removing the periodic event leaves the one-off events alone. |
| Schedule.Cron.SchedulePeriodic | class-wp-backup.php:288 | The periodic event becomes the given time and recurrence. |
| Schedule.Cron.ScheduleSingle | class-wp-backup.php:252 | A one-off event is appended. |
| WpBackup.DumpOutcomeSpec | class-wp-backup.php:152-231 | The dump succeeds exactly when SHOW TABLES, fopen, every write, every table's queries and fclose succeed. A failed SHOW TABLES gives ERROR_3, and ERROR_7 comes only after everything else succeeded. |
| WpBackup.WriteToFile | class-wp-backup.php:241-245 | write_to_file fails exactly when fwrite writes nothing: the file refuses the write or the text is empty. |
| WpBackup.WriteAll | class-wp-backup.php:171-186 | The header writes all succeed exactly when writing succeeds and no header text is empty. The file then holds their concatenation. |
| WpBackup.DumpTable | class-wp-backup.php:192-224 | One table's writes give ERROR_5 when SHOW CREATE fails, ERROR_6 when SELECT fails, and otherwise append the table's section. |
| WpBackup.DumpTables | class-wp-backup.php:188-225 | The table loop reports the first table failure and otherwise appends every table's section in SHOW TABLES order. |
| WpBackup.DumpDatabase | class-wp-backup.php:157-229 | The dump reports the failure the dump outcome names. When nothing failed before fclose, the file holds the header followed by every table's section. |
| WpBackup.AddItem | class-wp-backup.php:108-139 | Archiving one item is the walk's step: the entry is appended, the limit raised after an oversize file, and the zip closed exactly when memory use passes a third of the limit in force. It fails exactly when the raise, a needed open or a due close is refused. |
| WpBackup.Backup.constructor | class-wp-backup.php:50-74 | The history loaded is krsorted, or empty when there is none. The options are the stored ones or the defaults ('wp-content/backups', 'WordPressBackup', true, 6). The schedule is the cron event moved to blog time, when there is one. |
| WpBackup.Backup.SetHistory | class-wp-backup.php:380-391 | The history becomes the set_history function of the old one (three pops at 3 × count) and stays krsort-ordered. Options and schedule are unchanged. |
| WpBackup.Backup.PurgeBackups | class-wp-backup.php:335-356 | With a positive count, the unlinked names are the oldest listed non-dot names beyond the count. |
| WpBackup.Backup.SetOptions | class-wp-backup.php:309-327 | The count is clamped. A drop of d pops 3·d history pairs. The new options are stored and the corrected purge runs. |
| WpBackup.Backup.BackupDatabase | class-wp-backup.php:152-231 | backup_database returns the dump file name or its exception, as the dump outcome says. On success the file holds the header and the table sections. |
| WpBackup.Backup.BackupWebsite | class-wp-backup.php:83-146 | backup_website returns the walk's entries or its exception. On success the entries are exactly the non-excluded items under their relative names. |
| WpBackup.Backup.BackupNow | class-wp-backup.php:251-253 | One run of the instant backup hook is queued at the current server time. |
| WpBackup.Backup.SetSchedule | class-wp-backup.php:262-291 | The periodic event is replaced by the time of the day chosen as written, from the blog's weekday and hour and the server's calendar day, moved to the server clock. The schedule records the blog time and the recurrence. |
| WpBackup.Backup.DumpAndArchive | class-wp-backup.php:416-417 | The dump runs first and its exception stops the run; then the website walk runs. |
| WpBackup.Backup.Execute | class-wp-backup.php:397-425 | execute fails on mkdir, on an unremovable earlier zip, on the dump or on the walk, in that order. Otherwise it returns the day's zip name, and the earlier zip and the dump file are deleted. A run that fails after the preparation has still deleted the day's earlier zip, and never the dump file. |
| WpBackupTrunk.DumpOutcomeSpec | trunk/class-wp-backup.php:124-203 | The older dump succeeds exactly when every query and file step does. A query failure (DB_01–DB_03) is reported whatever the file would answer; a file failure (FS_01–FS_03) only when every query succeeded. |
| WpBackupTrunk.AppendInsert | trunk/class-wp-backup.php:170-183 | Accumulating the tuples and rtrimming ",\n" from the whole text appends exactly the table's INSERT statement when the table has rows. Without rows the trim eats the newline after VALUES and the malformed `INSERT INTO t (``) VALUES ;` is appended. |
| WpBackupTrunk.AppendTable | trunk/class-wp-backup.php:150-183 | One table fails with DB_02 or DB_03 or appends its section to the accumulated text. |
| WpBackupTrunk.AppendTables | trunk/class-wp-backup.php:148-184 | The tables loop reports the first table failure or appends every section in order. |
| WpBackupTrunk.ExcludesDumpDirectory | trunk/class-wp-backup.php:87-100 | Nothing inside the dump directory is put in the website zip, including the dump of the same run. |
| WpBackupTrunk.ExecuteOutcomeSpec | trunk/class-wp-backup.php:353-383 | execute returns the zip name exactly when mkdir, the outer zip's open, both adds, its close, the dump and the website archive succeed. A failed outer open returns false, not an exception. |
| WpBackupTrunk.Backup.constructor | trunk/class-wp-backup.php:49-74 | The history is krsorted, the options are stored or the defaults, and the schedule is moved to blog time. |
| WpBackupTrunk.Backup.SetHistory | trunk/class-wp-backup.php:337-347 | The history becomes the set_history function with two pops at 2 × count, and stays krsort-ordered. |
| WpBackupTrunk.Backup.PurgeBackups | trunk/class-wp-backup.php:292-313 | With a positive count, the unlinked names are the oldest listed non-dot names beyond the count. |
| WpBackupTrunk.Backup.SetOptions | trunk/class-wp-backup.php:267-285 | The count is clamped. A drop of d pops 2·d history pairs. The new options are stored and the corrected purge runs. |
| WpBackupTrunk.Backup.BackupDatabase | trunk/class-wp-backup.php:124-203 | The whole dump is built in memory and written in one fwrite. The result is the dump file name or its exception, and on success the file holds the preamble and every section. |
| WpBackupTrunk.Backup.BackupWebsite | trunk/class-wp-backup.php:82-118 | The website zip is returned exactly when zip is loaded, ABSPATH exists, and the zip opens and closes. It holds the non-excluded walk items under relative names, or a single file under its basename. |
| WpBackupTrunk.Backup.BackupNow | trunk/class-wp-backup.php:209-211 | One run of the periodic backup hook is queued at the current server time. |
| WpBackupTrunk.Backup.SetSchedule | trunk/class-wp-backup.php:220-249 | Same run-day choice, as written, and server-time conversion as the newer revision. |
| WpBackupTrunk.Backup.Execute | trunk/class-wp-backup.php:353-383 | Returns the execute outcome. When it returns the name, the outer zip holds the dump and the website zip under their basenames, and both intermediate files are deleted; otherwise nothing is deleted. |
| DropboxFacade.BackupZipMatches | tags/0.7.2/class-dropbox-facade.php:137 | The daily zip's name matches the backup pattern in any folder. |
| DropboxFacade.AnyCharBeforeZip | tags/0.7.2/class-dropbox-facade.php:137 | Because the '.' of the pattern is unescaped, any character other than a newline in its place also matches. |
| DropboxFacade.CandidatesSpec | tags/0.7.2/class-dropbox-facade.php:136-140 | A path is a candidate exactly when it is the path of a non-directory item that matches the pattern. |
| DropboxFacade.RemoteDeletionsSpec | tags/0.7.2/class-dropbox-facade.php:144-151 | Exactly max(0, n − max) deletions for n candidates. Each deleted path is a matching non-directory item of the folder. The deleted and kept paths together are the candidates, min(n, max) are kept, and every deleted path sorts before every kept one. |
| DropboxFacade.RemotePurgeSpec | tags/0.7.2/class-dropbox-facade.php:130-152 | When a Dropbox call throws, the purge has deleted an in-order prefix of the complete purge's deletions: nothing when getMetaData throws, the paths before the failing delete otherwise. It completes, deleting all of them, exactly when no call throws. |
| DropboxFacade.Facade.constructor | tags/0.7.2/class-dropbox-facade.php:49-73 | Without stored tokens: {access: false, request: false} is stored and no API object is made. Without an access token: the exchanged token is saved on success, and access stays false on failure. |
| DropboxFacade.Facade.IsAuthorized | tags/0.7.2/class-dropbox-facade.php:79-81 | Authorized exactly when there is an access token and the account-info call succeeds without throwing. That call is made only with a token, and its exception is passed on. |
| DropboxFacade.Facade.GetAuthorizeUrl | tags/0.7.2/class-dropbox-facade.php:87-92 | The fresh request token is stored and saved, and the OAuth address is returned. |
| DropboxFacade.Facade.UploadBackup | tags/0.7.2/class-dropbox-facade.php:112-122 | A missing file throws before any upload. Otherwise putFile is called; its own exception is passed on, and any status other than 200 throws with the status and the body. No exception exactly when the file exists, putFile does not throw and the status is 200. |
| DropboxFacade.Facade.PurgeBackups | tags/0.7.2/class-dropbox-facade.php:130-152 | The paths deleted and the exception are the purge's outcome; without an exception the paths deleted are the oldest candidates beyond max. |
| Plugin.RequestedLimitAsWrittenNoRaise | trunk/wp-backup-to-dropbox.php:77-78 | As written, when the upload needs more memory than the limit, ini_set is asked for the limit already in force, which is still below the need. |
| Plugin.RequestedLimitSpec | trunk/wp-backup-to-dropbox.php:74-78 | The corrected request sets the limit to the memory needed. For an archive of at least 1 MB that is more than twice its size. |
| Plugin.MemoryRaiseAsWrittenExample | trunk/wp-backup-to-dropbox.php:74-78 | A 100 MB archive under "128M" needs 250 MB, yet as written 128M is requested. |
| Plugin.PlanTraceSpec | trunk/wp-backup-to-dropbox.php:52-100 | STARTED is first, then at most UPLOADING, then exactly one SUCCESS or ERROR. SUCCESS comes exactly when authorized, execute returned the zip, the memory check passed, the upload succeeded and the remote purge threw nothing. UPLOADING is written exactly when there is a zip. Unauthorized means one ERROR and nothing else; an account check that throws means one ERROR with its message. |
| Plugin.PlanEffectsSpec | trunk/wp-backup-to-dropbox.php:86-95 | The local purge and the unlink happen only after SUCCESS. Remote deletions happen only after a successful upload and are always an in-order prefix of the complete purge. SUCCESS implies the upload and the complete remote purge happened, and exactly one of the local purge and the unlink, as keep_local says. A file is uploaded only after UPLOADING. |
| Plugin.PlanReportsExecuteFailure | trunk/wp-backup-to-dropbox.php:63-66 | An exception from execute is reported as "exception - " and its message. execute returning false is reported as no archive. |
| Plugin.PlanReportsDropboxFailure | trunk/wp-backup-to-dropbox.php:86-98 | Once the upload is under way, an exception of upload_backup (a missing file, putFile throwing, a bad status) or of the remote purge (getMetaData or a delete throwing) ends the run with an ERROR "exception - " and its message; the upload's exception comes first. |
| Plugin.ReplaySpec | trunk/wp-backup-to-dropbox.php:55-98 | The history stays krsort-ordered through a run and afterwards holds the run's last status under the time it was written. |
| Plugin.ExecuteDropboxBackup | trunk/wp-backup-to-dropbox.php:52-100 | The run's effects are the plan for the world it meets. The history it leaves is the set_history calls of the plan's trace, replayed in order on the loaded history. |
| Plugin.UploadStage | trunk/wp-backup-to-dropbox.php:74-98 | The memory check, the upload and the remote purge, with their exceptions caught, give the plan's upload-stage effects, and the trace has exactly three records. |
| Plugin.AfterSuccess | trunk/wp-backup-to-dropbox.php:91-95 | After SUCCESS, keep_local purges the local dump directory; otherwise the archive is unlinked. |
| Plugin.Authorize | tags/0.7.2/class-dropbox-facade.php:49-81 | Constructing the facade and asking is_authorized gives the world's authorization, or the message of the account-info call's exception. |
| Plugin.DailyLabelAsWritten | trunk/wp-backup-to-dropbox.php:108-115 | As written, "daily" and "weekly" carry the same label "Weekly" with different intervals. |
| Plugin.NewSchedules | trunk/wp-backup-to-dropbox.php:107-133 | The corrected table has the same names and intervals as written. |
| Plugin.NewSchedulesSpec | trunk/wp-backup-to-dropbox.php:107-133 | Every recurrence has its own label. daily = 86400 s, weekly = 7 days, and the others are 2, 4, 8 and 12 weeks. |
| Plugin.CronSchedules | trunk/wp-backup-to-dropbox.php:134 | array_merge keeps every existing name and adds the plugin's. On a name both hold, the plugin's recurrence wins; other names keep theirs. |

## Left out

- wp-backup-to-dropbox-options.php, the admin page, is not part of this model. It is form handling and HTML.
- The database, the file system, ZipArchive, php.ini, WordPress options and cron, the clock, and the Dropbox and OAuth calls are inputs or outcome flags. Their own behaviour is not modelled.
- `get_option`/`update_option`/`add_option` persistence is not modelled: the constructors take the stored values, and the methods update the fields.
- The getters `get_options`, `get_history` and `get_schedule` only return fields. The model reads the fields directly.
- The `PHP_OS == 'WINNT'` rewriting of '/' to '\' in the exclusion text is left out. The model is for '/' separators.
- The version and generation-time lines of the dump header, the database name lines and the table banners are parameters. Their exact wording is not modelled, and neither is date formatting (`date`, `strtotime`, `current_time`). The calendar day and hour those functions give are inputs: the blog's day and hour and the server's day, counted from a common day.
- PHP float division and `round` are modelled with integer arithmetic. A `memory_limit` of "-1" or "1G" is read by its digits only, as the source does.
- `set_time_limit`, `add_filter`/`add_action` hook registration and `unset` calls are left out.
- array_merge's key order is not modelled: the schedules are a `map`.
- The history is a sequence of pairs with distinct keys, not a PHP array with arbitrary key order. The constructor requires that stored keys are distinct, which a PHP array guarantees.
- PHP loose comparisons on tokens are not modelled: a token is present or absent (`Option`). The empty string and "0", which PHP also treats as false, are not distinguished.
- WpBackup.WriteAll: a file that refuses writes refuses all of them. A write failing partway through the dump is not modelled separately.
- WpBackup.AddItem: ZipArchive::open is taken to report failure as a boolean. PHP's open returns a truthy error code instead, which the source's check would miss; the model does not reproduce that.
- DropboxFacade.Facade.PurgeBackups requires max ≥ 1. With max = 0 the source calls asort on an undefined variable.
- DropboxFacade.Facade.PurgeBackups deletes the oldest candidates by name. The source deletes by listing position, because asort keeps the keys (see Findings).
- WpBackup.Backup.PurgeBackups unlinks the oldest names beyond the count. The source unlinks by listing position (class-wp-backup.php:347-352; see Findings).
- WpBackupTrunk.Backup.PurgeBackups unlinks the oldest names beyond the count. The source unlinks by listing position (trunk/class-wp-backup.php:304-309; see Findings).
- WpBackup.Backup.SetOptions runs the purge with the new count. The source purges at line 322, before the new options are stored, so the old count is used (see Findings).
- WpBackupTrunk.Backup.SetOptions runs the purge with the new count. The source purges at trunk/class-wp-backup.php:279, before the new options are stored, so the old count is used; the argument it passes is ignored by purge_backups.
- WpBackup.Backup.BackupWebsite names each entry by stripping the leading root. The source's str_replace removes every occurrence of the root (see Findings).
- WpBackupTrunk.Backup.BackupWebsite names each entry by stripping the leading root. The source's str_replace removes every occurrence (trunk/class-wp-backup.php:102-104).
- WpBackup.DumpTable writes no INSERT for a table without rows. The source writes the malformed `INSERT INTO t (``) VALUES \n;` (see Findings).
- WpBackup.DumpTables: see WpBackup.DumpTable for a table without rows.
- WpBackup.DumpDatabase: see WpBackup.DumpTable for a table without rows.
- WpBackup.Backup.BackupDatabase: see WpBackup.DumpTable for a table without rows.
- WpBackupTrunk.AppendTable writes no INSERT for a table without rows. The source writes the `INSERT INTO t (``) VALUES ;` that WpBackupTrunk.AppendInsert produces for zero rows (see Findings).
- WpBackupTrunk.AppendTables: see WpBackupTrunk.AppendTable for a table without rows.
- WpBackupTrunk.Backup.BackupDatabase: see WpBackupTrunk.AppendTable for a table without rows.
- Plugin.UploadStage asks ini_set for the memory needed. The source asks for the limit already in force (trunk/wp-backup-to-dropbox.php:78; see Findings).
- Plugin.ExecuteDropboxBackup records that corrected memory request too, through Plugin.UploadStage.
- Schedule.RunDaySpec states the intended run day, on the blog's calendar alone. The day set_schedule computes as written, and which both SetSchedule methods register, is Schedule.RunDayAsWritten (see Findings).
- Plugin.CronSchedules adds the daily recurrence labelled "Daily". The source labels it "Weekly" (see Findings).
- SqlDump.ReadQuotedEscape covers string values. A NULL column goes through addslashes as "", so NULL and the empty string are dumped alike; the model has no NULL.
- Plugin.ExecuteDropboxBackup: trunk/class-wp-backup.php declares no BACKUP_STATUS_UPLOADING, so as written line 72 of trunk/wp-backup-to-dropbox.php is a fatal error and no run gets past UPLOADING. The model writes UPLOADING and goes on.
- DropboxFacade.Facade.UploadBackup: the third argument that execute_drobox_backup passes is ignored by the source and is left out.
- Plugin.ExecuteDropboxBackup requires a backup count of at least 1, which set_options guarantees. It also requires at least three clock readings, one per set_history call.
- Plugin.ExecuteDropboxBackup calls the older WP_Backup revision, which lacks BACKUP_STATUS_UPLOADING. The model uses the newer revision's four statuses for both.
- Plugin.ExecuteDropboxBackup: exceptions from the Dropbox calls (getAccountInfo, putFile, getMetaData and delete) are modelled and reported as "exception - " and the message. Exceptions the Dropbox library might raise from other calls, and PHP errors, are not.
- Plugin.ExecuteDropboxBackup: the upload path `dropbox_location/file` is recorded, but the contents of the uploaded zip are not compared with the archive.
- Concurrency: the plugin assumes one backup run at a time, and so does the model.

## Findings

| source | as written | input that shows it | evidently intended | confidence | as-written member | corrected member |
|---|---|---|---|---|---|---|
| class-wp-backup.php:347-352 | asort keeps the original keys, so `$backups[$i]` picks the i-th name in listing order (the same at tags/0.7.2/class-dropbox-facade.php:144-149 and trunk/class-wp-backup.php:304-309) | a listing of the March 2011 backup before the January one, with max 1 | delete the oldest backups beyond max | not executed | Retention.ListingOrderDeletesNewest | Retention.OldestExcessSpec |
| class-wp-backup.php:322-326 | purge_backups runs before the new count is stored, so it keeps the old count | old count 6, new count 2, five backups: nothing is deleted | keep the new count of backups | not executed | Settings.SetOptionsPurgeLags | Settings.SetOptionsDeletionsSpec |
| class-wp-backup.php:210-224 | a table without rows gets `INSERT INTO t (``) VALUES` followed by ";", which is invalid SQL (the same at trunk/class-wp-backup.php:170-183) | a table whose SELECT returns no rows | no INSERT for an empty table | not executed | SqlDump.ZeroRowInsertMalformed | SqlDump.SectionPieces |
| trunk/wp-backup-to-dropbox.php:77-78 | ini_set is passed the current limit, not the memory needed | a 100 MB archive under memory_limit "128M": 250M is needed, 128M is set | raise the limit to the memory needed | not executed | Plugin.MemoryRaiseAsWrittenExample | Plugin.RequestedLimitSpec |
| class-wp-backup.php:127-129 | str_replace removes every occurrence of the root followed by '/', not only the leading one | root "/w" and file "/w/a/w/b": the entry is "ab" | strip only the leading root | not executed | Archive.EntryNameCollapses | Archive.EntryForRelative |
| class-wp-backup.php:269-275 | the weekday and hour tests read the blog's clock, but "next $day" and "+7 days" count from the server's calendar day (the same at trunk/class-wp-backup.php:227-233) | a blog at UTC+10 on Monday 08:00, its server on Sunday, asking for Monday 07:00: the run is set for a Sunday | the next day with the chosen weekday on the blog's calendar | not executed | Schedule.RunDayAsWrittenWrongWeekday | Schedule.RunDaySpec |
| trunk/wp-backup-to-dropbox.php:108-115 | the daily recurrence is labelled "Weekly" | the schedule list shows two "Weekly" entries | label it "Daily" | not executed | Plugin.DailyLabelAsWritten | Plugin.NewSchedulesSpec |
