/** The plugin's stored options and what changing them does to the local
    backups, shared by both revisions of WP_Backup. */
module Settings {
  import opened Retention

  /** The four stored options: local dump location (relative to ABSPATH),
      Dropbox location, whether local backups are kept, and how many backups
      to keep. */
  datatype Options = Options(dumpLocation: string, dropboxLocation: string, keepLocal: bool, count: int)

  /** The options used when none are stored. */
  const Defaults: Options := Options("wp-content/backups", "WordPressBackup", true, 6)

  /** What the site looks like to one run: ABSPATH, its realpath, the
      database name, the plugin version, the blog's date as "Y-m-d", the
      generation time text of the dump, and the memory_limit ini value. */
  datatype Site = Site(abspath: string, realpath: string, dbName: string, version: string,
                       date: string, generated: string, memoryLimit: string)

  /** set_options never stores a count below one. */
  function ClampCount(n: int): (c: int)
    ensures c >= 1
    ensures n >= 1 ==> c == n
    ensures n < 1 ==> c == 1
  {
    if n < 1 then 1 else n
  }

  /** What purge_backups deletes from the listed names with `max` kept:
      nothing unless max is positive, otherwise the oldest names beyond max. */
  function PurgeDeletions(names: seq<string>, max: int): seq<string>
  {
    if max > 0 then OldestExcess(names, max) else []
  }

  /** The local backups set_options removes as intended: when the count
      drops, the purge keeps the new count of backups. */
  function SetOptionsDeletions(oldCount: int, newCount: int, names: seq<string>): seq<string>
  {
    if oldCount > ClampCount(newCount) then PurgeDeletions(names, ClampCount(newCount)) else []
  }

  /** The local backups set_options removes as written: purge_backups runs
      before the new options are stored, so it keeps the old count. */
  function SetOptionsDeletionsAsWritten(oldCount: int, newCount: int, names: seq<string>): seq<string>
  {
    if oldCount > ClampCount(newCount) then PurgeDeletions(names, oldCount) else []
  }

  /** Lowering the count leaves exactly the new count of backups (or all of
      them, when there are fewer), removing only the oldest. */
  lemma SetOptionsDeletionsSpec(oldCount: int, newCount: int, names: seq<string>)
    requires oldCount > ClampCount(newCount)
    ensures var del := SetOptionsDeletions(oldCount, newCount, names);
      var c := ClampCount(newCount);
      var kept := SortAsc(names)[|del|..];
      && |del| == (if |names| > c then |names| - c else 0)
      && |kept| == (if |names| > c then c else |names|)
      && multiset(del) + multiset(kept) == multiset(names)
      && (forall i, j :: 0 <= i < |del| && 0 <= j < |kept| ==> LexLe(del[i], kept[j]))
  {
    OldestExcessSpec(names, ClampCount(newCount));
  }

  /** When the count drops below the number of stored backups but not below
      the old count's, the source deletes nothing, while the intended purge
      deletes the backups beyond the new count. */
  lemma SetOptionsPurgeLags(oldCount: int, newCount: int, names: seq<string>)
    requires 1 <= newCount < |names| <= oldCount
    ensures SetOptionsDeletionsAsWritten(oldCount, newCount, names) == []
    ensures |SetOptionsDeletions(oldCount, newCount, names)| == |names| - newCount > 0
  {
    OldestExcessSpec(names, oldCount);
    OldestExcessSpec(names, newCount);
  }
}
