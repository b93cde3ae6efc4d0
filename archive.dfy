/** The website archive: which items of the directory walk go into the zip,
    under which entry names, and the memory rules that decide when the
    memory limit is raised, when the zip is flushed to disk by closing it,
    and when the run gives up. */
module Archive {
  import opened Common

  /** One item of the recursive walk (self-first order), after realpath:
      its path, whether it is a directory, its size and its content. */
  datatype FsEntry = FsEntry(path: string, isDir: bool, size: nat, content: string)

  /** An entry of a zip archive: an empty directory, a file, or (in the
      older revision's final archive) a zip file stored inside it. */
  datatype ZipEntry =
    | DirEntry(name: string)
    | FileEntry(name: string, content: string)
    | ZipFileEntry(name: string, inner: seq<ZipEntry>)

  // ------------------------------------------------------------ selection

  /** An item is archived unless its path contains the excluded text
      (strstr). */
  predicate Selected(e: FsEntry, exclude: string)
  {
    !Contains(e.path, exclude)
  }

  /** The walk items that are archived, in walk order. */
  function SelectedOf(walk: seq<FsEntry>, exclude: string): (r: seq<FsEntry>)
    ensures |r| <= |walk|
    ensures forall k :: 0 <= k < |r| ==> Selected(r[k], exclude) && r[k] in walk
  {
    if walk == [] then []
    else
      var rest := SelectedOf(walk[..|walk| - 1], exclude);
      var e := walk[|walk| - 1];
      if Selected(e, exclude) then rest + [e] else rest
  }

  /** Every walk item with a non-excluded path is archived. */
  lemma {:induction false} SelectedOfComplete(walk: seq<FsEntry>, exclude: string, i: int)
    requires 0 <= i < |walk| && Selected(walk[i], exclude)
    ensures walk[i] in SelectedOf(walk, exclude)
  {
    if i < |walk| - 1 {
      SelectedOfComplete(walk[..|walk| - 1], exclude, i);
    }
  }

  /** A pattern that continues its prefix with a character the text lacks
      after that prefix cannot occur in it. */
  lemma MismatchAfterPrefix(pre: string, tail: string, c: char, rest: string)
    requires c !in tail
    ensures !Contains(pre + tail, pre + [c] + rest)
  {
    var s := pre + tail;
    var pat := pre + [c] + rest;
    forall i | 0 <= i <= |s| - |pat|
      ensures !OccursAt(s, pat, i)
    {
      assert s[i + |pre|] == tail[i] != c;
      assert s[i..i + |pat|][|pre|] == s[i + |pre|];
      assert pat[|pre|] == c;
    }
  }

  /** The newer revision's exclusion, ABSPATH . dump_location .
      '/wordpress-backup': backup zips written into the dump directory are
      left out. */
  lemma ExcludeBackups(dumpDir: string, date: string)
    ensures Contains(dumpDir + "/wordpress-backup-" + date + ".zip", dumpDir + "/wordpress-backup")
  {
    var ex := dumpDir + "/wordpress-backup";
    assert dumpDir + "/wordpress-backup-" + date + ".zip" == ex + ("-" + date + ".zip");
    ContainsPrefix(ex, "-" + date + ".zip");
  }

  /** The same exclusion keeps the database dump written beside the zips
      (its name, after the directory, has no 'w'). */
  lemma ExcludeKeepsDump(dumpDir: string, date: string)
    requires 'w' !in date
    ensures !Contains(dumpDir + "/db-backup-" + date + ".sql", dumpDir + "/wordpress-backup")
  {
    var pre := dumpDir + "/";
    var tail := "db-backup-" + date + ".sql";
    assert 'w' !in tail;
    assert dumpDir + "/db-backup-" + date + ".sql" == pre + tail;
    assert dumpDir + "/wordpress-backup" == pre + ['w'] + "ordpress-backup";
    MismatchAfterPrefix(pre, tail, 'w', "ordpress-backup");
  }

  /** The older revision's exclusion, source . dump_location . '/': nothing
      inside the dump directory is archived. */
  lemma ExcludeDumpDirectory(dumpDir: string, name: string)
    ensures Contains(dumpDir + "/" + name, dumpDir + "/")
  {
    ContainsPrefix(dumpDir + "/", name);
  }

  // ------------------------------------------------------------ entry names

  /** The entry name of a walk item relative to the source directory, with
      a trailing '/' for directories: the leading `source/` removed. */
  function EntryFor(source: string, e: FsEntry): ZipEntry
  {
    if e.isDir then DirEntry(StripPrefix(e.path + "/", source + "/"))
    else FileEntry(StripPrefix(e.path, source + "/"), e.content)
  }

  /** The entry as the source computes its name, with str_replace: every
      occurrence of `source/` in the path is removed, not only the leading
      one. */
  function EntryForAsWritten(source: string, e: FsEntry): ZipEntry
  {
    if e.isDir then DirEntry(ReplaceAll(e.path + "/", source + "/", ""))
    else FileEntry(ReplaceAll(e.path, source + "/", ""), e.content)
  }

  /** A path under the source directory is archived under its relative
      path. */
  lemma EntryForRelative(source: string, rel: string, isDir: bool, size: nat, content: string)
    ensures EntryFor(source, FsEntry(source + "/" + rel, isDir, size, content))
      == if isDir then DirEntry(rel + "/") else FileEntry(rel, content)
  {
    var p := source + "/";
    assert (source + "/" + rel)[..|p|] == p;
    assert (source + "/" + rel + "/")[..|p|] == p;
  }

  /** The str_replace naming agrees with the relative name when `source/`
      does not occur again inside the relative path. */
  lemma EntryNameAsWrittenAgrees(source: string, rel: string)
    requires !Contains(rel, source + "/")
    ensures ReplaceAll(source + "/" + rel, source + "/", "") == rel
  {
    var p := source + "/";
    assert (p + rel)[..|p|] == p;
    assert (p + rel)[|p|..] == rel;
    ReplaceAllAbsent(rel, p, "");
  }

  /** A path that repeats the source directory further down loses the
      repetition too: under source "/w", the file "/w/a/w/b" is stored as
      "ab" instead of "a/w/b". */
  lemma EntryNameCollapses()
    ensures EntryForAsWritten("/w", FsEntry("/w/a/w/b", false, 0, "")) == FileEntry("ab", "")
    ensures EntryFor("/w", FsEntry("/w/a/w/b", false, 0, "")) == FileEntry("a/w/b", "")
  {
    var p := "/w/";
    assert "/w" + "/" == p;
    assert "/w/a/w/b"[..3] == p && "/w/a/w/b"[3..] == "a/w/b";
    assert "a/w/b"[..3] != p && "a/w/b"[1..] == "/w/b";
    assert "/w/b"[..3] == p && "/w/b"[3..] == "b";
    assert ReplaceAll("b", p, "") == "b";
    assert ReplaceAll("/w/b", p, "") == "b";
    assert ReplaceAll("a/w/b", p, "") == "a" + "b";
  }

  // ------------------------------------------------------------ memory rules

  /** memory_limit read from php.ini: its decimal digits times one MB (so
      "128M" gives 128 MB). */
  function MemoryLimit(ini: string): nat
  {
    DecimalValue(DigitsOnly(ini)) * MB
  }

  /** A file is too large when it exceeds half the memory limit. */
  predicate Oversize(size: nat, limit: int)
  {
    2 * size > limit
  }

  /** round(size / MB * 2.5): the new limit in MB for an oversize file. */
  function RaisedLimitMB(size: nat): nat
  {
    (5 * size + MB) / (2 * MB)
  }

  /** The raised limit is 2.5 times the file size in MB, rounded to the
      nearest whole MB, and for a file of at least one MB it is more than
      twice the file, so the file is no longer oversize under it. */
  lemma RaisedLimitSpec(size: nat)
    ensures var n := RaisedLimitMB(size);
      2 * MB * n <= 5 * size + MB < 2 * MB * n + 2 * MB
    ensures size >= MB ==> !Oversize(size, RaisedLimitMB(size) * MB)
  {
    var n := RaisedLimitMB(size);
    var m := 5 * size + MB;
    assert m == (2 * MB) * (m / (2 * MB)) + m % (2 * MB);
    assert 0 <= m % (2 * MB) < 2 * MB;
  }

  /** The zip is closed once memory in use exceeds a third of the limit in
      force; `limit3` is that limit, compared with three times the usage. */
  predicate PastClose(usage: int, limit3: int)
  {
    3 * usage > limit3
  }

  /** Why the newer revision's walk stops: the memory limit could not be
      raised, the zip could not be (re)opened (ERROR_1), or closing it to
      flush failed (ERROR_2). */
  datatype ZipFailure = RaiseFailed | ZipOpenFailed | ZipCloseFailed

  /** What the environment answers while one item is archived: whether
      ini_set succeeds, whether opening the zip succeeds, the memory in use
      after the add, and whether closing succeeds. */
  datatype Probe = Probe(raiseOk: bool, openOk: bool, usage: int, closeOk: bool)

  /** The archive so far, whether the zip is open, and the limit the close
      rule compares against (the limit itself, one third of which is the
      close threshold). */
  datatype ZipState = ZipState(entries: seq<ZipEntry>, isOpen: bool, limit3: int)

  /** The limit the close rule compares against once `e` is archived: the
      raised limit after an oversize file, the one in force otherwise. */
  function LimitInForce(st: ZipState, e: FsEntry, limit: int): int
  {
    if Oversize(e.size, limit) then RaisedLimitMB(e.size) * MB else st.limit3
  }

  /** Archiving one selected item: raise the limit for an oversize file,
      open the zip if it is closed, add the entry, and close the zip when
      memory use is past the threshold. */
  function Step(st: ZipState, e: FsEntry, p: Probe, limit: int, source: string): Result<ZipState, ZipFailure>
  {
    var big := Oversize(e.size, limit);
    var limit3 := LimitInForce(st, e, limit);
    if big && !p.raiseOk then Err(RaiseFailed)
    else if !st.isOpen && !p.openOk then Err(ZipOpenFailed)
    else
      var entries := st.entries + [EntryFor(source, e)];
      if PastClose(p.usage, limit3) then
        if p.closeOk then Ok(ZipState(entries, false, limit3)) else Err(ZipCloseFailed)
      else Ok(ZipState(entries, true, limit3))
  }

  /** The memory rules of one item. The item's entry is appended. After an
      oversize file the raised limit is in force, otherwise the old one
      stays. The zip is left closed exactly when memory use is past a third
      of the limit in force. The item fails exactly when the raise is
      refused for an oversize file, when a closed zip cannot be opened (an
      open zip is not reopened), or when a flush is due and the close is
      refused; the first of these that applies is the one reported. */
  lemma StepSpec(st: ZipState, e: FsEntry, p: Probe, limit: int, source: string)
    ensures var r := Step(st, e, p, limit, source);
      var limit3 := LimitInForce(st, e, limit);
      && (r.Ok? ==>
           && r.value.entries == st.entries + [EntryFor(source, e)]
           && r.value.limit3 == limit3
           && (!r.value.isOpen <==> PastClose(p.usage, limit3)))
      && (r.Err? <==>
           (Oversize(e.size, limit) && !p.raiseOk) || (!st.isOpen && !p.openOk)
           || (PastClose(p.usage, limit3) && !p.closeOk))
      && (r == Err(RaiseFailed) <==> Oversize(e.size, limit) && !p.raiseOk)
      && (r == Err(ZipOpenFailed) ==> !st.isOpen && !p.openOk)
      && (r == Err(ZipCloseFailed) ==> PastClose(p.usage, limit3) && !p.closeOk)
  {
  }

  /** The walk as the newer revision runs it: items with an excluded path
      are skipped; the first failure ends the run. The zip starts closed and
      the close limit starts at the ini limit. */
  function Run(walk: seq<FsEntry>, probes: seq<Probe>, exclude: string, source: string, limit: int): Result<ZipState, ZipFailure>
    requires |probes| == |walk|
  {
    if walk == [] then Ok(ZipState([], false, limit))
    else
      var n := |walk| - 1;
      match Run(walk[..n], probes[..n], exclude, source, limit)
      case Err(f) => Err(f)
      case Ok(st) => if Selected(walk[n], exclude) then Step(st, walk[n], probes[n], limit, source) else Ok(st)
  }

  /** The entries of the archived items, in walk order. */
  function Entries(source: string, items: seq<FsEntry>): (r: seq<ZipEntry>)
    ensures |r| == |items|
  {
    if items == [] then [] else Entries(source, items[..|items| - 1]) + [EntryFor(source, items[|items| - 1])]
  }

  /** A run that completes has archived exactly the selected items, in walk
      order, whatever the memory answers were: flushing and raising the
      limit never lose or reorder an entry. */
  lemma {:induction false} RunEntries(walk: seq<FsEntry>, probes: seq<Probe>, exclude: string, source: string, limit: int)
    requires |probes| == |walk|
    requires Run(walk, probes, exclude, source, limit).Ok?
    ensures Run(walk, probes, exclude, source, limit).value.entries == Entries(source, SelectedOf(walk, exclude))
  {
    if walk != [] {
      var n := |walk| - 1;
      var r := Run(walk[..n], probes[..n], exclude, source, limit);
      assert r.Ok?;
      RunEntries(walk[..n], probes[..n], exclude, source, limit);
      var sel := SelectedOf(walk[..n], exclude);
      if Selected(walk[n], exclude) {
        assert SelectedOf(walk, exclude) == sel + [walk[n]];
        assert (sel + [walk[n]])[..|sel|] == sel;
      }
    }
  }

  /** When every ini_set, open and close succeeds the run completes. */
  lemma {:induction false} RunCompletes(walk: seq<FsEntry>, probes: seq<Probe>, exclude: string, source: string, limit: int)
    requires |probes| == |walk|
    requires forall i :: 0 <= i < |probes| ==> probes[i].raiseOk && probes[i].openOk && probes[i].closeOk
    ensures Run(walk, probes, exclude, source, limit).Ok?
  {
    if walk != [] {
      var n := |walk| - 1;
      RunCompletes(walk[..n], probes[..n], exclude, source, limit);
    }
  }

  /** A run fails only at a selected item, reached with the run so far
      intact, whose step fails: an oversize file whose limit raise was
      refused, a zip that was closed and could not be opened, or a flush
      that was due (memory use past a third of the limit in force) and whose
      close was refused. */
  lemma {:induction false} RunFailureCause(walk: seq<FsEntry>, probes: seq<Probe>, exclude: string, source: string, limit: int)
    requires |probes| == |walk|
    requires Run(walk, probes, exclude, source, limit).Err?
    ensures var f := Run(walk, probes, exclude, source, limit).error;
      exists i :: 0 <= i < |walk| && Selected(walk[i], exclude)
        && Run(walk[..i], probes[..i], exclude, source, limit).Ok?
        && var st := Run(walk[..i], probes[..i], exclude, source, limit).value;
        && Step(st, walk[i], probes[i], limit, source) == Err(f)
        && (f == RaiseFailed ==> Oversize(walk[i].size, limit) && !probes[i].raiseOk)
        && (f == ZipOpenFailed ==> !st.isOpen && !probes[i].openOk)
        && (f == ZipCloseFailed ==> PastClose(probes[i].usage, LimitInForce(st, walk[i], limit)) && !probes[i].closeOk)
  {
    var n := |walk| - 1;
    var f := Run(walk, probes, exclude, source, limit).error;
    var r := Run(walk[..n], probes[..n], exclude, source, limit);
    if r.Err? {
      RunFailureCause(walk[..n], probes[..n], exclude, source, limit);
      var i :| 0 <= i < n && Selected(walk[..n][i], exclude)
        && Run(walk[..n][..i], probes[..n][..i], exclude, source, limit).Ok?
        && var st := Run(walk[..n][..i], probes[..n][..i], exclude, source, limit).value;
        && Step(st, walk[..n][i], probes[..n][i], limit, source) == Err(f)
        && (f == RaiseFailed ==> Oversize(walk[..n][i].size, limit) && !probes[..n][i].raiseOk)
        && (f == ZipOpenFailed ==> !st.isOpen && !probes[..n][i].openOk)
        && (f == ZipCloseFailed ==> PastClose(probes[..n][i].usage, LimitInForce(st, walk[..n][i], limit)) && !probes[..n][i].closeOk);
      assert walk[..n][i] == walk[i] && probes[..n][i] == probes[i];
      assert walk[..n][..i] == walk[..i] && probes[..n][..i] == probes[..i];
    } else {
      assert Selected(walk[n], exclude);
      assert walk[..n] == walk[..n] && probes[..n] == probes[..n];
      StepSpec(r.value, walk[n], probes[n], limit, source);
    }
  }

  /** Once a prefix of the walk has failed, the whole run fails the same
      way: nothing after the failure is tried. */
  lemma {:induction false} RunPrefixErr(walk: seq<FsEntry>, probes: seq<Probe>, exclude: string, source: string, limit: int, k: nat)
    requires |probes| == |walk| && k <= |walk|
    requires Run(walk[..k], probes[..k], exclude, source, limit).Err?
    ensures Run(walk, probes, exclude, source, limit) == Run(walk[..k], probes[..k], exclude, source, limit)
    decreases |walk| - k
  {
    if k < |walk| {
      var n := |walk| - 1;
      assert walk[..n][..k] == walk[..k] && probes[..n][..k] == probes[..k];
      RunPrefixErr(walk[..n], probes[..n], exclude, source, limit, k);
    } else {
      assert walk[..k] == walk && probes[..k] == probes;
    }
  }

  /** What the older revision finds at ABSPATH: nothing, a directory to walk,
      or a single file. */
  datatype Source = Missing | Directory(walk: seq<FsEntry>) | RegularFile(content: string)
}
