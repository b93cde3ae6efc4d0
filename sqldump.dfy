/** The SQL dump text that backup_database writes in both revisions: the
    escaping of each value, the layout of a row tuple and of the INSERT
    statement, the per-table section and the fixed preamble, and the order in
    which the database queries and file operations can fail. */
module SqlDump {
  import opened Common

  const NUL: char := 0 as char

  // ------------------------------------------------------------ escaping

  /** addslashes on one character: a backslash before ' " and \, and NUL
      written as \0. */
  function AddSlashChar(c: char): string
  {
    if c == '\'' || c == '"' || c == '\\' then ['\\', c]
    else if c == NUL then ['\\', '0']
    else [c]
  }

  /** addslashes($s). */
  function AddSlashes(s: string): string
  {
    if s == [] then [] else AddSlashChar(s[0]) + AddSlashes(s[1..])
  }

  /** The escaping each value goes through before it is quoted: addslashes,
      then every newline becomes `\n`, then every carriage return `\r`. */
  function EscapeValue(v: string): string
  {
    ReplaceAll(ReplaceAll(AddSlashes(v), "\n", "\\n"), "\r", "\\r")
  }

  /** The characters that may not appear bare inside a quoted value of the
      dump: they would end the literal, start an escape, or break the line. */
  predicate Special(c: char)
  {
    c == '\'' || c == '"' || c == '\\' || c == NUL || c == '\n' || c == '\r'
  }

  /** One character's escape, as a reference written independently of the
      three passes: specials become a backslash pair, the rest stay. */
  function EscapeChar(c: char): (r: string)
    ensures Special(c) ==> |r| == 2 && r[0] == '\\'
    ensures !Special(c) ==> r == [c]
  {
    if c == '\'' || c == '"' || c == '\\' then ['\\', c]
    else if c == NUL then ['\\', '0']
    else if c == '\n' then ['\\', 'n']
    else if c == '\r' then ['\\', 'r']
    else [c]
  }

  /** The one-pass escaping: each character replaced by its escape. */
  function EscapeEach(v: string): string
  {
    if v == [] then [] else EscapeChar(v[0]) + EscapeEach(v[1..])
  }

  lemma ReplaceCharPair(x: char, y: char, c: char, rep: string)
    ensures ReplaceAll([x, y], [c], rep)
      == (if x == c then rep else [x]) + (if y == c then rep else [y])
  {
    assert [x, y] == [x] + [y];
    ReplaceCharAppend([x], [y], c, rep);
    ReplaceCharSingle(x, c, rep);
    ReplaceCharSingle(y, c, rep);
  }

  /** The three passes agree with the one-pass escape on one character. */
  lemma EscapePassesChar(c: char)
    ensures ReplaceAll(ReplaceAll(AddSlashChar(c), "\n", "\\n"), "\r", "\\r") == EscapeChar(c)
  {
    assert "\n" == ['\n'] && "\r" == ['\r'];
    var a := AddSlashChar(c);
    if |a| == 2 {
      ReplaceCharPair(a[0], a[1], '\n', "\\n");
      assert ReplaceAll(a, "\n", "\\n") == a;
      ReplaceCharPair(a[0], a[1], '\r', "\\r");
    } else {
      ReplaceCharSingle(c, '\n', "\\n");
      if c == '\n' {
        ReplaceCharPair('\\', 'n', '\r', "\\r");
      } else {
        ReplaceCharSingle(c, '\r', "\\r");
      }
    }
  }

  /** The source's three passes are the one-pass escape of every character:
      newlines and carriage returns introduced by addslashes cannot exist,
      and no replacement straddles two characters. */
  lemma {:induction false} EscapeValueEach(v: string)
    ensures EscapeValue(v) == EscapeEach(v)
  {
    if v != [] {
      var a := AddSlashChar(v[0]);
      var b := AddSlashes(v[1..]);
      assert "\n" == ['\n'] && "\r" == ['\r'];
      ReplaceCharAppend(a, b, '\n', "\\n");
      ReplaceCharAppend(ReplaceAll(a, "\n", "\\n"), ReplaceAll(b, "\n", "\\n"), '\r', "\\r");
      EscapePassesChar(v[0]);
      EscapeValueEach(v[1..]);
    }
  }

  /** Every special character of an escaped text is the second half of a
      backslash pair: nothing ends the literal early and no raw line break,
      carriage return or NUL is left in it. */
  predicate WellEscaped(r: string)
    decreases |r|
  {
    r == []
    || (r[0] == '\\' && |r| >= 2 && WellEscaped(r[2..]))
    || (!Special(r[0]) && WellEscaped(r[1..]))
  }

  lemma {:induction false} EscapeEachWellEscaped(v: string)
    ensures WellEscaped(EscapeEach(v))
  {
    if v != [] {
      EscapeEachWellEscaped(v[1..]);
      var e := EscapeChar(v[0]);
      var s := e + EscapeEach(v[1..]);
      if Special(v[0]) {
        assert s[2..] == EscapeEach(v[1..]);
      } else {
        assert s[1..] == EscapeEach(v[1..]);
      }
    }
  }

  lemma {:induction false} EscapeEachNoBreaks(v: string)
    ensures '\n' !in EscapeEach(v) && '\r' !in EscapeEach(v) && NUL !in EscapeEach(v)
  {
    if v != [] {
      EscapeEachNoBreaks(v[1..]);
    }
  }

  /** Escaped values keep every quote, backslash and NUL behind a backslash
      and contain no raw newline, carriage return or NUL. */
  lemma EscapeValueSafe(v: string)
    ensures WellEscaped(EscapeValue(v))
    ensures '\n' !in EscapeValue(v) && '\r' !in EscapeValue(v) && NUL !in EscapeValue(v)
  {
    EscapeValueEach(v);
    EscapeEachWellEscaped(v);
    EscapeEachNoBreaks(v);
  }

  // ------------------------------------------------------------ reading back

  /** The character MySQL reads for the escape `\c`. */
  function UnescapeChar(c: char): char
  {
    if c == '0' then NUL else if c == 'n' then '\n' else if c == 'r' then '\r' else c
  }

  /** How MySQL reads the body of a single-quoted literal: up to the first
      unescaped quote, giving the value and the text after the quote; None
      when the literal is not closed. */
  function ReadQuoted(s: string): (r: Option<(string, string)>)
    ensures r.Some? ==> |r.value.1| < |s|
    decreases |s|
  {
    if s == [] then None
    else if s[0] == '\'' then Some(([], s[1..]))
    else if s[0] == '\\' then
      if |s| < 2 then None
      else match ReadQuoted(s[2..])
        case None => None
        case Some(p) => Some(([UnescapeChar(s[1])] + p.0, p.1))
    else match ReadQuoted(s[1..])
      case None => None
      case Some(p) => Some(([s[0]] + p.0, p.1))
  }

  /** Reading one escaped character in front of a text reads that
      character and then the text. */
  lemma ReadQuotedChar(c: char, t: string)
    ensures ReadQuoted(EscapeChar(c) + t)
      == match ReadQuoted(t)
         case None => None
         case Some(p) => Some(([c] + p.0, p.1))
  {
    var s := EscapeChar(c) + t;
    if Special(c) {
      assert s[2..] == t;
      assert s[0] == '\\';
      assert UnescapeChar(s[1]) == c;
    } else {
      assert s[1..] == t;
      assert s[0] == c;
    }
  }

  lemma {:induction false} ReadQuotedEach(v: string, rest: string)
    ensures ReadQuoted(EscapeEach(v) + "'" + rest) == Some((v, rest))
  {
    if v == [] {
      assert EscapeEach(v) + "'" + rest == ['\''] + rest;
    } else {
      var t := EscapeEach(v[1..]) + "'" + rest;
      assert EscapeEach(v) + "'" + rest == EscapeChar(v[0]) + t;
      ReadQuotedEach(v[1..], rest);
      ReadQuotedChar(v[0], t);
      assert [v[0]] + v[1..] == v;
    }
  }

  /** Reading a quoted value of the dump back recovers the original value,
      and the literal ends exactly at the closing quote the dump writes. */
  lemma ReadQuotedEscape(v: string, rest: string)
    ensures ReadQuoted(EscapeValue(v) + "'" + rest) == Some((v, rest))
  {
    EscapeValueEach(v);
    ReadQuotedEach(v, rest);
  }

  // ------------------------------------------------------------ row layout

  /** One column of a fetched row (SELECT * with ARRAY_A): its name and value,
      in column order. */
  datatype Field = Field(column: string, value: string)

  type Row = seq<Field>

  /** A value as it appears in a tuple: escaped and single-quoted. */
  function Quote(v: string): string
  {
    "'" + EscapeValue(v) + "'"
  }

  /** The values of a row, in column order. */
  function Values(row: Row): (r: seq<string>)
    ensures |r| == |row|
  {
    if row == [] then [] else [row[0].value] + Values(row[1..])
  }

  function QuotedValues(row: Row): (r: seq<string>)
    ensures |r| == |row|
  {
    if row == [] then [] else [Quote(row[0].value)] + QuotedValues(row[1..])
  }

  lemma {:induction false} QuotedValuesAt(row: Row, i: int)
    requires 0 <= i < |row|
    ensures QuotedValues(row)[i] == Quote(row[i].value)
  {
    if i > 0 {
      QuotedValuesAt(row[1..], i - 1);
    }
  }

  /** The tuple of one row: `('v1', 'v2', …)`. */
  function Tuple(row: Row): string
  {
    "(" + Join(QuotedValues(row), ", ") + ")"
  }

  function Tuples(rows: seq<Row>): (r: seq<string>)
    ensures |r| == |rows|
  {
    if rows == [] then [] else [Tuple(rows[0])] + Tuples(rows[1..])
  }

  lemma {:induction false} TuplesAt(rows: seq<Row>, i: int)
    requires 0 <= i < |rows|
    ensures Tuples(rows)[i] == Tuple(rows[i])
  {
    if i > 0 {
      TuplesAt(rows[1..], i - 1);
    }
  }

  /** The column list: the first row's keys, backtick-quoted and joined by
      "`, `". */
  function FieldList(row: Row): string
  {
    "`" + Join(Columns(row), "`, `") + "`"
  }

  /** The column names of a row, in order. */
  function Columns(row: Row): (r: seq<string>)
    ensures |r| == |row|
  {
    if row == [] then [] else [row[0].column] + Columns(row[1..])
  }

  const TupleTrim: set<char> := {' ', ','}
  const RowsTrim: set<char> := {',', '\n'}

  /** Building `'v', ` per value after "(" and then trimming ' ,' leaves
      exactly the values joined by ", ": only the last separator goes,
      because every quoted value ends in a quote. */
  lemma TupleTrimmed(row: Row)
    ensures RTrim("(" + Concat(Suffixed(QuotedValues(row), ", ")), TupleTrim) + ")" == Tuple(row)
  {
    var qs := QuotedValues(row);
    if qs == [] {
      assert "(" + Concat(Suffixed(qs, ", ")) == "(";
    } else {
      forall i | 0 <= i < |qs|
        ensures qs[i] != [] && qs[i][|qs[i]| - 1] !in TupleTrim
      {
        QuotedValuesAt(row, i);
      }
      RTrimSuffixed(qs, ", ", TupleTrim);
      JoinLast(qs, ", ");
      RTrimAppend("(", Concat(Suffixed(qs, ", ")), TupleTrim);
    }
  }

  /** Appending `tuple,\n` per row and trimming ",\n" leaves the tuples joined
      by ",\n", which is not empty when there is a row. */
  lemma RowsTrimmed(rows: seq<Row>)
    ensures RTrim(Concat(Suffixed(Tuples(rows), ",\n")), RowsTrim) == Join(Tuples(rows), ",\n")
    ensures rows != [] ==> Join(Tuples(rows), ",\n") != []
  {
    var ts := Tuples(rows);
    forall i | 0 <= i < |ts|
      ensures ts[i] != [] && ts[i][|ts[i]| - 1] !in RowsTrim
    {
      TuplesAt(rows, i);
    }
    RTrimSuffixed(ts, ",\n", RowsTrim);
    if rows != [] {
      JoinLast(ts, ",\n");
    }
  }

  /** One more value in the tuple loop: appending `'escaped', ` extends the
      text by the next quoted value and its separator. */
  lemma TupleStep(row: Row, i: int)
    requires 0 <= i < |row|
    ensures "(" + Concat(Suffixed(QuotedValues(row)[..i], ", ")) + "'" + EscapeValue(row[i].value) + "', "
      == "(" + Concat(Suffixed(QuotedValues(row)[..i + 1], ", "))
  {
    var qs := QuotedValues(row);
    var q := Quote(row[i].value);
    TakeSnoc(qs, i);
    QuotedValuesAt(row, i);
    SuffixedSnoc(qs[..i], q, ", ");
    ConcatSnoc(Suffixed(qs[..i], ", "), q + ", ");
    QuoteRegroup("(", Concat(Suffixed(qs[..i], ", ")), EscapeValue(row[i].value));
  }

  /** Appending `'e', ` is appending the quoted `e` and its separator. */
  lemma QuoteRegroup(p: string, c: string, e: string)
    ensures p + c + "'" + e + "', " == p + (c + ("'" + e + "'" + ", "))
  {
  }

  /** The inner loop of backup_database over one row's values. */
  method RenderTuple(row: Row) returns (s: string)
    ensures s == Tuple(row)
  {
    var dataOut := "(";
    var i := 0;
    while i < |row|
      invariant 0 <= i <= |row|
      invariant dataOut == "(" + Concat(Suffixed(QuotedValues(row)[..i], ", "))
    {
      var value := AddSlashes(row[i].value);
      value := ReplaceAll(value, "\n", "\\n");
      value := ReplaceAll(value, "\r", "\\r");
      TupleStep(row, i);
      dataOut := dataOut + "'" + value + "', ";
      i := i + 1;
    }
    assert QuotedValues(row)[..i] == QuotedValues(row);
    TupleTrimmed(row);
    s := RTrim(dataOut, TupleTrim) + ")";
  }

  /** One more row in the rows loop. */
  lemma RowsStep(rows: seq<Row>, k: int)
    requires 0 <= k < |rows|
    ensures Concat(Suffixed(Tuples(rows)[..k], ",\n")) + Tuple(rows[k]) + ",\n"
      == Concat(Suffixed(Tuples(rows)[..k + 1], ",\n"))
  {
    var ts := Tuples(rows);
    TakeSnoc(ts, k);
    TuplesAt(rows, k);
    SuffixedSnoc(ts[..k], Tuple(rows[k]), ",\n");
    ConcatSnoc(Suffixed(ts[..k], ",\n"), Tuple(rows[k]) + ",\n");
    Assoc(Concat(Suffixed(ts[..k], ",\n")), Tuple(rows[k]), ",\n");
  }

  /** The loop over the rows of one table and the statement's end, as the
      newer revision writes it: the tuples joined by ",\n", then ";\n". */
  method RenderRows(rows: seq<Row>) returns (s: string)
    ensures s == Join(Tuples(rows), ",\n") + ";\n"
  {
    var out := "";
    var k := 0;
    while k < |rows|
      invariant 0 <= k <= |rows|
      invariant out == Concat(Suffixed(Tuples(rows)[..k], ",\n"))
    {
      var tuple := RenderTuple(rows[k]);
      RowsStep(rows, k);
      out := out + tuple + ",\n";
      k := k + 1;
    }
    assert Tuples(rows)[..k] == Tuples(rows);
    RowsTrimmed(rows);
    s := RTrim(out, RowsTrim) + ";\n";
  }

  // ------------------------------------------------------------ reading a tuple back

  /** How a tuple's value list reads back after its "(": quoted values
      separated by ", " and closed by ")"; gives the values and the text
      after the ")". */
  function ReadTupleBody(s: string): Option<(seq<string>, string)>
    decreases |s|
  {
    if |s| > 0 && s[0] == ')' then Some(([], s[1..]))
    else if |s| > 0 && s[0] == '\'' then
      match ReadQuoted(s[1..])
      case None => None
      case Some(p) =>
        if |p.1| > 0 && p.1[0] == ')' then Some(([p.0], p.1[1..]))
        else if |p.1| >= 2 && p.1[..2] == ", " then
          match ReadTupleBody(p.1[2..])
          case None => None
          case Some(q) => Some(([p.0] + q.0, q.1))
        else None
    else None
  }

  function ReadTuple(s: string): Option<(seq<string>, string)>
  {
    if |s| > 0 && s[0] == '(' then ReadTupleBody(s[1..]) else None
  }

  lemma ReadTupleBodyLast(v: string, rest: string)
    ensures ReadTupleBody("'" + EscapeValue(v) + "'" + ")" + rest) == Some(([v], rest))
  {
    var s := "'" + EscapeValue(v) + "'" + ")" + rest;
    assert s[1..] == EscapeValue(v) + "'" + (")" + rest);
    ReadQuotedEscape(v, ")" + rest);
    assert (")" + rest)[1..] == rest;
  }

  lemma ReadTupleBodyMore(v: string, tail: string)
    ensures ReadTupleBody("'" + EscapeValue(v) + "'" + ", " + tail)
      == match ReadTupleBody(tail)
         case None => None
         case Some(q) => Some(([v] + q.0, q.1))
  {
    var s := "'" + EscapeValue(v) + "'" + ", " + tail;
    assert s[1..] == EscapeValue(v) + "'" + (", " + tail);
    ReadQuotedEscape(v, ", " + tail);
    assert (", " + tail)[..2] == ", " && (", " + tail)[2..] == tail;
  }

  lemma {:induction false} ReadTupleBodyJoin(row: Row, rest: string)
    requires row != []
    ensures ReadTupleBody(Join(QuotedValues(row), ", ") + ")" + rest) == Some((Values(row), rest))
  {
    var v := row[0].value;
    var qs := QuotedValues(row);
    if |row| == 1 {
      assert Join(qs, ", ") + ")" + rest == "'" + EscapeValue(v) + "'" + ")" + rest;
      ReadTupleBodyLast(v, rest);
      assert Values(row) == [v];
    } else {
      assert qs[1..] == QuotedValues(row[1..]);
      var tail := Join(QuotedValues(row[1..]), ", ") + ")" + rest;
      assert Join(qs, ", ") + ")" + rest == "'" + EscapeValue(v) + "'" + ", " + tail;
      ReadTupleBodyMore(v, tail);
      ReadTupleBodyJoin(row[1..], rest);
      assert Values(row) == [v] + Values(row[1..]);
    }
  }

  /** A tuple of the dump reads back as the row's values, in column order,
      ending exactly at its ")". */
  lemma ReadTupleRoundTrip(row: Row, rest: string)
    ensures ReadTuple(Tuple(row) + rest) == Some((Values(row), rest))
  {
    if row == [] {
      assert Tuple(row) + rest == "()" + rest;
      assert Values(row) == [];
    } else {
      assert (Tuple(row) + rest)[1..] == Join(QuotedValues(row), ", ") + ")" + rest;
      ReadTupleBodyJoin(row, rest);
    }
  }

  // ------------------------------------------------------------ tables

  /** What the database gives for one table: its name, the CREATE TABLE text
      of SHOW CREATE TABLE and the rows of SELECT *, each None when its query
      fails. */
  datatype Table = Table(name: string, create: Option<string>, rows: Option<seq<Row>>)

  predicate Readable(t: Table)
  {
    t.create.Some? && t.rows.Some?
  }

  /** Both queries of every table succeeded. */
  predicate AllReadable(ts: seq<Table>)
  {
    forall i :: 0 <= i < |ts| ==> Readable(ts[i])
  }

  /** A readable table extends a readable prefix. */
  lemma AllReadableSnoc(ts: seq<Table>, i: int)
    requires 0 <= i < |ts| && AllReadable(ts[..i]) && Readable(ts[i])
    ensures AllReadable(ts[..i + 1])
  {
    assert forall j :: 0 <= j < i ==> ts[..i + 1][j] == ts[..i][j];
  }

  /** The fixed openings of a table's banners and of its INSERT statement.
      They are a parameter of the section functions below, so that the
      proofs about the table loop do not depend on their letters; both
      revisions use the texts of `Dump`. */
  datatype Banners = Banners(structure: string, data: string, insert: string)

  const Dump := Banners("--\n-- Table structure for table `", "--\n-- Dumping data for table `", "INSERT INTO `")

  function StructureHeader(b: Banners, name: string): string
  {
    b.structure + name + "`\n--\n\n"
  }

  function DataHeader(b: Banners, name: string): string
  {
    b.data + name + "`\n--\n\n"
  }

  /** The first line of the INSERT statement, with the first row's columns;
      a table without rows has no first row and the list holds one empty
      name. */
  function InsertHead(b: Banners, name: string, rows: seq<Row>): string
  {
    b.insert + name + "` (" + (if rows == [] then "``" else FieldList(rows[0])) + ") VALUES \n"
  }

  /** What the older revision's INSERT code leaves for a table without rows:
      the head line whose newline the trim of ",\n" removed, and ";\n". */
  function ZeroRowInsert(b: Banners, name: string): string
  {
    b.insert + name + "` (``) VALUES ;\n"
  }

  /** The INSERT statement of a table that has rows: the tuples joined by
      ",\n" and closed by ";\n". */
  function InsertStatement(b: Banners, name: string, rows: seq<Row>): string
    requires rows != []
  {
    InsertHead(b, name, rows) + Join(Tuples(rows), ",\n") + ";\n"
  }

  /** A table's section of the dump: the structure header, the CREATE
      statement, the data header and, when the table has rows, the INSERT. */
  function Section(b: Banners, name: string, create: string, rows: seq<Row>): string
  {
    StructureHeader(b, name) + create + ";\n\n" + DataHeader(b, name)
    + (if rows == [] then "" else InsertStatement(b, name, rows))
  }

  /** A section is the four pieces written one after another. */
  lemma SectionPieces(b: Banners, name: string, create: string, rows: seq<Row>)
    ensures Section(b, name, create, rows)
      == StructureHeader(b, name) + ((create + ";\n\n")
         + (DataHeader(b, name) + (if rows == [] then "" else InsertStatement(b, name, rows))))
  {
    var x := if rows == [] then "" else InsertStatement(b, name, rows);
    Regroup(StructureHeader(b, name), create + ";\n\n", DataHeader(b, name), x);
  }

  /** The sections of the tables, in SHOW TABLES order. A dump is only
      complete when every table is readable; an unreadable table contributes
      nothing here. */
  function Sections(b: Banners, ts: seq<Table>): string
  {
    if ts == [] then ""
    else
      var t := ts[|ts| - 1];
      Sections(b, ts[..|ts| - 1]) + (if Readable(t) then Section(b, t.name, t.create.value, t.rows.value) else "")
  }

  /** The sections grow by one per readable table. */
  lemma SectionsStep(text: string, b: Banners, ts: seq<Table>, i: int)
    requires 0 <= i < |ts| && Readable(ts[i])
    ensures text + Sections(b, ts[..i + 1])
      == text + Sections(b, ts[..i]) + Section(b, ts[i].name, ts[i].create.value, ts[i].rows.value)
  {
    assert ts[..i + 1][..i] == ts[..i];
    Assoc(text, Sections(b, ts[..i]), Section(b, ts[i].name, ts[i].create.value, ts[i].rows.value));
  }

  /** The INSERT as the newer revision writes it for any number of rows: the
      column list is taken from $table_data[0], which for a table without
      rows does not exist and leaves an empty list of names. */
  function InsertAsWritten(name: string, rows: seq<Row>): string
  {
    Dump.insert + name + "` (" + (if rows == [] then "``" else FieldList(rows[0])) + ") VALUES \n"
    + Join(Tuples(rows), ",\n") + ";\n"
  }

  /** The same statement as the older revision builds it, trimming ",\n"
      from the accumulated text, which also eats the newline after VALUES
      when there is no row. */
  function TrunkInsertAsWritten(name: string, rows: seq<Row>): string
  {
    RTrim(Dump.insert + name + "` (" + (if rows == [] then "``" else FieldList(rows[0])) + ") VALUES \n"
      + Concat(Suffixed(Tuples(rows), ",\n")), RowsTrim) + ";\n"
  }

  /** For a table with rows both revisions write the INSERT statement. */
  lemma InsertAsWrittenAgrees(name: string, rows: seq<Row>)
    requires rows != []
    ensures InsertAsWritten(name, rows) == InsertStatement(Dump, name, rows)
    ensures TrunkInsertAsWritten(name, rows) == InsertStatement(Dump, name, rows)
  {
    RowsTrimmed(rows);
    RTrimAppend(InsertHead(Dump, name, rows), Concat(Suffixed(Tuples(rows), ",\n")), RowsTrim);
  }

  /** For a table without rows both revisions write an INSERT with an empty
      column name and no tuple, which is not a valid statement; the intended
      section has no INSERT at all. */
  lemma ZeroRowInsertMalformed(name: string, create: string)
    ensures InsertAsWritten(name, []) == "INSERT INTO `" + name + "` (``) VALUES \n;\n"
    ensures TrunkInsertAsWritten(name, []) == "INSERT INTO `" + name + "` (``) VALUES ;\n"
    ensures TrunkInsertAsWritten(name, []) == ZeroRowInsert(Dump, name)
    ensures Section(Dump, name, create, []) == StructureHeader(Dump, name) + create + ";\n\n" + DataHeader(Dump, name)
  {
    var head := "INSERT INTO `" + name + "` (``) VALUES ";
    assert Tuples([]) == [];
    assert Concat(Suffixed([], ",\n")) == "";
    assert Dump.insert + name + "` (" + "``" + ") VALUES \n" + Concat(Suffixed(Tuples([]), ",\n"))
      == head + "\n";
    RTrimTail(head, "\n", RowsTrim);
  }

  // ------------------------------------------------------------ preamble

  /** The fixed texts of the dump's opening lines: the title, the openings
      of the version and generation-time lines, the project address, and
      the SQL mode and character-set settings. Like `Banners`, they are a
      parameter, and both revisions use `Head`. */
  datatype Preamble = Preamble(title: string, version: string, url: string, generated: string, settings: seq<string>)

  const Head := Preamble(
    "-- WordPress Backup to Dropbox SQL Dump\n",
    "-- Version ",
    "-- http://www.mikeyd.com.au/wordpress-backup-to-dropbox/\n",
    "-- Generation Time: ",
    [ "SET SQL_MODE=\"NO_AUTO_VALUE_ON_ZERO\";\n\n",
      "/*!40101 SET @OLD_CHARACTER_SET_CLIENT=@@CHARACTER_SET_CLIENT */;\n",
      "/*!40101 SET @OLD_CHARACTER_SET_RESULTS=@@CHARACTER_SET_RESULTS */;\n",
      "/*!40101 SET @OLD_COLLATION_CONNECTION=@@COLLATION_CONNECTION */;\n",
      "/*!40101 SET NAMES utf8 */;\n\n" ])

  /** The header lines both revisions write first, one per write: title,
      plugin version, project address, generation time (given as text), SQL
      mode and character-set settings. */
  function PreambleWrites(p: Preamble, version: string, generated: string): seq<string>
  {
    [ p.title, p.version + version + "\n", p.url, p.generated + generated + "\n\n" ] + p.settings
  }

  /** The fixed texts of the lines that recreate and select the database. */
  datatype DatabaseTexts = DatabaseTexts(banner: string, create: string, use: string)

  const Recreate := DatabaseTexts("--\n-- Create and use the backed up database\n--\n\n", "CREATE DATABASE ", "USE ")

  /** The lines of the newer revision that recreate and select the database. */
  function DatabaseWrites(d: DatabaseTexts, db: string): seq<string>
  {
    [ d.banner, d.create + db + ";\n", d.use + db + ";\n\n" ]
  }

  // ------------------------------------------------------------ failures

  /** Why a dump stops: SHOW TABLES, fopen, fwrite, SHOW CREATE TABLE, SELECT
      or fclose failed. */
  datatype DumpFailure = TablesFailed | OpenFailed | WriteFailed | CreateFailed | SelectFailed | CloseFailed

  /** The outcome of the dump file operations: fopen, every fwrite of a
      non-empty text, and fclose. */
  datatype FileIo = FileIo(openOk: bool, writeOk: bool, closeOk: bool)

  /** The failure of the first table whose queries do not both succeed: its
      SHOW CREATE TABLE is tried first, then its SELECT. */
  function FirstTableFailure(ts: seq<Table>): (r: Option<DumpFailure>)
    ensures r == None <==> AllReadable(ts)
    ensures r == None || r == Some(CreateFailed) || r == Some(SelectFailed)
  {
    if ts == [] then None
    else if ts[0].create.None? then Some(CreateFailed)
    else if ts[0].rows.None? then Some(SelectFailed)
    else
      assert forall i :: 1 <= i < |ts| ==> ts[i] == ts[1..][i - 1];
      FirstTableFailure(ts[1..])
  }

  /** The first unreadable table decides the failure. */
  lemma {:induction false} FirstTableFailureAt(ts: seq<Table>, k: int)
    requires 0 <= k < |ts| && !Readable(ts[k])
    requires AllReadable(ts[..k])
    ensures FirstTableFailure(ts) == Some(if ts[k].create.None? then CreateFailed else SelectFailed)
  {
    if k > 0 {
      assert Readable(ts[..k][0]);
      assert ts[1..][..k - 1] == ts[..k][1..];
      assert forall j :: 0 <= j < k - 1 ==> ts[1..][j] == ts[j + 1];
      FirstTableFailureAt(ts[1..], k - 1);
    }
  }
}
