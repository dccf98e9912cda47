/** BackupService: the SQL dump of the `projects` and `historico_calculos` tables. Each
    row becomes one INSERT statement whose values are SQL literals; the dump is named after
    the moment it is taken. */
module BackupService {
  import Text

  /** A column value read from the database: NULL, a text, or any other value, carried as
      the text JavaScript's string conversion gives it. */
  datatype Value = Null | Str(s: string) | Other(text: string)

  /** A row: its column names and values, in column order. */
  type Row = seq<(string, Value)>

  datatype Table = Table(name: string, rows: seq<Row>)

  /** What `exportDataToSQL` produces: the file name and the text written to it. */
  datatype Backup = Backup(filename: string, content: string)

  const ProjectsTable: string := "projects"
  const HistoryTable: string := "historico_calculos"

  /** `toISOString().replace(/[:.]/g, '-')`. */
  function SanitizeTimestamp(ts: string): string
  {
    if ts == [] then []
    else [if ts[0] == ':' || ts[0] == '.' then '-' else ts[0]] + SanitizeTimestamp(ts[1..])
  }

  /** Sanitising keeps the length, turns every ':' and '.' into '-', keeps every other
      character, and leaves neither ':' nor '.' behind. */
  lemma {:induction false} SanitizeTimestampSpec(ts: string)
    ensures |SanitizeTimestamp(ts)| == |ts|
    ensures forall i :: 0 <= i < |ts| ==>
              SanitizeTimestamp(ts)[i] == (if ts[i] == ':' || ts[i] == '.' then '-' else ts[i])
    ensures ':' !in SanitizeTimestamp(ts) && '.' !in SanitizeTimestamp(ts)
    ensures forall c :: c != '-' && c !in ts ==> c !in SanitizeTimestamp(ts)
  {
    if ts != [] {
      SanitizeTimestampSpec(ts[1..]);
      assert forall i :: 1 <= i < |ts| ==> ts[1..][i - 1] == ts[i];
    }
  }

  function Filename(ts: string): string
  {
    "backup_engenharia_" + SanitizeTimestamp(ts) + ".sql"
  }

  /** `v.replace(/'/g, "''")`: every single quote is doubled. */
  function Escape(s: string): string
  {
    if s == [] then [] else (if s[0] == '\'' then "''" else [s[0]]) + Escape(s[1..])
  }

  /** How an SQL reader turns the inside of a quoted literal back into text: each pair of
      quotes stands for one quote. */
  function Unescape(t: string): string
    decreases |t|
  {
    if t == [] then []
    else if |t| >= 2 && t[0] == '\'' && t[1] == '\'' then "'" + Unescape(t[2..])
    else [t[0]] + Unescape(t[1..])
  }

  /** The inside of a well-formed literal: quotes only come in adjacent pairs. */
  predicate PairedQuotes(t: string)
    decreases |t|
  {
    if t == [] then true
    else if t[0] == '\'' then |t| >= 2 && t[1] == '\'' && PairedQuotes(t[2..])
    else PairedQuotes(t[1..])
  }

  /** Escaping gives a well-formed literal body that reads back as the original text. */
  lemma {:induction false} EscapeRoundTrip(s: string)
    ensures PairedQuotes(Escape(s))
    ensures Unescape(Escape(s)) == s
  {
    if s != [] {
      EscapeRoundTrip(s[1..]);
      var rest := Escape(s[1..]);
      if s[0] == '\'' {
        assert Escape(s) == "''" + rest;
        assert Escape(s)[2..] == rest;
      } else {
        assert Escape(s) == [s[0]] + rest;
        assert Escape(s)[1..] == rest;
      }
      assert [s[0]] + s[1..] == s;
    }
  }

  /** Conversely, every well-formed literal body is the escaping of the text it reads as. */
  lemma {:induction false} UnescapeRoundTrip(t: string)
    requires PairedQuotes(t)
    ensures Escape(Unescape(t)) == t
    decreases |t|
  {
    if t != [] {
      if t[0] == '\'' {
        UnescapeRoundTrip(t[2..]);
        assert Unescape(t) == "'" + Unescape(t[2..]);
        assert "''" + t[2..] == t;
      } else {
        UnescapeRoundTrip(t[1..]);
        assert Unescape(t) == [t[0]] + Unescape(t[1..]);
        assert [t[0]] + t[1..] == t;
      }
    }
  }

  /** The SQL text of a value. */
  function Literal(v: Value): string
  {
    match v
    case Null => "NULL"
    case Str(s) => "'" + Escape(s) + "'"
    case Other(t) => t
  }

  /** A text value becomes a quoted literal whose body is well formed and reads back as the
      text; NULL becomes the keyword; any other value is written as its own text. */
  lemma LiteralSpec(v: Value)
    ensures v.Null? ==> Literal(v) == "NULL"
    ensures v.Other? ==> Literal(v) == v.text
    ensures v.Str? ==>
              var l := Literal(v);
              && |l| >= 2 && l[0] == '\'' && l[|l| - 1] == '\''
              && PairedQuotes(l[1..|l| - 1])
              && Unescape(l[1..|l| - 1]) == v.s
  {
    if v.Str? {
      EscapeRoundTrip(v.s);
      var l := Literal(v);
      assert l[1..|l| - 1] == Escape(v.s);
    }
  }

  /** `Object.keys(row)`. */
  function Keys(row: Row): seq<string>
  {
    if row == [] then [] else [row[0].0] + Keys(row[1..])
  }

  /** `Object.values(row)` as SQL literals. */
  function Values(row: Row): seq<string>
  {
    if row == [] then [] else [Literal(row[0].1)] + Values(row[1..])
  }

  /** The column list and the value list line up: one name and one literal per column. */
  lemma {:induction false} KeysValuesSpec(row: Row)
    ensures |Keys(row)| == |row| && |Values(row)| == |row|
    ensures forall i :: 0 <= i < |row| ==> Keys(row)[i] == row[i].0 && Values(row)[i] == Literal(row[i].1)
  {
    if row != [] {
      KeysValuesSpec(row[1..]);
      assert forall i :: 1 <= i < |row| ==> row[1..][i - 1] == row[i];
    }
  }

  /** The INSERT statement for a table, a column list and a value list. */
  function InsertStatement(table: string, keys: string, values: string): string
  {
    "INSERT INTO " + table + " (" + keys + ") VALUES (" + values + ");"
  }

  function InsertLine(table: string, row: Row): string
  {
    InsertStatement(table, Text.Join(Keys(row), ", "), Text.Join(Values(row), ", "))
  }

  /** The INSERT statements of a table, in row order. */
  function InsertLines(table: string, rows: seq<Row>): seq<string>
  {
    if rows == [] then [] else InsertLines(table, rows[..|rows| - 1]) + [InsertLine(table, rows[|rows| - 1])]
  }

  /** One INSERT per row, in row order. */
  lemma {:induction false} InsertLinesSpec(table: string, rows: seq<Row>)
    ensures |InsertLines(table, rows)| == |rows|
    ensures forall i :: 0 <= i < |rows| ==> InsertLines(table, rows)[i] == InsertLine(table, rows[i])
  {
    if rows != [] {
      var init := rows[..|rows| - 1];
      InsertLinesSpec(table, init);
      assert forall i :: 0 <= i < |init| ==> init[i] == rows[i];
    }
  }

  function HeaderLines(ts: string): seq<string>
  {
    ["-- Backup Engenharia Pro - " + SanitizeTimestamp(ts), ""]
  }

  function TableComment(name: string): string
  {
    "-- Table: " + name
  }

  /** The lines of one table: a comment naming it, its INSERTs and a blank line. */
  function SectionLines(t: Table): seq<string>
  {
    [TableComment(t.name)] + InsertLines(t.name, t.rows) + [""]
  }

  function SectionsLines(tables: seq<Table>): seq<string>
  {
    if tables == [] then [] else SectionsLines(tables[..|tables| - 1]) + SectionLines(tables[|tables| - 1])
  }

  /** The lines of the dump, each to be followed by a line break. */
  function ScriptLines(ts: string, tables: seq<Table>): seq<string>
  {
    HeaderLines(ts) + SectionsLines(tables)
  }

  /** Each line followed by a line break. */
  function Unlines(lines: seq<string>): string
  {
    if lines == [] then [] else lines[0] + "\n" + Unlines(lines[1..])
  }

  function Script(ts: string, tables: seq<Table>): string
  {
    Unlines(ScriptLines(ts, tables))
  }

  /** The tables the dump covers, in order, with the rows the database holds. */
  function DumpedTables(projects: seq<Row>, history: seq<Row>): seq<Table>
  {
    [Table(ProjectsTable, projects), Table(HistoryTable, history)]
  }

  lemma {:induction false} UnlinesAppend(a: seq<string>, b: seq<string>)
    ensures Unlines(a + b) == Unlines(a) + Unlines(b)
  {
    if a != [] {
      UnlinesAppend(a[1..], b);
      assert (a + b)[1..] == a[1..] + b;
      assert Unlines(a + b) == a[0] + "\n" + Unlines(a[1..] + b);
    } else {
      assert a + b == b;
    }
  }

  /** The text of lines is their join on the line break, with an empty last line. */
  lemma {:induction false} UnlinesJoin(lines: seq<string>)
    ensures Unlines(lines) == Text.Join(lines + [""], "\n")
  {
    if lines != [] {
      UnlinesJoin(lines[1..]);
      assert (lines + [""])[1..] == lines[1..] + [""];
    }
  }

  /** A join holds a character only if a part or the separator does. */
  lemma {:induction false} JoinAvoids(parts: seq<string>, sep: string, c: char)
    requires c !in sep
    requires forall i :: 0 <= i < |parts| ==> c !in parts[i]
    ensures c !in Text.Join(parts, sep)
  {
    if |parts| > 1 {
      JoinAvoids(parts[1..], sep, c);
    }
  }

  /** The dump of the two tables: the header, then each table's comment, its INSERTs and a
      blank line, `projects` first. */
  lemma DumpLayout(ts: string, projects: seq<Row>, history: seq<Row>)
    ensures ScriptLines(ts, DumpedTables(projects, history)) ==
              ["-- Backup Engenharia Pro - " + SanitizeTimestamp(ts), "", TableComment(ProjectsTable)]
              + InsertLines(ProjectsTable, projects) + ["", TableComment(HistoryTable)]
              + InsertLines(HistoryTable, history) + [""]
  {
    var tables := DumpedTables(projects, history);
    assert tables[..1][..0] == [];
    assert SectionsLines(tables[..1]) == SectionLines(tables[0]);
    assert tables[..|tables| - 1] == tables[..1];
  }

  /** No line break inside any name or value of a row. */
  predicate RowOnOneLine(row: Row)
  {
    forall i :: 0 <= i < |row| ==>
      '\n' !in row[i].0 && (row[i].1.Str? ==> '\n' !in row[i].1.s) && (row[i].1.Other? ==> '\n' !in row[i].1.text)
  }

  predicate TableOnOneLine(t: Table)
  {
    '\n' !in t.name && forall j :: 0 <= j < |t.rows| ==> RowOnOneLine(t.rows[j])
  }

  predicate TablesOnOneLine(tables: seq<Table>)
  {
    forall t :: 0 <= t < |tables| ==> TableOnOneLine(tables[t])
  }

  /** An INSERT whose names and values hold no line break takes exactly one line. */
  lemma InsertOnOneLine(table: string, row: Row)
    requires '\n' !in table && RowOnOneLine(row)
    ensures '\n' !in InsertLine(table, row)
  {
    KeysValuesSpec(row);
    forall i | 0 <= i < |row|
      ensures '\n' !in Values(row)[i]
    {
      if row[i].1.Str? {
        EscapeAvoids(row[i].1.s, '\n');
      }
    }
    JoinAvoids(Keys(row), ", ", '\n');
    JoinAvoids(Values(row), ", ", '\n');
  }

  /** The characters of an escaped text other than the quote are those of the text. */
  lemma {:induction false} EscapeAvoids(s: string, c: char)
    requires c != '\'' && c !in s
    ensures c !in Escape(s)
  {
    if s != [] {
      EscapeAvoids(s[1..], c);
    }
  }

  lemma {:induction false} InsertLinesOnOneLine(table: string, rows: seq<Row>)
    requires '\n' !in table
    requires forall j :: 0 <= j < |rows| ==> RowOnOneLine(rows[j])
    ensures forall k :: 0 <= k < |InsertLines(table, rows)| ==> '\n' !in InsertLines(table, rows)[k]
  {
    InsertLinesSpec(table, rows);
    forall k | 0 <= k < |rows|
      ensures '\n' !in InsertLines(table, rows)[k]
    {
      InsertOnOneLine(table, rows[k]);
    }
  }

  lemma {:induction false} SectionsOnOneLine(tables: seq<Table>)
    requires TablesOnOneLine(tables)
    ensures forall k :: 0 <= k < |SectionsLines(tables)| ==> '\n' !in SectionsLines(tables)[k]
  {
    if tables != [] {
      var init := tables[..|tables| - 1];
      var last := tables[|tables| - 1];
      assert forall t :: 0 <= t < |init| ==> init[t] == tables[t];
      SectionsOnOneLine(init);
      assert TableOnOneLine(last);
      InsertLinesOnOneLine(last.name, last.rows);
    }
  }

  /** When no name or value holds a line break, splitting the dump on line breaks gives
      back exactly its lines, followed by the empty text after the final break. */
  lemma ScriptSplitsIntoLines(ts: string, tables: seq<Table>)
    requires '\n' !in ts && TablesOnOneLine(tables)
    ensures Text.Split(Script(ts, tables), '\n') == ScriptLines(ts, tables) + [""]
  {
    var lines := ScriptLines(ts, tables);
    SanitizeTimestampSpec(ts);
    SectionsOnOneLine(tables);
    assert forall k :: 0 <= k < |lines + [""]| ==> '\n' !in (lines + [""])[k];
    UnlinesJoin(lines);
    Text.SplitJoin(lines + [""], '\n');
  }

  /** A dump of no tables is its header: the timestamp comment and a blank line. */
  lemma HeaderText(ts: string)
    ensures Unlines(ScriptLines(ts, [])) == "-- Backup Engenharia Pro - " + SanitizeTimestamp(ts) + "\n\n"
  {
    var h := HeaderLines(ts);
    assert ScriptLines(ts, []) == h + [] == h;
    assert h[1..][1..] == [];
    assert Unlines(h[1..]) == "\n";
  }

  /** Appending a line and its break to the text of some lines gives the text of the lines
      with that one added. */
  lemma AppendLine(done: seq<string>, line: string)
    ensures Unlines(done + [line]) == Unlines(done) + line + "\n"
  {
    UnlinesAppend(done, [line]);
    assert [line][1..] == [];
  }

  /** The text of a table's INSERTs grows by one statement and its break per row. */
  lemma InsertsTextStep(table: string, rows: seq<Row>, j: nat)
    requires j < |rows|
    ensures Unlines(InsertLines(table, rows[..j + 1])) == Unlines(InsertLines(table, rows[..j])) + InsertLine(table, rows[j]) + "\n"
  {
    assert rows[..j + 1][..j] == rows[..j];
    AppendLine(InsertLines(table, rows[..j]), InsertLine(table, rows[j]));
  }

  /** The text of the dump grows by one table's comment, INSERTs and blank line per table. */
  lemma SectionsTextStep(ts: string, tables: seq<Table>, i: nat)
    requires i < |tables|
    ensures Unlines(ScriptLines(ts, tables[..i + 1])) ==
              Unlines(ScriptLines(ts, tables[..i])) + TableComment(tables[i].name) + "\n"
              + Unlines(InsertLines(tables[i].name, tables[i].rows)) + "\n"
  {
    assert tables[..i + 1][..i] == tables[..i];
    var t := tables[i];
    var prior := ScriptLines(ts, tables[..i]);
    assert ScriptLines(ts, tables[..i + 1]) == prior + [TableComment(t.name)] + InsertLines(t.name, t.rows) + [""];
    UnlinesAppend(prior + [TableComment(t.name)], InsertLines(t.name, t.rows));
    AppendLine(prior, TableComment(t.name));
    UnlinesAppend(prior + [TableComment(t.name)] + InsertLines(t.name, t.rows), [""]);
    assert [""][1..] == [];
  }

  /** The inner loop of `exportDataToSQL`: one INSERT statement and its line break per row,
      appended in row order. */
  method AppendInserts(sqlContent: string, table: string, rows: seq<Row>) returns (content: string)
    ensures content == sqlContent + Unlines(InsertLines(table, rows))
  {
    content := sqlContent;
    var j := 0;
    assert rows[..0] == [];
    while j < |rows|
      invariant 0 <= j <= |rows|
      invariant content == sqlContent + Unlines(InsertLines(table, rows[..j]))
    {
      var keys := Text.Join(Keys(rows[j]), ", ");
      var values := Text.Join(Values(rows[j]), ", ");
      var line := InsertStatement(table, keys, values);
      assert line == InsertLine(table, rows[j]);
      InsertsTextStep(table, rows, j);
      content := content + line + "\n";
      j := j + 1;
    }
    assert rows[..|rows|] == rows;
  }

  /** `exportDataToSQL`: `nowIso` is the clock reading in ISO 8601 form and the two row
      sequences are what the database holds; the file write is left to the caller. */
  method ExportDataToSql(nowIso: string, projects: seq<Row>, history: seq<Row>) returns (b: Backup)
    ensures b == Backup(Filename(nowIso), Script(nowIso, DumpedTables(projects, history)))
  {
    var timestamp := SanitizeTimestamp(nowIso);
    var filename := "backup_engenharia_" + timestamp + ".sql";
    var sqlContent := "-- Backup Engenharia Pro - " + timestamp + "\n\n";
    HeaderText(nowIso);
    var tables := DumpedTables(projects, history);
    assert tables[..0] == [];
    var i := 0;
    while i < |tables|
      invariant 0 <= i <= |tables|
      invariant sqlContent == Unlines(ScriptLines(nowIso, tables[..i]))
    {
      var table := tables[i].name;
      sqlContent := sqlContent + TableComment(table) + "\n";
      sqlContent := AppendInserts(sqlContent, table, tables[i].rows);
      sqlContent := sqlContent + "\n";
      SectionsTextStep(nowIso, tables, i);
      i := i + 1;
    }
    assert tables[..|tables|] == tables;
    return Backup(filename, sqlContent);
  }
}
