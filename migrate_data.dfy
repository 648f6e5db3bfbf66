/**
 * The SQLite-to-D1 export script: SQL literal escaping, one INSERT per row without the
 * `id` column, and the statement list built table by table in a fixed order. Reading
 * the database and writing the output file are outside the model; the database is a
 * map from table name to rows, each row its columns in `Object.keys` order.
 */
module MigrateData {
  import opened Wrappers
  import Seqs
  import Text

  /** A column value as the SQLite driver hands it over (no blobs, integers only). */
  datatype SqlValue = Null | Undefined | Num(n: int) | Str(s: string)

  datatype Field = Field(name: string, value: SqlValue)

  type Record = seq<Field>

  // ---------------------------------------------------------------- escaping

  function Quotes(s: string): nat {
    if s == [] then 0 else (if s[0] == '\'' then 1 else 0) + Quotes(s[1..])
  }

  /** `.replace(/'/g, "''")`. */
  function DoubleQuotes(s: string): (r: string)
    ensures |r| == |s| + Quotes(s)
  {
    if s == [] then []
    else (if s[0] == '\'' then "''" else [s[0]]) + DoubleQuotes(s[1..])
  }

  /** How SQL reads the inside of a quoted literal: `''` is one quote, a lone quote would end the literal early. */
  function ReadQuoted(body: string): Option<string> {
    if body == [] then Some([])
    else if body[0] == '\'' then
      if |body| >= 2 && body[1] == '\'' then
        match ReadQuoted(body[2..])
        case Some(rest) => Some("'" + rest)
        case None => None
      else None
    else
      match ReadQuoted(body[1..])
      case Some(rest) => Some([body[0]] + rest)
      case None => None
  }

  /** Doubling the quotes is undone by reading the literal: nothing ends it early and nothing is lost. */
  lemma {:induction false} ReadDoubleQuotes(s: string)
    ensures ReadQuoted(DoubleQuotes(s)) == Some(s)
  {
    if s != [] {
      ReadDoubleQuotes(s[1..]);
      var d := DoubleQuotes(s);
      if s[0] == '\'' {
        assert d == "''" + DoubleQuotes(s[1..]);
        assert d[2..] == DoubleQuotes(s[1..]);
      } else {
        assert d == [s[0]] + DoubleQuotes(s[1..]);
        assert d[1..] == DoubleQuotes(s[1..]);
      }
      assert [s[0]] + s[1..] == s;
    }
  }

  /** `escapeSQL`: NULL for null and undefined, a number as its digits, anything else a quoted literal. */
  function EscapeSql(v: SqlValue): (r: string)
    ensures v.Null? || v.Undefined? ==> r == "NULL"
    ensures v.Num? ==> r == Text.IntToString(v.n)
    ensures v.Str? ==> |r| == |v.s| + 2 + Quotes(v.s) && r[0] == '\'' && r[|r| - 1] == '\''
  {
    match v
    case Null => "NULL"
    case Undefined => "NULL"
    case Num(n) => Text.IntToString(n)
    case Str(s) => "'" + DoubleQuotes(s) + "'"
  }

  /** Reads a quoted SQL string literal back. */
  function UnquoteLiteral(lit: string): Option<string> {
    if |lit| >= 2 && lit[0] == '\'' && lit[|lit| - 1] == '\'' then ReadQuoted(lit[1..|lit| - 1]) else None
  }

  /** Every string survives escaping and reading back unchanged. */
  lemma EscapeRoundTrip(s: string)
    ensures UnquoteLiteral(EscapeSql(Str(s))) == Some(s)
  {
    var lit := EscapeSql(Str(s));
    assert lit[1..|lit| - 1] == DoubleQuotes(s);
    ReadDoubleQuotes(s);
  }

  // ---------------------------------------------------------------- INSERT statements

  datatype Insert = Insert(table: string, columns: seq<string>, values: seq<string>)

  function NotId(f: Field): bool {
    f.name != "id"
  }

  function FieldName(f: Field): string {
    f.name
  }

  function FieldLiteral(f: Field): string {
    EscapeSql(f.value)
  }

  /** The INSERT `exportTable` writes for one row. */
  function InsertFor(table: string, record: Record): Insert {
    var kept := Seqs.Filter(record, NotId);
    Insert(table, Seqs.Map(kept, FieldName), Seqs.Map(kept, FieldLiteral))
  }

  /**
   * The INSERT lists every column except `id`, in row order, and as many values as
   * columns, each the escaped value of its own column.
   */
  lemma InsertForSpec(table: string, record: Record)
    ensures var ins := InsertFor(table, record);
      && ins.table == table
      && "id" !in ins.columns
      && |ins.columns| == |ins.values|
      && (forall i :: 0 <= i < |ins.columns| ==>
            exists f :: f in record && f.name == ins.columns[i] && ins.values[i] == EscapeSql(f.value))
      && (forall j :: 0 <= j < |record| && record[j].name != "id" ==> record[j].name in ins.columns)
  {
    var kept := Seqs.Filter(record, NotId);
    var ins := InsertFor(table, record);
    assert forall i :: 0 <= i < |kept| ==> kept[i] in record && kept[i].name != "id";
    assert forall j :: 0 <= j < |record| && record[j].name != "id" ==> record[j] in kept;
    forall j | 0 <= j < |record| && record[j].name != "id" ensures record[j].name in ins.columns {
      var i :| 0 <= i < |kept| && kept[i] == record[j];
      assert ins.columns[i] == record[j].name;
    }
  }

  /** `INSERT INTO t (c1, c2) VALUES (v1, v2);`. */
  function Render(ins: Insert): string {
    "INSERT INTO " + ins.table + " (" + Text.Join(ins.columns, ", ") + ") VALUES (" + Text.Join(ins.values, ", ") + ");"
  }

  function Statement(table: string, row: Record): string {
    Render(InsertFor(table, row))
  }

  /** The statements for one table, one per row, in row order. */
  function TableStatements(table: string, rows: seq<Record>): (r: seq<string>)
    ensures |r| == |rows|
  {
    if rows == [] then []
    else TableStatements(table, rows[..|rows| - 1]) + [Statement(table, rows[|rows| - 1])]
  }

  /** Statement `i` of a table is the insert of its row `i`. */
  lemma {:induction false} TableStatementsPerRow(table: string, rows: seq<Record>)
    ensures forall i :: 0 <= i < |rows| ==> TableStatements(table, rows)[i] == Statement(table, rows[i])
    decreases |rows|
  {
    if rows != [] {
      var pre := rows[..|rows| - 1];
      var last := Statement(table, rows[|rows| - 1]);
      var r := TableStatements(table, rows);
      TableStatementsPerRow(table, pre);
      assert r == TableStatements(table, pre) + [last];
      forall i | 0 <= i < |rows| ensures r[i] == Statement(table, rows[i]) {
        if i < |pre| {
          assert r[i] == TableStatements(table, pre)[i] && rows[i] == pre[i];
        } else {
          assert r[i] == last;
        }
      }
    }
  }

  // ---------------------------------------------------------------- all tables

  const TABLES: seq<string> := [
    "users", "personal_details", "about", "experience", "skills",
    "projects", "messages", "certifications", "publications", "notification_settings"]

  /** The rows of a table (none for a table the database lacks). */
  function RowsOf(db: map<string, seq<Record>>, table: string): seq<Record> {
    if table in db then db[table] else []
  }

  /** The statements of the listed tables, table after table. */
  function AllStatements(tables: seq<string>, db: map<string, seq<Record>>): seq<string> {
    if tables == [] then []
    else AllStatements(tables[..|tables| - 1], db) + TableStatements(tables[|tables| - 1], RowsOf(db, tables[|tables| - 1]))
  }

  function TotalRows(tables: seq<string>, db: map<string, seq<Record>>): nat {
    if tables == [] then 0 else TotalRows(tables[..|tables| - 1], db) + |RowsOf(db, tables[|tables| - 1])|
  }

  /** Exactly one statement per row; empty tables contribute nothing. */
  lemma {:induction false} OneStatementPerRow(tables: seq<string>, db: map<string, seq<Record>>)
    ensures |AllStatements(tables, db)| == TotalRows(tables, db)
  {
    if tables != [] {
      OneStatementPerRow(tables[..|tables| - 1], db);
    }
  }

  /** Tables are emitted in list order: the statements of a prefix of the list come first. */
  lemma {:induction false} AllStatementsAppend(a: seq<string>, b: seq<string>, db: map<string, seq<Record>>)
    ensures AllStatements(a + b, db) == AllStatements(a, db) + AllStatements(b, db)
    decreases |b|
  {
    if b == [] {
      assert a + b == a;
    } else {
      var b' := b[..|b| - 1];
      var last := TableStatements(b[|b| - 1], RowsOf(db, b[|b| - 1]));
      assert (a + b)[..|a + b| - 1] == a + b';
      assert (a + b)[|a + b| - 1] == b[|b| - 1];
      assert AllStatements(a + b, db) == AllStatements(a + b', db) + last;
      assert AllStatements(b, db) == AllStatements(b', db) + last;
      AllStatementsAppend(a, b', db);
    }
  }

  /** One more table's statements extend the list of the tables before it. */
  lemma AllStatementsSnoc(tables: seq<string>, k: nat, db: map<string, seq<Record>>, before: seq<string>, mid: seq<string>, after: seq<string>)
    requires k < |tables|
    requires mid == before + AllStatements(tables[..k], db)
    requires after == mid + TableStatements(tables[k], RowsOf(db, tables[k]))
    ensures after == before + AllStatements(tables[..k + 1], db)
  {
    var t := tables[..k + 1];
    assert t[..|t| - 1] == tables[..k] && t[|t| - 1] == tables[k];
    assert AllStatements(t, db) == AllStatements(tables[..k], db) + TableStatements(tables[k], RowsOf(db, tables[k]));
  }

  /** Every listed table is in the database. */
  predicate AllPresent(tables: seq<string>, db: map<string, seq<Record>>) {
    forall i :: 0 <= i < |tables| ==> tables[i] in db
  }

  lemma PresentSnoc(tables: seq<string>, k: nat, db: map<string, seq<Record>>)
    requires k < |tables| && AllPresent(tables[..k], db) && tables[k] in db
    ensures AllPresent(tables[..k + 1], db)
  {
    assert forall i :: 0 <= i < k + 1 ==> tables[..k + 1][i] == tables[i];
  }

  lemma Missing(tables: seq<string>, k: nat, db: map<string, seq<Record>>)
    requires k < |tables| && tables[k] !in db
    ensures !AllPresent(tables, db)
  {
  }

  const HEADER_LINES := [
    "-- Data Migration from SQLite to Cloudflare D1",
    "-- Import this file using: wrangler d1 execute portfolio-db --file=data-migration.sql"]

  /** The file text: comment lines (the second one stamped with the generation time), a blank line, then the statements. */
  function FileContent(generated: string, statements: seq<string>): string {
    Text.Join([HEADER_LINES[0], "-- Generated: " + generated, HEADER_LINES[1], ""] + statements, "\n")
  }

  /** The module-level `sqlStatements` list the export appends to. */
  class Exporter {
    var statements: seq<string>

    constructor ()
      ensures statements == []
    {
      statements := [];
    }

    /** `exportTable`: nothing for an empty table, else one INSERT per row pushed in row order. */
    method ExportTable(table: string, rows: seq<Record>)
      modifies this
      ensures statements == old(statements) + TableStatements(table, rows)
    {
      if |rows| == 0 {
        return;
      }
      for i := 0 to |rows|
        invariant statements == old(statements) + TableStatements(table, rows[..i])
      {
        statements := statements + [Statement(table, rows[i])];
        assert rows[..i + 1][..i] == rows[..i];
      }
      assert rows[..|rows|] == rows;
    }

    /** The loop of `exportAllTables`: a table the database lacks makes its query fail and the loop stop. */
    method ExportTables(tables: seq<string>, db: map<string, seq<Record>>) returns (ok: bool)
      modifies this
      ensures ok == AllPresent(tables, db)
      ensures ok ==> statements == old(statements) + AllStatements(tables, db)
    {
      var k := 0;
      while k < |tables|
        invariant k <= |tables|
        invariant AllPresent(tables[..k], db)
        invariant statements == old(statements) + AllStatements(tables[..k], db)
      {
        if tables[k] !in db {
          Missing(tables, k, db);
          return false;
        }
        ghost var mid := statements;
        ExportTable(tables[k], RowsOf(db, tables[k]));
        AllStatementsSnoc(tables, k, db, old(statements), mid, statements);
        PresentSnoc(tables, k, db);
        k := k + 1;
      }
      assert tables[..k] == tables;
      ok := true;
    }

    /** `exportAllTables`: the fixed tables in list order, then the file text; no file when a query fails. */
    method ExportAllTables(db: map<string, seq<Record>>, generated: string) returns (content: Option<string>)
      modifies this
      ensures content.Some? <==> AllPresent(TABLES, db)
      ensures content.Some? ==> statements == old(statements) + AllStatements(TABLES, db)
      ensures content.Some? ==> content.value == FileContent(generated, statements)
    {
      var ok := ExportTables(TABLES, db);
      if !ok {
        return None;
      }
      content := Some(FileContent(generated, statements));
    }
  }
}
