/** The CSV side of the service (Backend/SQL_end.py): loading a CSV file into
    a table of a SQLite database file, describing the tables of a database to
    the language model, cleaning the SQL text the model returns, and running
    that SQL. pandas' CSV parser, the language model and SQLite's query engine
    are parameters. */
module Sql {
  import opened Wrappers
  import opened Text
  import opened Paths
  import opened Storage

  /** load_csv_to_sql's and get_table_info's default database path. */
  const DefaultDbPath := "data/data.db"

  // ---------------------------------------------------------------------
  // Table names
  // ---------------------------------------------------------------------

  /** The file name of p without its extension. */
  function Stem(filePath: string): string {
    SplitExt(Basename(filePath)).0
  }

  /** How a character of the stem appears in the default table name. */
  function Underscored(c: char): char {
    if c == '-' || c == ' ' then '_' else c
  }

  /** The table name used when none is given: the stem of the file name with
      "-" and then " " replaced by "_". */
  function DefaultTableName(filePath: string): string {
    ReplaceAll(ReplaceAll(Stem(filePath), "-", "_"), " ", "_")
  }

  /** The default table name is the stem, character for character, with each
      "-" and " " turned into "_"; so it has neither. */
  lemma DefaultTableNameChars(filePath: string)
    ensures |DefaultTableName(filePath)| == |Stem(filePath)|
    ensures forall i :: 0 <= i < |Stem(filePath)| ==>
      DefaultTableName(filePath)[i] == Underscored(Stem(filePath)[i])
    ensures '-' !in DefaultTableName(filePath) && ' ' !in DefaultTableName(filePath)
  {
    var stem := Stem(filePath);
    ReplaceCharAt(stem, '-', '_');
    var once := ReplaceAll(stem, "-", "_");
    ReplaceCharAt(once, ' ', '_');
  }

  /** The table name load_csv_to_sql writes to: the caller's, verbatim, when
      one is given. */
  function TableNameFor(filePath: string, tableName: Option<string>): (r: string)
    ensures tableName.Some? ==> r == tableName.value
    ensures tableName.None? ==> '-' !in r && ' ' !in r
  {
    match tableName
    case Some(name) => name
    case None => DefaultTableNameChars(filePath); DefaultTableName(filePath)
  }

  // ---------------------------------------------------------------------
  // Tables of a database
  // ---------------------------------------------------------------------

  /** The frame of the first table called name. */
  function Lookup(db: Database, name: string): (r: Option<Frame>)
    ensures r.Some? <==> exists i :: 0 <= i < |db| && db[i].name == name
  {
    if |db| == 0 then None
    else if db[0].name == name then Some(db[0].frame)
    else
      var rest := Lookup(db[1..], name);
      assert forall i :: 1 <= i < |db| ==> db[i] == db[1..][i - 1];
      rest
  }

  /** The tables of db other than those called name, in their order. */
  function Without(db: Database, name: string): (r: Database)
    ensures forall t :: t in r <==> t in db && t.name != name
  {
    if |db| == 0 then []
    else if db[0].name == name then Without(db[1..], name)
    else [db[0]] + Without(db[1..], name)
  }

  /** to_sql(..., if_exists="replace"): any table of that name is dropped and
      the new one is created after the remaining ones. */
  function Replaced(db: Database, name: string, frame: Frame): Database {
    Without(db, name) + [Table(name, frame)]
  }

  lemma {:induction false} WithoutConcat(a: Database, b: Database, name: string)
    ensures Without(a + b, name) == Without(a, name) + Without(b, name)
    decreases |a|
  {
    if |a| > 0 {
      assert (a + b)[1..] == a[1..] + b;
      assert (a + b)[0] == a[0];
      WithoutConcat(a[1..], b, name);
    } else {
      assert a + b == b;
    }
  }

  lemma {:induction false} WithoutTwice(db: Database, name: string)
    ensures Without(Without(db, name), name) == Without(db, name)
    decreases |db|
  {
    if |db| > 0 {
      WithoutTwice(db[1..], name);
      if db[0].name != name {
        var w := Without(db[1..], name);
        assert ([db[0]] + w)[1..] == w;
      }
    }
  }

  lemma {:induction false} LookupWithout(db: Database, name: string, other: string)
    requires other != name
    ensures Lookup(Without(db, name), other) == Lookup(db, other)
    decreases |db|
  {
    if |db| > 0 {
      LookupWithout(db[1..], name, other);
      if db[0].name != name {
        var w := Without(db[1..], name);
        assert ([db[0]] + w)[1..] == w;
      }
    }
  }

  lemma {:induction false} LookupAfter(a: Database, t: Table)
    requires forall i :: 0 <= i < |a| ==> a[i].name != t.name
    ensures Lookup(a + [t], t.name) == Some(t.frame)
    decreases |a|
  {
    if |a| > 0 {
      assert (a + [t])[1..] == a[1..] + [t];
      LookupAfter(a[1..], t);
    }
  }

  lemma {:induction false} LookupAppendOther(a: Database, t: Table, other: string)
    requires other != t.name
    ensures Lookup(a + [t], other) == Lookup(a, other)
    decreases |a|
  {
    if |a| > 0 {
      assert (a + [t])[1..] == a[1..] + [t];
      LookupAppendOther(a[1..], t, other);
    }
  }

  /** After a replace, the table called name holds exactly the new frame, no
      other table changes, and the other tables keep their order. */
  lemma ReplacedTable(db: Database, name: string, frame: Frame, other: string)
    ensures Lookup(Replaced(db, name, frame), name) == Some(frame)
    ensures other != name ==> Lookup(Replaced(db, name, frame), other) == Lookup(db, other)
    ensures Without(Replaced(db, name, frame), name) == Without(db, name)
  {
    var w := Without(db, name);
    var t := Table(name, frame);
    assert forall i :: 0 <= i < |w| ==> w[i] in w;
    LookupAfter(w, t);
    if other != name {
      LookupAppendOther(w, t, other);
      LookupWithout(db, name, other);
    }
    WithoutConcat(w, [t], name);
    WithoutTwice(db, name);
    assert Without([t], name) == [];
  }

  /** The database at path, or the empty one sqlite3.connect creates there. */
  function DbAt(databases: map<string, Database>, dbPath: string): Database {
    if dbPath in databases then databases[dbPath] else []
  }

  /** load_csv_to_sql(file_path, db_path, table_name), where csv is what
      pd.read_csv(file_path) gives. The result is (db_path, table name); a
      failure of read_csv, or of os.makedirs on a db_path without a
      directory part, is returned as the exception's message. */
  method LoadCsvToSql(d: DataDir, filePath: string, dbPath: string, tableName: Option<string>, csv: Result<Frame>)
    returns (r: Result<(string, string)>)
    modifies d
    ensures csv.Failure? ==> r == Failure(csv.error) && d.databases == old(d.databases)
    ensures csv.Success? && '/' !in dbPath ==>
      r == Failure(NoSuchFile("")) && d.databases == old(d.databases)
    ensures csv.Success? && '/' in dbPath ==>
      r == Success((dbPath, TableNameFor(filePath, tableName))) &&
      d.databases == old(d.databases)[dbPath := Replaced(DbAt(old(d.databases), dbPath), TableNameFor(filePath, tableName), csv.value)]
    ensures d.uploadDirExists == old(d.uploadDirExists) && d.uploads == old(d.uploads)
    ensures d.vectorDirs == old(d.vectorDirs) && d.chatFiles == old(d.chatFiles)
  {
    if csv.Failure? {
      return Failure(csv.error);
    }
    var name := TableNameFor(filePath, tableName);
    if '/' !in dbPath {
      return Failure(NoSuchFile(""));
    }
    var db := DbAt(d.databases, dbPath);
    d.databases := d.databases[dbPath := Replaced(db, name, csv.value)];
    r := Success((dbPath, name));
  }

  // ---------------------------------------------------------------------
  // Schema description
  // ---------------------------------------------------------------------

  /** The block get_table_info writes for a table name and the column
      names listed for it. */
  function ColumnsEntry(name: string, columns: seq<string>): (r: string)
    ensures StartsWith(r, "\nTable: " + name + "\n")
  {
    var head := "\nTable: " + name + "\n";
    var r := head + "Columns: " + JoinWith(", ", columns) + "\n";
    assert r[..|head|] == head;
    r
  }

  /** The block get_table_info writes for a table, listing its own columns. */
  function TableEntry(t: Table): (r: string)
    ensures StartsWith(r, "\nTable: " + t.name + "\n")
  {
    ColumnsEntry(t.name, t.frame.columns)
  }

  /** The text get_table_info gives when every table name is a plain
      identifier (see TableInfoPlain): one entry per table, in catalogue
      order; empty exactly when there are no tables. */
  function Schema(db: Database): (r: string)
    ensures |r| == 0 <==> |db| == 0
  {
    if |db| == 0 then ""
    else Schema(db[..|db| - 1]) + TableEntry(db[|db| - 1])
  }

  lemma {:induction false} SchemaConcat(a: Database, b: Database)
    ensures Schema(a + b) == Schema(a) + Schema(b)
    decreases |b|
  {
    if |b| > 0 {
      var b' := b[..|b| - 1];
      assert (a + b)[..|a + b| - 1] == a + b';
      SchemaConcat(a, b');
    } else {
      assert a + b == a;
    }
  }

  /** Every table of the database is described in the schema text, and a
      freshly loaded table's entry ends it. */
  lemma SchemaMentions(db: Database, i: nat, name: string, frame: Frame)
    requires i < |db|
    ensures Contains(Schema(db), "\nTable: " + db[i].name + "\n")
    ensures Schema(Replaced(db, name, frame)) == Schema(Without(db, name)) + TableEntry(Table(name, frame))
  {
    assert db == db[..i] + ([db[i]] + db[i + 1..]);
    SchemaConcat(db[..i], [db[i]] + db[i + 1..]);
    SchemaConcat([db[i]], db[i + 1..]);
    assert Schema([db[i]]) == TableEntry(db[i]) by {
      assert [db[i]][..0] == [];
    }
    var s := Schema(db);
    var k := |Schema(db[..i])|;
    assert s[k..] == TableEntry(db[i]) + Schema(db[i + 1..]);
    assert StartsWith(s[k..], "\nTable: " + db[i].name + "\n");
    ContainsFrom(s, k, "\nTable: " + db[i].name + "\n");
    SchemaReplaced(db, name, frame);
  }

  /** Replacing a table moves its entry to the end of the schema text. */
  lemma SchemaReplaced(db: Database, name: string, frame: Frame)
    ensures Schema(Replaced(db, name, frame)) == Schema(Without(db, name)) + TableEntry(Table(name, frame))
  {
    var w := Without(db, name);
    assert (w + [Table(name, frame)])[..|w|] == w;
  }

  /** Every column name of every table occurs in the schema text, which is
      what the model is given to write SQL against. */
  lemma ColumnsInSchema(db: Database, i: nat, j: nat)
    requires i < |db| && j < |db[i].frame.columns|
    ensures Contains(Schema(db), db[i].frame.columns[j])
  {
    var t := db[i];
    assert db == db[..i] + ([t] + db[i + 1..]);
    SchemaConcat(db[..i], [t] + db[i + 1..]);
    SchemaConcat([t], db[i + 1..]);
    assert Schema([t]) == TableEntry(t) by {
      assert [t][..0] == [];
    }
    assert Schema(db) == Schema(db[..i]) + TableEntry(t) + Schema(db[i + 1..]);
    ColumnsInEntry(t, j);
    ContainsWithin(Schema(db[..i]), TableEntry(t), Schema(db[i + 1..]), t.frame.columns[j]);
  }

  lemma ColumnsInEntry(t: Table, j: nat)
    requires j < |t.frame.columns|
    ensures Contains(TableEntry(t), t.frame.columns[j])
  {
    var head := "\nTable: " + t.name + "\n" + "Columns: ";
    var cols := JoinWith(", ", t.frame.columns);
    JoinWithContains(", ", t.frame.columns, j);
    ContainsWithin(head, cols, "\n", t.frame.columns[j]);
    assert TableEntry(t) == head + cols + "\n";
  }

  // ---------------------------------------------------------------------
  // Quoted identifiers
  // ---------------------------------------------------------------------

  /** How pandas writes a table name into CREATE TABLE between double
      quotes: each `"` doubled. */
  function Quoted(id: string): string {
    if |id| == 0 then "" else (if id[0] == '"' then "\"\"" else [id[0]]) + Quoted(id[1..])
  }

  /** SQLite's reading of the text s placed between the double quotes of a
      quoted identifier: each `""` stands for one `"`. A lone `"` closes the
      identifier before the final quote, and the statement is then
      malformed (None). */
  function Unquoted(s: string): Option<string>
    decreases |s|
  {
    if |s| == 0 then Some("")
    else if s[0] != '"' then
      match Unquoted(s[1..])
      case None => None
      case Some(u) => Some([s[0]] + u)
    else if |s| >= 2 && s[1] == '"' then
      match Unquoted(s[2..])
      case None => None
      case Some(u) => Some("\"" + u)
    else None
  }

  /** A name without `"` is read as itself. */
  lemma {:induction false} UnquotedPlain(s: string)
    requires '"' !in s
    ensures Unquoted(s) == Some(s)
    decreases |s|
  {
    if |s| > 0 {
      assert s[0] in s;
      assert forall c :: c in s[1..] ==> c in s;
      UnquotedPlain(s[1..]);
      assert [s[0]] + s[1..] == s;
    }
  }

  /** A name with a lone `"` (one not doubled) after a quote-free prefix
      makes the statement malformed, as `a"b` does. */
  lemma {:induction false} UnquotedLoneQuote(a: string, b: string)
    requires '"' !in a
    requires |b| == 0 || b[0] != '"'
    ensures Unquoted(a + "\"" + b) == None
    decreases |a|
  {
    if |a| > 0 {
      assert (a + "\"" + b)[1..] == a[1..] + "\"" + b;
      assert forall c :: c in a[1..] ==> c in a;
      UnquotedLoneQuote(a[1..], b);
    } else {
      assert a + "\"" + b == "\"" + b;
    }
  }

  /** SQLite reads back the identifier pandas quoted, and every name it
      accepts is the quoted form of what it reads. */
  lemma {:induction false} QuotedRoundTrip(id: string, s: string)
    ensures Unquoted(Quoted(id)) == Some(id)
    ensures Unquoted(s).Some? ==> Quoted(Unquoted(s).value) == s
    decreases |id| + |s|
  {
    if |id| > 0 {
      var q := Quoted(id);
      QuotedRoundTrip(id[1..], "");
      if id[0] == '"' {
        assert q[2..] == Quoted(id[1..]);
      } else {
        assert q[1..] == Quoted(id[1..]);
      }
      assert [id[0]] + id[1..] == id;
    }
    if |s| > 0 && Unquoted(s).Some? {
      var u := Unquoted(s).value;
      if s[0] != '"' {
        QuotedRoundTrip("", s[1..]);
        assert u[1..] == Unquoted(s[1..]).value;
        assert s == [s[0]] + s[1..];
      } else {
        QuotedRoundTrip("", s[2..]);
        assert u[1..] == Unquoted(s[2..]).value;
        assert s == "\"\"" + s[2..];
      }
    }
  }

  // ---------------------------------------------------------------------
  // get_table_info
  // ---------------------------------------------------------------------

  /** The statement get_table_info runs for each table. */
  function PragmaFor(name: string): string {
    "PRAGMA table_info(\"" + name + "\")"
  }

  /** The exception SQLite raises for a malformed statement. */
  function SyntaxError(statement: string): string {
    "syntax error in " + statement
  }

  /** The names of a table's columns, none for a missing table. */
  function ColumnsOf(frame: Option<Frame>): seq<string> {
    if frame.Some? then frame.value.columns else []
  }

  /** The column names `PRAGMA table_info("{name}")` lists on db: those of
      the table its quoted identifier names (none when there is no such
      table), or SQLite's error when the statement is malformed. */
  function PragmaColumns(db: Database, name: string): (r: Result<seq<string>>)
    ensures r.Failure? <==> Unquoted(name).None?
    ensures r.Failure? ==> r.error == SyntaxError(PragmaFor(name))
    ensures '"' !in name ==> r == Success(ColumnsOf(Lookup(db, name)))
  {
    if '"' !in name then UnquotedPlain(name); Success(ColumnsOf(Lookup(db, name)))
    else
      match Unquoted(name)
      case None => Failure(SyntaxError(PragmaFor(name)))
      case Some(id) => Success(ColumnsOf(Lookup(db, id)))
  }

  /** get_table_info's loop over the first n tables of db: it stops at the
      first table whose PRAGMA fails. */
  function TableInfoUpTo(db: Database, n: nat): Result<string>
    requires n <= |db|
  {
    if n == 0 then Success("")
    else
      match TableInfoUpTo(db, n - 1)
      case Failure(e) => Failure(e)
      case Success(text) =>
        match PragmaColumns(db, db[n - 1].name)
        case Failure(e) => Failure(e)
        case Success(columns) => Success(text + ColumnsEntry(db[n - 1].name, columns))
  }

  /** What get_table_info returns, or raises, on db. */
  function TableInfo(db: Database): Result<string> {
    TableInfoUpTo(db, |db|)
  }

  /** No two tables of a database share a name, as SQLite ensures. */
  predicate DistinctNames(db: Database) {
    forall i, j :: 0 <= i < j < |db| ==> db[i].name != db[j].name
  }

  /** No table name contains a double quote. */
  predicate PlainNames(db: Database) {
    forall t :: t in db ==> '"' !in t.name
  }

  lemma {:induction false} TableInfoStops(db: Database, i: nat, n: nat)
    requires i <= n <= |db|
    requires TableInfoUpTo(db, i).Failure?
    ensures TableInfoUpTo(db, n) == TableInfoUpTo(db, i)
    decreases n
  {
    if i < n {
      TableInfoStops(db, i, n - 1);
    }
  }

  lemma {:induction false} TableInfoFailsUpTo(db: Database, n: nat)
    requires n <= |db|
    ensures TableInfoUpTo(db, n).Failure? <==> exists i :: 0 <= i < n && Unquoted(db[i].name).None?
    decreases n
  {
    if n > 0 {
      TableInfoFailsUpTo(db, n - 1);
      if Unquoted(db[n - 1].name).None? {
        assert exists i :: 0 <= i < n && Unquoted(db[i].name).None?;
      }
    }
  }

  /** get_table_info raises exactly when some table name has a lone `"`. */
  lemma TableInfoFails(db: Database)
    ensures TableInfo(db).Failure? <==> exists i :: 0 <= i < |db| && Unquoted(db[i].name).None?
  {
    TableInfoFailsUpTo(db, |db|);
  }

  /** In a database with distinct names, a table's name finds that table. */
  lemma {:induction false} LookupDistinct(db: Database, i: nat)
    requires DistinctNames(db) && i < |db|
    ensures Lookup(db, db[i].name) == Some(db[i].frame)
    decreases i
  {
    if i > 0 {
      assert db[0].name != db[i].name;
      assert db[1..][i - 1] == db[i];
      LookupDistinct(db[1..], i - 1);
    }
  }

  lemma {:induction false} TableInfoPlainUpTo(db: Database, n: nat)
    requires n <= |db| && DistinctNames(db) && PlainNames(db)
    ensures TableInfoUpTo(db, n) == Success(Schema(db[..n]))
    decreases n
  {
    if n > 0 {
      TableInfoPlainUpTo(db, n - 1);
      assert db[n - 1] in db;
      LookupDistinct(db, n - 1);
      assert db[..n][..n - 1] == db[..n - 1];
    }
  }

  /** When every table name is a plain identifier, get_table_info lists
      each table with its own columns: the text is Schema. */
  lemma TableInfoPlain(db: Database)
    requires DistinctNames(db) && PlainNames(db)
    ensures TableInfo(db) == Success(Schema(db))
  {
    TableInfoPlainUpTo(db, |db|);
    assert db[..|db|] == db;
  }

  lemma {:induction false} WithoutDistinct(db: Database, name: string)
    requires DistinctNames(db)
    ensures DistinctNames(Without(db, name))
    decreases |db|
  {
    if |db| > 0 {
      var rest := db[1..];
      assert DistinctNames(rest) by {
        forall i, j | 0 <= i < j < |rest| ensures rest[i].name != rest[j].name {
          assert rest[i] == db[i + 1] && rest[j] == db[j + 1];
        }
      }
      WithoutDistinct(rest, name);
      if db[0].name != name {
        var w := Without(rest, name);
        forall k | 0 <= k < |w| ensures w[k].name != db[0].name {
          assert w[k] in w;
          var m :| 0 <= m < |rest| && rest[m] == w[k];
          assert db[m + 1] == w[k];
        }
        var r := [db[0]] + w;
        forall i, j | 0 <= i < j < |r| ensures r[i].name != r[j].name {
          assert r[j] == w[j - 1];
          if i > 0 {
            assert r[i] == w[i - 1];
          }
        }
      }
    }
  }

  /** A replace keeps the table names distinct, and keeps them plain when
      the new name is. */
  lemma ReplacedNames(db: Database, name: string, frame: Frame)
    ensures DistinctNames(db) ==> DistinctNames(Replaced(db, name, frame))
    ensures PlainNames(db) && '"' !in name ==> PlainNames(Replaced(db, name, frame))
  {
    var w := Without(db, name);
    var r := Replaced(db, name, frame);
    if DistinctNames(db) {
      WithoutDistinct(db, name);
      forall i, j | 0 <= i < j < |r| ensures r[i].name != r[j].name {
        assert r[i] == w[i] && w[i] in w;
        if j < |w| {
          assert r[j] == w[j];
        }
      }
    }
  }

  /** get_table_info(db_path): sqlite3.connect creates an empty database
      when none exists; the loop runs the PRAGMA for every table in
      catalogue order and raises at the first malformed one. */
  method GetTableInfo(d: DataDir, dbPath: string) returns (r: Result<string>)
    modifies d
    ensures d.databases == old(d.databases)[dbPath := DbAt(old(d.databases), dbPath)]
    ensures r == TableInfo(DbAt(old(d.databases), dbPath))
    ensures d.uploadDirExists == old(d.uploadDirExists) && d.uploads == old(d.uploads)
    ensures d.vectorDirs == old(d.vectorDirs) && d.chatFiles == old(d.chatFiles)
  {
    if dbPath !in d.databases {
      d.databases := d.databases[dbPath := []];
    }
    var tables := d.databases[dbPath];
    var text := "";
    for i := 0 to |tables|
      invariant TableInfoUpTo(tables, i) == Success(text)
    {
      var columns := PragmaColumns(tables, tables[i].name);
      if columns.Failure? {
        TableInfoStops(tables, i + 1, |tables|);
        return Failure(columns.error);
      }
      text := text + ColumnsEntry(tables[i].name, columns.value);
    }
    return Success(text);
  }

  // ---------------------------------------------------------------------
  // SQL from the language model
  // ---------------------------------------------------------------------

  const Fence := "```"
  const SqlFence := "```sql"

  /** generate_sql's clean-up of the model's reply: strip, drop every
      "```sql", then every "```", and strip again. */
  function StripFences(reply: string): string {
    Strip(ReplaceAll(ReplaceAll(Strip(reply), SqlFence, ""), Fence, ""))
  }

  /** No code fence survives the clean-up, and the result has no
      surrounding white space. */
  lemma FencesGone(reply: string)
    ensures !Contains(StripFences(reply), Fence)
    ensures Stripped(StripFences(reply))
  {
    var r2 := ReplaceAll(Strip(reply), SqlFence, "");
    var r3 := ReplaceAll(r2, Fence, "");
    assert Fence == ['`', '`', '`'];
    RemoveTripleGone(r2, '`');
    var i, j := StripSlice(r3);
    SliceAbsent(r3, i, j, Fence);
  }

  /** A reply that is already bare SQL is used as it is. */
  lemma CleanReplyKept(reply: string)
    requires Stripped(reply) && !Contains(reply, Fence)
    ensures StripFences(reply) == reply
  {
    assert SqlFence == Fence + "sql";
    if Contains(reply, SqlFence) {
      ContainsPrefix(reply, Fence, "sql");
    }
    ReplaceAbsent(reply, SqlFence, "");
    ReplaceAbsent(reply, Fence, "");
  }

  /** generate_sql(question, schema): llm stands for the prompt built from
      the question and the schema and sent to the model; its failure is
      the exception invoke raises. */
  function GenerateSql(question: string, schema: string, llm: (string, string) -> Result<string>): (r: Result<string>)
    ensures r.Failure? <==> llm(question, schema).Failure?
    ensures r.Success? ==> !Contains(r.value, Fence) && Stripped(r.value)
  {
    match llm(question, schema)
    case Failure(e) => Failure(e)
    case Success(reply) => FencesGone(reply); Success(StripFences(reply))
  }

  // ---------------------------------------------------------------------
  // Running the query
  // ---------------------------------------------------------------------

  /** What run_query returns: a DataFrame, or the text of the exception. */
  datatype QueryResult = Rows(frame: Frame) | ErrorText(message: string)

  /** run_query(query, db_path): execute stands for pd.read_sql_query on
      the database; an error becomes its message instead of an exception. */
  function RunQuery(db: Database, query: string, execute: (Database, string) -> Result<Frame>): (r: QueryResult)
    ensures r.ErrorText? <==> execute(db, query).Failure?
    ensures r.ErrorText? ==> r.message == execute(db, query).error
    ensures r.Rows? ==> r.frame == execute(db, query).value
  {
    match execute(db, query)
    case Success(frame) => Rows(frame)
    case Failure(e) => ErrorText(e)
  }
}
