/** The HTTP handlers of API_main.py over the data/ tree: upload, list,
    activate, delete, clear a chat, ask and read a chat. Each handler is a
    method on the DataDir; an exception inside a handler becomes a 500
    response carrying its message. The services the handlers call out to
    (CSV parsing, document parsing and splitting, embeddings, the language
    model, SQLite's query engine and the retrieval chain) are parameters. */
module Api {
  import opened Wrappers
  import opened Text
  import opened Paths
  import opened Storage
  import opened ChatLog
  import opened Utils
  import opened Rag
  import opened Sql
  import opened Loaders

  /** The external services. */
  datatype Services = Services(
    /** pd.read_csv on a file's content */
    readCsv: Bytes -> Result<Frame>,
    /** the document loaders */
    parsers: Parsers,
    /** the text splitter: documents to chunk texts */
    split: Docs -> seq<string>,
    /** the embedding model */
    embed: string -> Embedding,
    /** the language model asked for SQL, given the question and the schema */
    llm: (string, string) -> Result<string>,
    /** pd.read_sql_query on a database */
    execute: (Database, string) -> Result<Frame>,
    /** the conversational retrieval chain over a collection's records */
    chain: (Records, string) -> Result<string>)

  /** What a handler returns. */
  datatype Body =
    | UploadedCsv(savedName: string, filename: string, ext: string, dbPath: string, tableName: string, schema: string)
    | UploadedRag(savedName: string, filename: string, ext: string, vectDir: string)
    | CollectionList(collections: seq<string>)
    | ActivatedCsv(dbPath: string, schema: string, tableName: string)
    | ActivatedRag(vectDir: string)
    | Deleted(deleted: bool)
    | Cleared
    | AnsweredCsv(sql: string, result: seq<Row>, assistant: string)
    | AnsweredRag(answer: string)
    | ChatList(chat: seq<Turn>)

  /** A 200 response with its body, or a 500 response with the error text. */
  datatype Response = Ok(body: Body) | ServerError(error: string)

  function StatusCode(r: Response): int {
    if r.Ok? then 200 else 500
  }

  // ---------------------------------------------------------------------
  // Paths and modes of a collection
  // ---------------------------------------------------------------------

  /** The extension activate and ask read from a stored name: the text
      after its last ".", lower-cased. */
  function ExtOf(savedName: string): (r: string)
    ensures '.' !in r
    ensures forall i :: 0 <= i < |r| ==> !('A' <= r[i] <= 'Z')
    ensures '.' !in savedName ==> r == Lower(savedName)
  {
    LowerChars(LastDotField(savedName));
    Lower(LastDotField(savedName))
  }

  /** The SQLite file of a CSV collection: data/csv_dbs/{saved_name}.db. */
  function DbPathFor(savedName: string): (r: string)
    ensures '/' in r
    ensures !StartsWith(savedName, "/") ==> r == "data/csv_dbs/" + savedName + ".db"
  {
    assert !StartsWith("csv_dbs", "/") by {
      assert "csv_dbs"[..1] == "c";
    }
    var dir := Join("data", "csv_dbs");
    assert dir == "data/csv_dbs";
    var r := Join(dir, savedName + ".db");
    if StartsWith(savedName, "/") then
      assert StartsWith(savedName + ".db", "/") by {
        assert (savedName + ".db")[..1] == savedName[..1];
      }
      assert r[0] == '/';
      r
    else
      assert !StartsWith(savedName + ".db", "/") by {
        if |savedName| > 0 {
          assert (savedName + ".db")[..1] == savedName[..1];
        }
      }
      assert r[4] == '/';
      r
  }

  /** The stored file of a collection, if there is one. */
  function FileAt(uploads: map<string, Bytes>, savedName: string): Option<Bytes> {
    if savedName in uploads then Some(uploads[savedName]) else None
  }

  /** pd.read_csv(collection_path(saved_name)) */
  function CsvAt(uploads: map<string, Bytes>, savedName: string, svc: Services): Result<Frame> {
    match FileAt(uploads, savedName)
    case None => Failure(NoSuchFile(CollectionPath(savedName)))
    case Some(bytes) => svc.readCsv(bytes)
  }

  /** The chunks a collection's file is split into:
      load_docs_by_ext(ext, full_path) followed by the splitter. */
  function ChunksOf(ext: string, savedName: string, file: Option<Bytes>, svc: Services): Result<seq<string>> {
    match LoadDocsByExt(ext, CollectionPath(savedName), file, svc.parsers)
    case Failure(e) => Failure(e)
    case Success(docs) => Success(svc.split(docs))
  }

  /** The table name activate reports: the stem of the stored file name. */
  function ReportedTableName(savedName: string): string {
    Stem(CollectionPath(savedName))
  }

  /** The name activate reports is the name of the table the CSV was loaded
      into only when the stem has no "-" and no " ": otherwise the table
      has "_" where the report has "-" or " ". */
  lemma ReportedTableNameAgrees(savedName: string)
    ensures ReportedTableName(savedName) == DefaultTableName(CollectionPath(savedName)) <==>
      '-' !in ReportedTableName(savedName) && ' ' !in ReportedTableName(savedName)
  {
    DefaultTableNameChars(CollectionPath(savedName));
    var stem := ReportedTableName(savedName);
    if '-' !in stem && ' ' !in stem {
      assert forall i :: 0 <= i < |stem| ==> Underscored(stem[i]) == stem[i];
    }
  }

  // ---------------------------------------------------------------------
  // The assistant's reply to a CSV question
  // ---------------------------------------------------------------------

  const SqlErrorPrefix := "\U{274C} SQL Error: "

  /** res.iloc[0, 0] */
  function FirstCell(f: Frame): string
    requires |f.rows| > 0
  {
    if |f.rows[0]| > 0 then f.rows[0][0] else ""
  }

  /** The assistant text ask writes for a query result. */
  function AssistantText(res: QueryResult): string {
    match res
    case ErrorText(message) => SqlErrorPrefix + message
    case Rows(f) =>
      if |f.columns| == 1 && |f.rows| == 1 then "The answer is **" + FirstCell(f) + "**."
      else "Returned " + NatToString(|f.rows|) + " rows. (Showing top 10)"
  }

  /** The reply names an SQL error exactly when the query failed, and
      carries the error text; a single value is quoted; otherwise the row
      count is given. */
  lemma AssistantTextKinds(res: QueryResult)
    ensures StartsWith(AssistantText(res), SqlErrorPrefix) <==> res.ErrorText?
    ensures res.ErrorText? ==> AssistantText(res)[|SqlErrorPrefix|..] == res.message
    ensures res.Rows? && |res.frame.columns| == 1 && |res.frame.rows| == 1 ==>
      AssistantText(res) == "The answer is **" + FirstCell(res.frame) + "**."
    ensures res.Rows? && !(|res.frame.columns| == 1 && |res.frame.rows| == 1) ==>
      StartsWith(AssistantText(res), "Returned " + NatToString(|res.frame.rows|) + " rows.")
  {
    var r := AssistantText(res);
    if res.Rows? {
      assert r[0] != SqlErrorPrefix[0];
      if !(|res.frame.columns| == 1 && |res.frame.rows| == 1) {
        var head := "Returned " + NatToString(|res.frame.rows|) + " rows.";
        assert r[..|head|] == head;
      }
    } else {
      assert r[..|SqlErrorPrefix|] == SqlErrorPrefix;
    }
  }

  /** res.head(10): the first ten rows, none for an error. */
  function Shown(res: QueryResult): (r: seq<Row>)
    ensures |r| <= 10
    ensures res.ErrorText? ==> r == []
    ensures res.Rows? ==> |r| == if |res.frame.rows| < 10 then |res.frame.rows| else 10
    ensures res.Rows? ==> r == res.frame.rows[..|r|]
  {
    match res
    case ErrorText(_) => []
    case Rows(f) => if |f.rows| <= 10 then f.rows else f.rows[..10]
  }

  // ---------------------------------------------------------------------
  // The chat exchange of ask
  // ---------------------------------------------------------------------

  /** The chat files after ask's two append_to_chat calls: the first writes
      the history followed by the question; the second reads that file back
      and writes what it read followed by the reply. Only the collection's
      chat file changes. */
  function ExchangedChat(chatFiles: map<string, string>, savedName: string, history: seq<Turn>, question: string, reply: string)
    : map<string, string>
  {
    var path := ChatFileFor(savedName);
    var asked := Render(history + [Turn("user", question)]);
    chatFiles[path := asked][path := Render(Parse(asked) + [Turn("assistant", reply)])]
  }

  /** When the history was read from the file and it and both turns are
      Faithful, the exchange reads back as the history followed by exactly
      those two turns. */
  lemma ExchangedChatReadsBack(chatFiles: map<string, string>, savedName: string, history: seq<Turn>, question: string, reply: string)
    requires forall t :: t in history ==> Canonical(t)
    requires AllFaithful(history + [Turn("user", question), Turn("assistant", reply)])
    ensures Parse(ExchangedChat(chatFiles, savedName, history, question, reply)[ChatFileFor(savedName)]) ==
      history + [Turn("user", question), Turn("assistant", reply)]
  {
    var user := Turn("user", question);
    var assistant := Turn("assistant", reply);
    var asked := Parse(Render(history + [user]));
    var answered := Parse(Render(asked + [assistant]));
    forall i | 0 <= i < |history| ensures Canonical(history[i]) {
      assert history[i] in history;
    }
    forall i | 0 <= i < |asked| ensures Canonical(asked[i]) {
      assert asked[i] in asked;
    }
    LowerFixed("user");
    LowerFixed("assistant");
    if AllFaithful(history + [user]) {
      AppendRoundTrip(history, user);
    }
    if AllFaithful(asked + [assistant]) {
      AppendRoundTrip(asked, assistant);
    }
    ExchangeHistory(history, asked, answered, user, assistant);
  }

  /** Two appends, each read back as written when Faithful, add both
      turns when the old history and both turns are Faithful. */
  lemma ExchangeHistory(h0: seq<Turn>, h1: seq<Turn>, h2: seq<Turn>, user: Turn, assistant: Turn)
    requires AllFaithful(h0 + [user]) ==> h1 == h0 + [user]
    requires AllFaithful(h1 + [assistant]) ==> h2 == h1 + [assistant]
    ensures AllFaithful(h0 + [user, assistant]) ==> h2 == h0 + [user, assistant]
  {
    if AllFaithful(h0 + [user, assistant]) {
      assert forall i :: 0 <= i < |h0 + [user]| ==> (h0 + [user])[i] == (h0 + [user, assistant])[i];
      assert h1 == h0 + [user];
      assert h1 + [assistant] == h0 + [user, assistant];
    }
  }

  /** The two append_to_chat calls of ask: the question as a user turn,
      then the reply as an assistant turn. */
  method AppendExchange(d: DataDir, savedName: string, question: string, reply: string)
    modifies d
    ensures d.chatFiles == ExchangedChat(old(d.chatFiles), savedName, old(History(d, savedName)), question, reply)
    ensures AllFaithful(old(History(d, savedName)) + [Turn("user", question), Turn("assistant", reply)]) ==>
      History(d, savedName) == old(History(d, savedName)) + [Turn("user", question), Turn("assistant", reply)]
    ensures d.uploadDirExists == old(d.uploadDirExists) && d.uploads == old(d.uploads)
    ensures d.vectorDirs == old(d.vectorDirs) && d.databases == old(d.databases)
  {
    ghost var h0 := History(d, savedName);
    LowerFixed("user");
    LowerFixed("assistant");
    AppendToChat(d, savedName, "user", question);
    ghost var h1 := History(d, savedName);
    assert h1 == Parse(Render(h0 + [Turn("user", question)]));
    AppendToChat(d, savedName, "assistant", reply);
    ghost var h2 := History(d, savedName);
    ExchangeHistory(h0, h1, h2, Turn("user", question), Turn("assistant", reply));
  }

  // ---------------------------------------------------------------------
  // What activate and ask work on
  // ---------------------------------------------------------------------

  /** The database a CSV collection is used through: the tables of its
      database file, or, when that file is missing, the stored CSV loaded as
      one table under its default name; the error of pd.read_csv otherwise. */
  function ReadyDb(databases: map<string, Database>, uploads: map<string, Bytes>, savedName: string, svc: Services): Result<Database> {
    if DbPathFor(savedName) in databases then Success(databases[DbPathFor(savedName)])
    else
      match CsvAt(uploads, savedName, svc)
      case Failure(e) => Failure(e)
      case Success(frame) => Success([Table(DefaultTableName(CollectionPath(savedName)), frame)])
  }

  /** The database files once the collection is ready: a database loaded on
      the way stays, whatever happens afterwards. */
  function DatabasesAfter(databases: map<string, Database>, savedName: string, ready: Result<Database>): map<string, Database> {
    match ready
    case Failure(_) => databases
    case Success(db) => databases[DbPathFor(savedName) := db]
  }

  /** A database loaded because its file was missing holds the CSV under
      its default name and no other table; get_table_info on it raises
      exactly when that name has a lone `"`, and gives that one table's
      entry when the name has no `"`. Loading fails only when the CSV
      cannot be read. */
  lemma ReadyDbLoaded(databases: map<string, Database>, uploads: map<string, Bytes>, savedName: string, svc: Services)
    requires DbPathFor(savedName) !in databases
    ensures ReadyDb(databases, uploads, savedName, svc).Success? <==> CsvAt(uploads, savedName, svc).Success?
    ensures CsvAt(uploads, savedName, svc).Failure? ==>
      ReadyDb(databases, uploads, savedName, svc) == Failure(CsvAt(uploads, savedName, svc).error)
    ensures CsvAt(uploads, savedName, svc).Success? ==>
      var db := ReadyDb(databases, uploads, savedName, svc).value;
      var name := DefaultTableName(CollectionPath(savedName));
      var frame := CsvAt(uploads, savedName, svc).value;
      && Lookup(db, name) == Some(frame)
      && (forall other :: other != name ==> Lookup(db, other) == None)
      && Schema(db) == TableEntry(Table(name, frame))
      && (TableInfo(db).Failure? <==> Unquoted(name).None?)
      && ('"' !in name ==> TableInfo(db) == Success(TableEntry(Table(name, frame))))
  {
    if CsvAt(uploads, savedName, svc).Success? {
      var db := ReadyDb(databases, uploads, savedName, svc).value;
      assert db[1..] == [] && db[..0] == [];
      TableInfoFails(db);
      if '"' !in DefaultTableName(CollectionPath(savedName)) {
        TableInfoPlain(db);
      }
    }
  }

  /** Once a collection is ready it is used as it is: making it ready again
      loads nothing and gives the same tables. */
  lemma ReadyDbStable(databases: map<string, Database>, uploads: map<string, Bytes>, savedName: string, svc: Services)
    requires ReadyDb(databases, uploads, savedName, svc).Success?
    ensures var after := DatabasesAfter(databases, savedName, ReadyDb(databases, uploads, savedName, svc));
      && ReadyDb(after, uploads, savedName, svc) == ReadyDb(databases, uploads, savedName, svc)
      && DatabasesAfter(after, savedName, ReadyDb(after, uploads, savedName, svc)) == after
  {
    var after := DatabasesAfter(databases, savedName, ReadyDb(databases, uploads, savedName, svc));
    var db := ReadyDb(databases, uploads, savedName, svc).value;
    assert after == databases[DbPathFor(savedName) := db];
    assert after[DbPathFor(savedName) := db] == after;
  }

  /** The records a document collection is asked over: those of its vector
      store, or, when the store's directory is missing, the file's chunks
      indexed into a new store; the loader's error otherwise. */
  function ReadyRecords(vectorDirs: map<string, Collections>, uploads: map<string, Bytes>, savedName: string, svc: Services): Result<Records> {
    if VectorstoreDirFor(savedName) in vectorDirs then
      Success(RecordsIn(vectorDirs[VectorstoreDirFor(savedName)], DefaultCollection))
    else
      match ChunksOf(ExtOf(savedName), savedName, FileAt(uploads, savedName), svc)
      case Failure(e) => Failure(e)
      case Success(chunks) => Success(Upserted(map[], ChunkIds(DefaultCollection, |chunks|), chunks, svc.embed))
  }

  /** The vector stores once the collection is ready: only a missing store
      is created, holding the default collection alone; every other store
      stays as it was. */
  function VectorDirsAfter(vectorDirs: map<string, Collections>, savedName: string, ready: Result<Records>): map<string, Collections> {
    if VectorstoreDirFor(savedName) in vectorDirs then vectorDirs
    else
      match ready
      case Failure(_) => vectorDirs
      case Success(records) => vectorDirs[VectorstoreDirFor(savedName) := map[DefaultCollection := records]]
  }

  /** A store built because its directory was missing holds exactly the
      file's chunks, the i-th under id i + 1 with its embedding; it fails
      only when the file cannot be loaded. */
  lemma ReadyRecordsBuilt(vectorDirs: map<string, Collections>, uploads: map<string, Bytes>, savedName: string, svc: Services, i: nat)
    requires VectorstoreDirFor(savedName) !in vectorDirs
    ensures ReadyRecords(vectorDirs, uploads, savedName, svc).Success? <==>
      ChunksOf(ExtOf(savedName), savedName, FileAt(uploads, savedName), svc).Success?
    ensures ChunksOf(ExtOf(savedName), savedName, FileAt(uploads, savedName), svc).Failure? ==>
      ReadyRecords(vectorDirs, uploads, savedName, svc) == Failure(ChunksOf(ExtOf(savedName), savedName, FileAt(uploads, savedName), svc).error)
    ensures ChunksOf(ExtOf(savedName), savedName, FileAt(uploads, savedName), svc).Success? ==>
      var chunks := ChunksOf(ExtOf(savedName), savedName, FileAt(uploads, savedName), svc).value;
      var records := ReadyRecords(vectorDirs, uploads, savedName, svc).value;
      && (forall k :: k in records <==> k in ChunkIds(DefaultCollection, |chunks|))
      && (i < |chunks| ==>
            ChunkId(DefaultCollection, i + 1) in records &&
            records[ChunkId(DefaultCollection, i + 1)] == Chunk(chunks[i], svc.embed(chunks[i])))
  {
    var loaded := ChunksOf(ExtOf(savedName), savedName, FileAt(uploads, savedName), svc);
    if loaded.Success? {
      var chunks := loaded.value;
      UpsertedKeys(map[], ChunkIds(DefaultCollection, |chunks|), chunks, svc.embed);
      if i < |chunks| {
        UpsertedWritesChunk(map[], DefaultCollection, chunks, svc.embed, i);
      }
    }
  }

  /** Once a collection is ready it is used as it is: making it ready again
      builds nothing and gives the same records. */
  lemma ReadyRecordsStable(vectorDirs: map<string, Collections>, uploads: map<string, Bytes>, savedName: string, svc: Services)
    requires ReadyRecords(vectorDirs, uploads, savedName, svc).Success?
    ensures var after := VectorDirsAfter(vectorDirs, savedName, ReadyRecords(vectorDirs, uploads, savedName, svc));
      && ReadyRecords(after, uploads, savedName, svc) == ReadyRecords(vectorDirs, uploads, savedName, svc)
      && VectorDirsAfter(after, savedName, ReadyRecords(after, uploads, savedName, svc)) == after
  {
  }

  /** What activate and ask do before using a CSV collection: when the
      database file is missing, load the CSV into it. Returns the error of
      a failed load. */
  method ReadyDatabase(d: DataDir, savedName: string, svc: Services) returns (err: Option<string>)
    modifies d
    ensures err.None? <==> ReadyDb(old(d.databases), d.uploads, savedName, svc).Success?
    ensures err.Some? ==> err.value == ReadyDb(old(d.databases), d.uploads, savedName, svc).error
    ensures d.databases == DatabasesAfter(old(d.databases), savedName, ReadyDb(old(d.databases), d.uploads, savedName, svc))
    ensures d.uploadDirExists == old(d.uploadDirExists) && d.uploads == old(d.uploads)
    ensures d.vectorDirs == old(d.vectorDirs) && d.chatFiles == old(d.chatFiles)
  {
    var dbPath := DbPathFor(savedName);
    if dbPath !in d.databases {
      ghost var name := DefaultTableName(CollectionPath(savedName));
      assert DbAt(d.databases, dbPath) == [];
      assert TableNameFor(CollectionPath(savedName), None) == name;
      var loaded := LoadCsvToSql(d, CollectionPath(savedName), dbPath, None, CsvAt(d.uploads, savedName, svc));
      if loaded.Failure? {
        return Some(loaded.error);
      }
      assert Without([], name) == [];
      assert Replaced([], name, CsvAt(d.uploads, savedName, svc).value) == [Table(name, CsvAt(d.uploads, savedName, svc).value)];
    } else {
      assert d.databases[dbPath := d.databases[dbPath]] == d.databases;
    }
    return None;
  }

  /** What activate and ask do before using a document collection: when
      the vector-store directory is missing, load, split and index the
      file. Returns the collection's records, or the loader's error. */
  method ReadyVectorstore(d: DataDir, savedName: string, svc: Services) returns (r: Result<Records>)
    modifies d
    ensures r == ReadyRecords(old(d.vectorDirs), d.uploads, savedName, svc)
    ensures d.vectorDirs == VectorDirsAfter(old(d.vectorDirs), savedName, r)
    ensures r.Success? ==> LoadVectorstoreIfExists(d, VectorstoreDirFor(savedName), DefaultCollection) == Some(r.value)
    ensures d.uploadDirExists == old(d.uploadDirExists) && d.uploads == old(d.uploads)
    ensures d.databases == old(d.databases) && d.chatFiles == old(d.chatFiles)
  {
    var vectDir := VectorstoreDirFor(savedName);
    var vect := LoadVectorstoreIfExists(d, vectDir, DefaultCollection);
    if vect.Some? {
      assert VectorDirsAfter(d.vectorDirs, savedName, Success(vect.value)) == d.vectorDirs;
      return Success(vect.value);
    }
    var chunks := ChunksOf(ExtOf(savedName), savedName, FileAt(d.uploads, savedName), svc);
    if chunks.Failure? {
      assert VectorDirsAfter(d.vectorDirs, savedName, Failure(chunks.error)) == d.vectorDirs;
      return Failure(chunks.error);
    }
    ghost var before := d.vectorDirs;
    r := BuildVectorstore(d, vectDir, chunks.value, svc.embed);
    assert d.vectorDirs == VectorDirsAfter(before, savedName, r);
  }

  /** create_vectorstore into a directory that does not exist yet: the new
      store holds the default collection alone, with exactly the chunks. */
  method BuildVectorstore(d: DataDir, vectDir: string, chunks: seq<string>, embed: string -> Embedding) returns (r: Result<Records>)
    requires vectDir !in d.vectorDirs
    modifies d
    ensures r == Success(Upserted(map[], ChunkIds(DefaultCollection, |chunks|), chunks, embed))
    ensures d.vectorDirs == old(d.vectorDirs)[vectDir := map[DefaultCollection := r.value]]
    ensures LoadVectorstoreIfExists(d, vectDir, DefaultCollection) == Some(r.value)
    ensures d.uploadDirExists == old(d.uploadDirExists) && d.uploads == old(d.uploads)
    ensures d.databases == old(d.databases) && d.chatFiles == old(d.chatFiles)
  {
    assert DirAt(d.vectorDirs, vectDir) == map[];
    assert Before(d.vectorDirs, vectDir, DefaultCollection) == map[];
    var _, _ := CreateVectorstore(d, chunks, vectDir, DefaultCollection, embed);
    var vect := LoadVectorstoreIfExists(d, vectDir, DefaultCollection);
    return Success(vect.value);
  }

  // ---------------------------------------------------------------------
  // The answers of ask
  // ---------------------------------------------------------------------

  /** The SQL ask runs on a ready database: get_table_info's schema, then
      the model's SQL for it; the first exception of the two. */
  function SqlFor(db: Database, question: string, llm: (string, string) -> Result<string>): Result<string> {
    match TableInfo(db)
    case Failure(e) => Failure(e)
    case Success(schema) => GenerateSql(question, schema, llm)
  }

  /** The response of ask for a CSV collection over the database made
      ready: the loader's, get_table_info's or the model's error as a 500,
      or the SQL, the first rows of its result and the reply text. A
      failing query is still a 200, whose reply carries the query's
      error. */
  function CsvAnswer(ready: Result<Database>, question: string, svc: Services): (r: Response)
    ensures r.Ok? <==>
      ready.Success? && TableInfo(ready.value).Success? && GenerateSql(question, TableInfo(ready.value).value, svc.llm).Success?
    ensures ready.Failure? ==> r == ServerError(ready.error)
    ensures ready.Success? && TableInfo(ready.value).Failure? ==> r == ServerError(TableInfo(ready.value).error)
    ensures ready.Success? && TableInfo(ready.value).Success? && GenerateSql(question, TableInfo(ready.value).value, svc.llm).Failure? ==>
      r == ServerError(GenerateSql(question, TableInfo(ready.value).value, svc.llm).error)
    ensures r.Ok? ==>
      && r.body.AnsweredCsv?
      && GenerateSql(question, TableInfo(ready.value).value, svc.llm) == Success(r.body.sql)
      && (StartsWith(r.body.assistant, SqlErrorPrefix) <==> svc.execute(ready.value, r.body.sql).Failure?)
    ensures r.Ok? && svc.execute(ready.value, r.body.sql).Failure? ==>
      r.body.result == [] && r.body.assistant[|SqlErrorPrefix|..] == svc.execute(ready.value, r.body.sql).error
    ensures r.Ok? && svc.execute(ready.value, r.body.sql).Success? ==>
      var rows := svc.execute(ready.value, r.body.sql).value.rows;
      |r.body.result| == (if |rows| < 10 then |rows| else 10) && r.body.result == rows[..|r.body.result|]
  {
    match ready
    case Failure(e) => ServerError(e)
    case Success(db) =>
      match SqlFor(db, question, svc.llm)
      case Failure(e) => ServerError(e)
      case Success(sql) =>
        var res := RunQuery(db, sql, svc.execute);
        AssistantTextKinds(res);
        Ok(AnsweredCsv(sql, Shown(res), AssistantText(res)))
  }

  /** The response of ask for a document collection over the records made
      ready: the loader's or the chain's error as a 500, or the chain's
      answer. */
  function RagAnswer(ready: Result<Records>, question: string, svc: Services): (r: Response)
    ensures r.Ok? <==> ready.Success? && svc.chain(ready.value, question).Success?
    ensures ready.Failure? ==> r == ServerError(ready.error)
    ensures ready.Success? && svc.chain(ready.value, question).Failure? ==> r == ServerError(svc.chain(ready.value, question).error)
    ensures r.Ok? ==> r.body == AnsweredRag(svc.chain(ready.value, question).value)
  {
    match ready
    case Failure(e) => ServerError(e)
    case Success(records) =>
      match svc.chain(records, question)
      case Failure(e) => ServerError(e)
      case Success(answer) => Ok(AnsweredRag(answer))
  }

  /** The text ask records as the assistant's turn of an answer. */
  function ReplyText(b: Body): string {
    match b
    case AnsweredCsv(_, _, assistant) => assistant
    case AnsweredRag(answer) => answer
    case _ => ""
  }

  /** The chat files after ask: the exchange is recorded only when ask
      answers with a 200. */
  function ChatAfterAsk(chatFiles: map<string, string>, savedName: string, history: seq<Turn>, question: string, resp: Response): map<string, string> {
    if resp.Ok? then ExchangedChat(chatFiles, savedName, history, question, ReplyText(resp.body)) else chatFiles
  }

  // ---------------------------------------------------------------------
  // What upload writes
  // ---------------------------------------------------------------------

  /** The databases after upload loads a CSV: the collection's table in its
      database replaced by the frame. */
  function CsvLoaded(databases: map<string, Database>, savedName: string, frame: Frame): map<string, Database> {
    var dbPath := DbPathFor(savedName);
    databases[dbPath := Replaced(DbAt(databases, dbPath), DefaultTableName(CollectionPath(savedName)), frame)]
  }

  /** Loading replaces the collection's table and keeps the database's
      other tables and every other database; the schema lists the kept
      tables, then the loaded one. get_table_info gives that schema when
      the database's names are distinct and plain, and raises when the
      loaded table's name has a lone `"`. */
  lemma CsvLoadedTables(databases: map<string, Database>, savedName: string, frame: Frame, other: string, path: string)
    ensures var dbPath := DbPathFor(savedName);
      var name := DefaultTableName(CollectionPath(savedName));
      var after := CsvLoaded(databases, savedName, frame);
      && Lookup(after[dbPath], name) == Some(frame)
      && (other != name ==> Lookup(after[dbPath], other) == Lookup(DbAt(databases, dbPath), other))
      && (path != dbPath && path in databases ==> path in after && after[path] == databases[path])
      && Schema(after[dbPath]) == Schema(Without(DbAt(databases, dbPath), name)) + TableEntry(Table(name, frame))
      && (DistinctNames(DbAt(databases, dbPath)) && PlainNames(DbAt(databases, dbPath)) && '"' !in name ==>
            TableInfo(after[dbPath]) == Success(Schema(after[dbPath])))
      && (Unquoted(name).None? ==> TableInfo(after[dbPath]).Failure?)
  {
    var dbPath := DbPathFor(savedName);
    var name := DefaultTableName(CollectionPath(savedName));
    var db := DbAt(databases, dbPath);
    var loaded := Replaced(db, name, frame);
    ReplacedTable(db, name, frame, other);
    SchemaReplaced(db, name, frame);
    ReplacedNames(db, name, frame);
    if DistinctNames(db) && PlainNames(db) && '"' !in name {
      TableInfoPlain(loaded);
    }
    TableInfoFails(loaded);
    assert loaded[|loaded| - 1].name == name;
  }

  /** The vector stores after upload indexes chunks: they are upserted into
      the default collection of the collection's store. */
  function ChunksIndexed(vectorDirs: map<string, Collections>, savedName: string, chunks: seq<string>, embed: string -> Embedding)
    : map<string, Collections>
  {
    var dir := VectorstoreDirFor(savedName);
    vectorDirs[dir := DirAt(vectorDirs, dir)[DefaultCollection :=
      Upserted(Before(vectorDirs, dir, DefaultCollection), ChunkIds(DefaultCollection, |chunks|), chunks, embed)]]
  }

  /** Indexing keeps the store's records and adds the chunks: the i-th
      under id i + 1 with its embedding; the store's other collections
      stay as they were. */
  lemma ChunksIndexedRecords(vectorDirs: map<string, Collections>, savedName: string, chunks: seq<string>, embed: string -> Embedding, i: nat, c: string)
    ensures var dir := VectorstoreDirFor(savedName);
      var after := ChunksIndexed(vectorDirs, savedName, chunks, embed);
      var records := after[dir][DefaultCollection];
      && (forall k :: k in records <==> k in Before(vectorDirs, dir, DefaultCollection) || k in ChunkIds(DefaultCollection, |chunks|))
      && (i < |chunks| ==>
            ChunkId(DefaultCollection, i + 1) in records &&
            records[ChunkId(DefaultCollection, i + 1)] == Chunk(chunks[i], embed(chunks[i])))
      && (c != DefaultCollection && c in DirAt(vectorDirs, dir) ==> c in after[dir] && after[dir][c] == DirAt(vectorDirs, dir)[c])
  {
    var before := Before(vectorDirs, VectorstoreDirFor(savedName), DefaultCollection);
    UpsertedKeys(before, ChunkIds(DefaultCollection, |chunks|), chunks, embed);
    if i < |chunks| {
      UpsertedWritesChunk(before, DefaultCollection, chunks, embed, i);
    }
  }

  /** The response of upload for a loaded CSV: the names, the database
      path, the table name and the schema, or get_table_info's error. */
  function CsvUploaded(savedName: string, filename: string, info: Result<string>): (r: Response)
    ensures r.Ok? <==> info.Success?
    ensures r.ServerError? ==> r.error == info.error
    ensures r.Ok? ==> r.body == UploadedCsv(savedName, filename, "csv", DbPathFor(savedName),
                                            DefaultTableName(CollectionPath(savedName)), info.value)
  {
    match info
    case Failure(e) => ServerError(e)
    case Success(schema) =>
      Ok(UploadedCsv(savedName, filename, "csv", DbPathFor(savedName), DefaultTableName(CollectionPath(savedName)), schema))
  }

  // ---------------------------------------------------------------------
  // Handlers
  // ---------------------------------------------------------------------

  /** POST /upload: stores the file, then loads a CSV into its database
      and reports the schema, or loads and indexes any other file in its
      vector store. The stored file stays when a later step fails. */
  method Upload(d: DataDir, filename: string, content: Bytes, fileType: string, now: nat, svc: Services)
    returns (resp: Response)
    requires d.Valid()
    modifies d
    ensures d.Valid()
    ensures var name := SavedName(old(d.uploadDirExists), old(d.uploads), filename, now);
      resp.Ok? <==>
        && old(d.uploadDirExists) && '/' !in name
        && (if Lower(fileType) == "csv" then
              && svc.readCsv(content).Success?
              && TableInfo(CsvLoaded(old(d.databases), name, svc.readCsv(content).value)[DbPathFor(name)]).Success?
            else ChunksOf(Lower(fileType), name, Some(content), svc).Success?)
    ensures var name := SavedName(old(d.uploadDirExists), old(d.uploads), filename, now);
      old(d.uploadDirExists) && '/' !in name ==> d.uploads == old(d.uploads)[name := content]
    ensures var name := SavedName(old(d.uploadDirExists), old(d.uploads), filename, now);
      !(old(d.uploadDirExists) && '/' !in name) ==>
        && resp.ServerError? && d.uploads == old(d.uploads)
        && d.databases == old(d.databases) && d.vectorDirs == old(d.vectorDirs)
    ensures var name := SavedName(old(d.uploadDirExists), old(d.uploads), filename, now);
      old(d.uploadDirExists) && '/' !in name && Lower(fileType) == "csv" ==>
        && d.vectorDirs == old(d.vectorDirs)
        && (svc.readCsv(content).Failure? ==> resp == ServerError(svc.readCsv(content).error) && d.databases == old(d.databases))
        && (svc.readCsv(content).Success? ==>
             && d.databases == CsvLoaded(old(d.databases), name, svc.readCsv(content).value)
             && resp == CsvUploaded(name, filename, TableInfo(d.databases[DbPathFor(name)])))
    ensures var name := SavedName(old(d.uploadDirExists), old(d.uploads), filename, now);
      var chunks := ChunksOf(Lower(fileType), name, Some(content), svc);
      old(d.uploadDirExists) && '/' !in name && Lower(fileType) != "csv" ==>
        && d.databases == old(d.databases)
        && (chunks.Failure? ==> resp == ServerError(chunks.error) && d.vectorDirs == old(d.vectorDirs))
        && (chunks.Success? ==>
             && d.vectorDirs == ChunksIndexed(old(d.vectorDirs), name, chunks.value, svc.embed)
             && resp == Ok(UploadedRag(name, filename, Lower(fileType), VectorstoreDirFor(name))))
    ensures d.uploadDirExists == old(d.uploadDirExists) && d.chatFiles == old(d.chatFiles)
  {
    var saved := SaveFileBytes(d, filename, content, now);
    if saved.Failure? {
      return ServerError(saved.error);
    }
    var ext := Lower(fileType);
    if ext == "csv" {
      resp := UploadCsv(d, saved.value, filename, content, svc);
    } else {
      resp := UploadRag(d, saved.value, filename, ext, content, svc);
    }
  }

  /** Upload of a stored CSV: load_csv_to_sql into the collection's
      database, then get_table_info; the loaded table stays when
      get_table_info raises. */
  method UploadCsv(d: DataDir, savedName: string, filename: string, content: Bytes, svc: Services) returns (resp: Response)
    modifies d
    ensures svc.readCsv(content).Failure? ==>
      resp == ServerError(svc.readCsv(content).error) && d.databases == old(d.databases)
    ensures svc.readCsv(content).Success? ==>
      && d.databases == CsvLoaded(old(d.databases), savedName, svc.readCsv(content).value)
      && resp == CsvUploaded(savedName, filename, TableInfo(d.databases[DbPathFor(savedName)]))
    ensures d.uploadDirExists == old(d.uploadDirExists) && d.uploads == old(d.uploads)
    ensures d.vectorDirs == old(d.vectorDirs) && d.chatFiles == old(d.chatFiles)
  {
    var dbPath := DbPathFor(savedName);
    assert TableNameFor(CollectionPath(savedName), None) == DefaultTableName(CollectionPath(savedName));
    var loaded := LoadCsvToSql(d, CollectionPath(savedName), dbPath, None, svc.readCsv(content));
    if loaded.Failure? {
      return ServerError(loaded.error);
    }
    assert d.databases[dbPath := DbAt(d.databases, dbPath)] == d.databases;
    var info := GetTableInfo(d, dbPath);
    if info.Failure? {
      return ServerError(info.error);
    }
    resp := Ok(UploadedCsv(savedName, filename, "csv", dbPath, loaded.value.1, info.value));
  }

  /** Upload of any other stored file: load_docs_by_ext, split, and
      create_vectorstore in the collection's store. */
  method UploadRag(d: DataDir, savedName: string, filename: string, ext: string, content: Bytes, svc: Services) returns (resp: Response)
    modifies d
    ensures ChunksOf(ext, savedName, Some(content), svc).Failure? ==>
      resp == ServerError(ChunksOf(ext, savedName, Some(content), svc).error) && d.vectorDirs == old(d.vectorDirs)
    ensures ChunksOf(ext, savedName, Some(content), svc).Success? ==>
      && d.vectorDirs == ChunksIndexed(old(d.vectorDirs), savedName, ChunksOf(ext, savedName, Some(content), svc).value, svc.embed)
      && resp == Ok(UploadedRag(savedName, filename, ext, VectorstoreDirFor(savedName)))
    ensures d.uploadDirExists == old(d.uploadDirExists) && d.uploads == old(d.uploads)
    ensures d.databases == old(d.databases) && d.chatFiles == old(d.chatFiles)
  {
    var chunks := ChunksOf(ext, savedName, Some(content), svc);
    if chunks.Failure? {
      return ServerError(chunks.error);
    }
    var vectDir := VectorstoreDirFor(savedName);
    var _, _ := CreateVectorstore(d, chunks.value, vectDir, DefaultCollection, svc.embed);
    resp := Ok(UploadedRag(savedName, filename, ext, vectDir));
  }

  /** GET /collections: the stored names in ascending order; it does not
      fail. */
  function ListCollectionsHandler(d: DataDir): (r: Response)
    reads d
    ensures r.Ok? && r.body.CollectionList?
    ensures forall i, j :: 0 <= i < j < |r.body.collections| ==> Below(r.body.collections[i], r.body.collections[j])
    ensures !d.uploadDirExists ==> r.body.collections == []
    ensures d.uploadDirExists ==> forall x :: x in r.body.collections <==> x in d.uploads
  {
    Ok(CollectionList(ListCollections(d)))
  }


  /** POST /activate: makes a collection ready to be asked, building its
      database or vector store only when the file for it does not exist
      yet, and reports where it lives. */
  method Activate(d: DataDir, savedName: string, svc: Services) returns (resp: Response)
    modifies d
    ensures ExtOf(savedName) == "csv" ==>
      && resp == CsvActivated(ReadyDb(old(d.databases), d.uploads, savedName, svc), savedName)
      && d.databases == DatabasesAfter(old(d.databases), savedName, ReadyDb(old(d.databases), d.uploads, savedName, svc))
      && d.vectorDirs == old(d.vectorDirs)
    ensures ExtOf(savedName) != "csv" ==>
      && resp == RagActivated(ReadyRecords(old(d.vectorDirs), d.uploads, savedName, svc), savedName)
      && d.vectorDirs == VectorDirsAfter(old(d.vectorDirs), savedName, ReadyRecords(old(d.vectorDirs), d.uploads, savedName, svc))
      && d.databases == old(d.databases)
    ensures d.uploadDirExists == old(d.uploadDirExists) && d.uploads == old(d.uploads) && d.chatFiles == old(d.chatFiles)
  {
    if ExtOf(savedName) == "csv" {
      resp := ActivateCsv(d, savedName, svc);
    } else {
      resp := ActivateRag(d, savedName, svc);
    }
  }

  /** The response of activate for a CSV collection: the database path,
      get_table_info's schema of the ready database and the file's stem,
      or the error of loading the CSV or of get_table_info. */
  function CsvActivated(ready: Result<Database>, savedName: string): (r: Response)
    ensures r.Ok? <==> ready.Success? && TableInfo(ready.value).Success?
    ensures ready.Failure? ==> r == ServerError(ready.error)
    ensures ready.Success? && TableInfo(ready.value).Failure? ==> r == ServerError(TableInfo(ready.value).error)
    ensures r.Ok? ==> r.body == ActivatedCsv(DbPathFor(savedName), TableInfo(ready.value).value, ReportedTableName(savedName))
  {
    match ready
    case Failure(e) => ServerError(e)
    case Success(db) =>
      match TableInfo(db)
      case Failure(e) => ServerError(e)
      case Success(schema) => Ok(ActivatedCsv(DbPathFor(savedName), schema, ReportedTableName(savedName)))
  }

  /** The response of activate for a document collection: the store's
      directory, or the error of loading the file. */
  function RagActivated(ready: Result<Records>, savedName: string): (r: Response)
    ensures r.Ok? <==> ready.Success?
    ensures r.ServerError? ==> r.error == ready.error
    ensures r.Ok? ==> r.body == ActivatedRag(VectorstoreDirFor(savedName))
  {
    match ready
    case Failure(e) => ServerError(e)
    case Success(_) => Ok(ActivatedRag(VectorstoreDirFor(savedName)))
  }

  /** Activate for a CSV collection. */
  method ActivateCsv(d: DataDir, savedName: string, svc: Services) returns (resp: Response)
    modifies d
    ensures resp == CsvActivated(ReadyDb(old(d.databases), d.uploads, savedName, svc), savedName)
    ensures d.databases == DatabasesAfter(old(d.databases), savedName, ReadyDb(old(d.databases), d.uploads, savedName, svc))
    ensures d.uploadDirExists == old(d.uploadDirExists) && d.uploads == old(d.uploads)
    ensures d.vectorDirs == old(d.vectorDirs) && d.chatFiles == old(d.chatFiles)
  {
    var dbPath := DbPathFor(savedName);
    var err := ReadyDatabase(d, savedName, svc);
    if err.Some? {
      return ServerError(err.value);
    }
    assert d.databases[dbPath := DbAt(d.databases, dbPath)] == d.databases;
    var info := GetTableInfo(d, dbPath);
    if info.Failure? {
      return ServerError(info.error);
    }
    resp := Ok(ActivatedCsv(dbPath, info.value, Stem(CollectionPath(savedName))));
  }

  /** Activate for a collection indexed in a vector store. */
  method ActivateRag(d: DataDir, savedName: string, svc: Services) returns (resp: Response)
    modifies d
    ensures resp == RagActivated(ReadyRecords(old(d.vectorDirs), d.uploads, savedName, svc), savedName)
    ensures d.vectorDirs == VectorDirsAfter(old(d.vectorDirs), savedName, ReadyRecords(old(d.vectorDirs), d.uploads, savedName, svc))
    ensures d.uploadDirExists == old(d.uploadDirExists) && d.uploads == old(d.uploads)
    ensures d.databases == old(d.databases) && d.chatFiles == old(d.chatFiles)
  {
    var vectDir := VectorstoreDirFor(savedName);
    var records := ReadyVectorstore(d, savedName, svc);
    if records.Failure? {
      return ServerError(records.error);
    }
    resp := Ok(ActivatedRag(vectDir));
  }

  /** DELETE /collections/{saved_name}: reports whether delete_collection
      removed everything it found. */
  method DeleteHandler(d: DataDir, savedName: string, fault: Fault) returns (resp: Response)
    requires d.Valid()
    modifies d
    ensures d.Valid()
    ensures resp.Ok? && resp.body.Deleted?
    ensures resp.body.deleted <==> FailedStep(
        UploadPathExists(old(d.uploadDirExists), old(d.uploads), savedName), IsDirName(savedName),
        VectorstoreDirFor(savedName) in old(d.vectorDirs), ChatFileFor(savedName) in old(d.chatFiles), fault) == 0
    ensures var step := FailedStep(
        UploadPathExists(old(d.uploadDirExists), old(d.uploads), savedName), IsDirName(savedName),
        VectorstoreDirFor(savedName) in old(d.vectorDirs), ChatFileFor(savedName) in old(d.chatFiles), fault);
      && d.uploads == (if step == 1 then old(d.uploads) else old(d.uploads) - {savedName})
      && d.vectorDirs == (if step == 1 || step == 2 then old(d.vectorDirs) else old(d.vectorDirs) - {VectorstoreDirFor(savedName)})
      && d.chatFiles == (if step != 0 then old(d.chatFiles) else old(d.chatFiles) - {ChatFileFor(savedName)})
    ensures resp.body.deleted ==>
      savedName !in d.uploads && VectorstoreDirFor(savedName) !in d.vectorDirs && ChatFileFor(savedName) !in d.chatFiles
    ensures d.uploadDirExists == old(d.uploadDirExists) && d.databases == old(d.databases)
  {
    var ok := DeleteCollection(d, savedName, fault);
    resp := Ok(Deleted(ok));
  }

  /** POST /clear_chat: the chat file is rewritten empty, so the history
      reads back empty. */
  method ClearChat(d: DataDir, savedName: string) returns (resp: Response)
    modifies d
    ensures resp == Ok(Cleared)
    ensures d.chatFiles == old(d.chatFiles)[ChatFileFor(savedName) := ""]
    ensures History(d, savedName) == []
    ensures d.uploadDirExists == old(d.uploadDirExists) && d.uploads == old(d.uploads)
    ensures d.vectorDirs == old(d.vectorDirs) && d.databases == old(d.databases)
  {
    SaveChatHistory(d, savedName, []);
    resp := Ok(Cleared);
  }

  /** GET /chat/{saved_name}: the history as it reads back. */
  method GetChat(d: DataDir, savedName: string) returns (resp: Response)
    ensures resp == Ok(ChatList(History(d, savedName)))
    ensures forall t :: t in resp.body.chat ==> Canonical(t)
  {
    var lst := LoadChatHistory(d, savedName);
    resp := Ok(ChatList(lst));
  }

  /** POST /ask for a CSV collection: loads the CSV when its database file
      is missing, asks the model for SQL over the schema, runs it, and
      records the exchange. */
  method AskCsv(d: DataDir, savedName: string, question: string, svc: Services) returns (resp: Response)
    modifies d
    ensures resp == CsvAnswer(ReadyDb(old(d.databases), d.uploads, savedName, svc), question, svc)
    ensures d.databases == DatabasesAfter(old(d.databases), savedName, ReadyDb(old(d.databases), d.uploads, savedName, svc))
    ensures d.chatFiles == ChatAfterAsk(old(d.chatFiles), savedName, old(History(d, savedName)), question, resp)
    ensures resp.Ok? && AllFaithful(old(History(d, savedName)) + [Turn("user", question), Turn("assistant", ReplyText(resp.body))]) ==>
      History(d, savedName) == old(History(d, savedName)) + [Turn("user", question), Turn("assistant", ReplyText(resp.body))]
    ensures d.uploadDirExists == old(d.uploadDirExists) && d.uploads == old(d.uploads) && d.vectorDirs == old(d.vectorDirs)
  {
    ghost var ready := ReadyDb(d.databases, d.uploads, savedName, svc);
    var sql := CsvQuery(d, savedName, question, svc);
    if sql.Failure? {
      assert CsvAnswer(ready, question, svc) == ServerError(sql.error);
      return ServerError(sql.error);
    }
    resp := ReplyCsv(d, savedName, question, sql.value, svc);
    assert CsvAnswer(ready, question, svc) == resp;
  }

  /** The second half of AskCsv: the SQL run on the ready database, the
      reply made from its result, and the exchange recorded. */
  method ReplyCsv(d: DataDir, savedName: string, question: string, sql: string, svc: Services) returns (resp: Response)
    requires DbPathFor(savedName) in d.databases
    modifies d
    ensures var res := RunQuery(old(d.databases)[DbPathFor(savedName)], sql, svc.execute);
      resp == Ok(AnsweredCsv(sql, Shown(res), AssistantText(res)))
    ensures d.chatFiles == ChatAfterAsk(old(d.chatFiles), savedName, old(History(d, savedName)), question, resp)
    ensures resp.Ok? && AllFaithful(old(History(d, savedName)) + [Turn("user", question), Turn("assistant", ReplyText(resp.body))]) ==>
      History(d, savedName) == old(History(d, savedName)) + [Turn("user", question), Turn("assistant", ReplyText(resp.body))]
    ensures d.uploadDirExists == old(d.uploadDirExists) && d.uploads == old(d.uploads)
    ensures d.vectorDirs == old(d.vectorDirs) && d.databases == old(d.databases)
  {
    var res := RunQuery(d.databases[DbPathFor(savedName)], sql, svc.execute);
    var assistant := AssistantText(res);
    resp := Ok(AnsweredCsv(sql, Shown(res), assistant));
    assert ReplyText(resp.body) == assistant;
    AppendExchange(d, savedName, question, assistant);
  }

  /** The first half of AskCsv: the database made ready, get_table_info,
      and the model's SQL for the schema. */
  method CsvQuery(d: DataDir, savedName: string, question: string, svc: Services) returns (sql: Result<string>)
    modifies d
    ensures ReadyDb(old(d.databases), d.uploads, savedName, svc).Failure? ==>
      sql == Failure(ReadyDb(old(d.databases), d.uploads, savedName, svc).error)
    ensures ReadyDb(old(d.databases), d.uploads, savedName, svc).Success? ==>
      && sql == SqlFor(ReadyDb(old(d.databases), d.uploads, savedName, svc).value, question, svc.llm)
      && DbPathFor(savedName) in d.databases
      && d.databases[DbPathFor(savedName)] == ReadyDb(old(d.databases), d.uploads, savedName, svc).value
    ensures d.databases == DatabasesAfter(old(d.databases), savedName, ReadyDb(old(d.databases), d.uploads, savedName, svc))
    ensures d.uploadDirExists == old(d.uploadDirExists) && d.uploads == old(d.uploads)
    ensures d.vectorDirs == old(d.vectorDirs) && d.chatFiles == old(d.chatFiles)
  {
    var dbPath := DbPathFor(savedName);
    var err := ReadyDatabase(d, savedName, svc);
    if err.Some? {
      return Failure(err.value);
    }
    assert d.databases[dbPath := DbAt(d.databases, dbPath)] == d.databases;
    var info := GetTableInfo(d, dbPath);
    if info.Failure? {
      return Failure(info.error);
    }
    sql := GenerateSql(question, info.value, svc.llm);
  }

  /** POST /ask for a document collection: builds the vector store when its
      directory is missing, asks the retrieval chain over the collection's
      records, and records the exchange. */
  method AskRag(d: DataDir, savedName: string, question: string, svc: Services) returns (resp: Response)
    modifies d
    ensures resp == RagAnswer(ReadyRecords(old(d.vectorDirs), d.uploads, savedName, svc), question, svc)
    ensures d.vectorDirs == VectorDirsAfter(old(d.vectorDirs), savedName, ReadyRecords(old(d.vectorDirs), d.uploads, savedName, svc))
    ensures d.chatFiles == ChatAfterAsk(old(d.chatFiles), savedName, old(History(d, savedName)), question, resp)
    ensures resp.Ok? && AllFaithful(old(History(d, savedName)) + [Turn("user", question), Turn("assistant", ReplyText(resp.body))]) ==>
      History(d, savedName) == old(History(d, savedName)) + [Turn("user", question), Turn("assistant", ReplyText(resp.body))]
    ensures d.uploadDirExists == old(d.uploadDirExists) && d.uploads == old(d.uploads) && d.databases == old(d.databases)
  {
    var records := ReadyVectorstore(d, savedName, svc);
    if records.Failure? {
      return ServerError(records.error);
    }
    resp := ReplyRag(d, savedName, question, records.value, svc);
  }

  /** The second half of AskRag: the chain asked over the ready records,
      and the exchange recorded when it answers. */
  method ReplyRag(d: DataDir, savedName: string, question: string, records: Records, svc: Services) returns (resp: Response)
    modifies d
    ensures resp == RagAnswer(Success(records), question, svc)
    ensures d.chatFiles == ChatAfterAsk(old(d.chatFiles), savedName, old(History(d, savedName)), question, resp)
    ensures resp.Ok? && AllFaithful(old(History(d, savedName)) + [Turn("user", question), Turn("assistant", ReplyText(resp.body))]) ==>
      History(d, savedName) == old(History(d, savedName)) + [Turn("user", question), Turn("assistant", ReplyText(resp.body))]
    ensures d.uploadDirExists == old(d.uploadDirExists) && d.uploads == old(d.uploads)
    ensures d.vectorDirs == old(d.vectorDirs) && d.databases == old(d.databases)
  {
    var answer := svc.chain(records, question);
    if answer.Failure? {
      return ServerError(answer.error);
    }
    resp := Ok(AnsweredRag(answer.value));
    assert ReplyText(resp.body) == answer.value;
    AppendExchange(d, savedName, question, answer.value);
  }

  /** POST /ask: by the stored name's extension, a CSV question or a
      document question. A 500 leaves the chat as it was; a 200 records
      the question and the reply. */
  method Ask(d: DataDir, savedName: string, question: string, svc: Services) returns (resp: Response)
    modifies d
    ensures ExtOf(savedName) == "csv" ==>
      && resp == CsvAnswer(ReadyDb(old(d.databases), d.uploads, savedName, svc), question, svc)
      && d.databases == DatabasesAfter(old(d.databases), savedName, ReadyDb(old(d.databases), d.uploads, savedName, svc))
      && d.vectorDirs == old(d.vectorDirs)
    ensures ExtOf(savedName) != "csv" ==>
      && resp == RagAnswer(ReadyRecords(old(d.vectorDirs), d.uploads, savedName, svc), question, svc)
      && d.vectorDirs == VectorDirsAfter(old(d.vectorDirs), savedName, ReadyRecords(old(d.vectorDirs), d.uploads, savedName, svc))
      && d.databases == old(d.databases)
    ensures d.chatFiles == ChatAfterAsk(old(d.chatFiles), savedName, old(History(d, savedName)), question, resp)
    ensures resp.Ok? && AllFaithful(old(History(d, savedName)) + [Turn("user", question), Turn("assistant", ReplyText(resp.body))]) ==>
      History(d, savedName) == old(History(d, savedName)) + [Turn("user", question), Turn("assistant", ReplyText(resp.body))]
    ensures d.uploadDirExists == old(d.uploadDirExists) && d.uploads == old(d.uploads)
  {
    if ExtOf(savedName) == "csv" {
      resp := AskCsv(d, savedName, question, svc);
    } else {
      resp := AskRag(d, savedName, question, svc);
    }
  }
}
