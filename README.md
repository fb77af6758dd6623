# AI-Driven File Chatbot: a verified model of its core

The service lets a user upload a file and then chat with it. A CSV file is
loaded into a SQLite table, and questions about it are answered by SQL that a
language model writes. Any other file (PDF, DOCX, text, or a `.url` file
holding a web address) is split into chunks and stored in a Chroma vector
store, and questions about it go to a retrieval chain. Each collection keeps
its chat history as a Markdown file.

This project models the logic the repository owns:

- naming and paths of uploads, vector stores and chat files;
- the chat-history file format and its reader;
- chunk ids and the update/add split of `create_vectorstore`;
- table naming, replace-on-load, the schema text and SQL fence stripping;
- the loader dispatch by extension;
- the HTTP handlers' decisions.

The `data/` tree is the class `Storage.DataDir`. Its maps hold the uploaded
files, the vector-store directories, the SQLite files and the chat files.
Handlers and file operations are methods that update it. Every external
service is a function-valued parameter: pandas, SQLite's query engine, the
document parsers, the text splitter, the embedding model, the language model
and the retrieval chain. The clock is a parameter too (`now`, in whole
seconds).

Modules, in dependency order:

| module | models |
|---|---|
| `Wrappers` | `Option` and `Result` |
| `Text` | Python `str` operations the code relies on: `strip`, `replace`, `in`, `startswith`, `splitlines`, `lower`/`upper`/`capitalize`, `str(n)`, `", ".join`, `sorted` |
| `Paths` | `os.path.join`, `basename`, `splitext`, and `split(".")[-1]` |
| `Storage` | the `data/` tree (`DataDir`) and the record, table and frame types |
| `ChatLog` | the chat-history format: writer, reader and the exact round-trip condition |
| `Utils` | `Backend/utiils.py` |
| `Rag` | the id bookkeeping of `Backend/RAG_end.py` |
| `Sql` | `Backend/SQL_end.py` |
| `Loaders` | `Backend/loaders.py` |
| `Api` | the handlers of `API_main.py` |

Several properties are proved about the code as written. Some are not what
the docstrings or the comments suggest:

- `clean_filename` does not lower-case (`Utils.CleanFilenameFixed`).
- A name clash is resolved with a `_{seconds}` suffix, not `_1`. Two clashing
  uploads within the same second get the same name, so the second overwrites
  the first (`Utils.SavedNameBySecond`).
- `create_vectorstore` overwrites chunks that already exist rather than
  skipping them (`Rag.UpsertedWritesChunk`). It never removes chunks beyond
  the new count (`Rag.UpsertedKeepsOthers`).
- `/activate` reports the file stem as the table name. The table
  `load_csv_to_sql` creates has `_` where the stem has `-` or a space
  (`Api.ReportedTableNameAgrees`).
- The chat log reads back what was written if and only if every turn meets
  the `ChatLog.Faithful` conditions (`ChatLog.RoundTrip`).

## Model

| member | source | states |
|---|---|---|
| Utils.CleanFilename | Backend/utiils.py:14-18 | the result is the stripped base with each space turned into `_`, followed by the unchanged extension |
| Utils.CleanFilenameFixed | Backend/utiils.py:14-18 | a name whose base is stripped and has no space is returned unchanged, so no letter is lower-cased |
| Utils.CleanFilenameNoSpace | Backend/utiils.py:17 | no space is left before the extension |
| Utils.UploadPathExists | Backend/utiils.py:27-29 | a stored name exists, and nothing exists when the upload directory is missing |
| Utils.SavedName | Backend/utiils.py:26-31 | the name stored under: the clean name, or base + `_` + the time in whole seconds + extension when the clean name exists (its properties are Utils.SavedNameShape and Utils.SavedNameBySecond) |
| Utils.SavedNameShape | Backend/utiils.py:26-31 | without a clash the clean name is kept; with one, the name is base + `_` + decimal seconds + extension and differs from the clean name |
| Utils.SavedNameBySecond | Backend/utiils.py:29-31 | when the clean name clashes, uploads at times t1 and t2 get the same stored name if and only if t1 == t2 |
| Utils.CollectionPath | Backend/utiils.py:46-47 | a relative name is placed in `data/uploaded_files/` |
| Utils.VectorstoreDirFor | Backend/utiils.py:50-53 | the directory is `data/vectorstores/` + the name less its last extension |
| Utils.VectorstoreDirShared | Backend/utiils.py:50-53 | two names with one stem and different extensions share one vector-store directory |
| Utils.ChatFileFor | Backend/utiils.py:56-58 | the chat file lies directly in `data/chat_history/`, ends in `.md`, and has the name's length |
| Utils.ChatFileChars | Backend/utiils.py:57-58 | between the root and `.md` stands the name with each `/` turned into `_` |
| Utils.ChatFileShared | Backend/utiils.py:56-58 | names that differ only by `/` versus `_` share one chat file |
| Utils.SaveFileBytes | Backend/utiils.py:21-37 | the content is stored under the saved name, and that name is returned; the model reports a failed write when the directory is missing or the name has `/` (see "## Left out" for names the code writes elsewhere) |
| Utils.ListCollections | Backend/utiils.py:39-43 | the stored names, each once, in ascending order; `[]` when the upload directory is missing |
| Utils.History | Backend/utiils.py:68-81 | a missing chat file reads as `[]`; every turn read has role `user` or `assistant` and a stripped, one-line text |
| Utils.HistoryIn | Backend/utiils.py:68-81 | the same reading over a given set of chat files: `[]` for a missing file; every turn read is canonical |
| Utils.SaveChatHistory | Backend/utiils.py:61-65 | the chat file becomes the rendered turns; reading it back gives the turns, roles lower-cased, if and only if all are Faithful; an empty list reads back as `[]` |
| Utils.RenderTurns | Backend/utiils.py:63-64 | the text written is one "**Role:** text" block per turn, in the list's order (Render of the list) |
| Utils.LoadChatHistory | Backend/utiils.py:68-81 | the loop over the lines yields exactly `History` |
| Utils.AppendToChat | Backend/utiils.py:84-87 | the file is rewritten with the old history plus the turn; when all are Faithful, the new history is the old one plus that turn |
| Utils.DeleteCollection | Backend/utiils.py:90-107 | removes whichever of the upload, the vector-store directory and the chat file exist; stops at the first failing removal, keeps earlier removals, and returns False then, True otherwise; the CSV database stays |
| ChatLog.Line | Backend/utiils.py:65 | the line of a turn: `**`, the capitalised role, `:** `, then the text (its shape for a known role is ChatLog.LineShape) |
| ChatLog.Block | Backend/utiils.py:65 | the line of a turn followed by a blank line |
| ChatLog.Render | Backend/utiils.py:64-65 | the written file is empty or ends with a line break |
| ChatLog.ParseLine | Backend/utiils.py:76-80 | a line yields a turn if and only if it contains one of the two markers; the turn is canonical |
| ChatLog.MarkerRemoved | Backend/utiils.py:78-80 | removing a marker and stripping leaves a stripped text without line breaks |
| ChatLog.ParseLines | Backend/utiils.py:76-81 | every turn read is canonical |
| ChatLog.Parse | Backend/utiils.py:73-81 | every turn read from a file is canonical |
| ChatLog.Normalized | Backend/utiils.py:77-80 | the reader's view of a history: the same turns with roles lower-cased |
| ChatLog.LineRoundTrip | Backend/utiils.py:76-80 | a line written for a known role is read back as a turn, and as the same turn exactly when its text survives |
| ChatLog.UserLine | Backend/utiils.py:77-78 | a user line is read as a user turn whose text has every `**User:**` removed and is stripped |
| ChatLog.AssistantLine | Backend/utiils.py:77-80 | an assistant line is read as a user turn exactly when its text contains `**User:**`, since that marker is tested first |
| ChatLog.LineShape | Backend/utiils.py:65 | a known role's line is its marker, a space and the text |
| ChatLog.TextBack | Backend/utiils.py:78-80 | the text after the marker is read back unchanged if and only if it is stripped and has no marker |
| ChatLog.MarkersApart | Backend/utiils.py:77-80 | the assistant marker does not contain the user marker |
| ChatLog.ParseRender | Backend/utiils.py:61-81 | reading a rendered history parses each written line in turn |
| ChatLog.ReparsedAt | Backend/utiils.py:61-81 | every written turn is read back as one turn at the same position |
| ChatLog.RoundTrip | Backend/utiils.py:61-81 | load(save(turns)) is the turns with roles lower-cased if and only if every turn is Faithful |
| ChatLog.AppendRoundTrip | Backend/utiils.py:84-87 | a read history plus one Faithful turn reads back as that history plus the turn |
| ChatLog.NormalizedSnoc | Backend/utiils.py:84-87 | normalising a read history plus a turn changes only the new turn's role |
| ChatLog.CanonicalRole | Backend/utiils.py:78-80 | roles the reader produces are already lower-case |
| Rag.ChunkIds | Backend/RAG_end.py:37 | the ids are `{collection}_1` … `{collection}_n`, one per chunk |
| Rag.ChunkIdInjective | Backend/RAG_end.py:37 | different positions get different ids |
| Rag.ChunkIdsDistinct | Backend/RAG_end.py:37 | the generated ids are pairwise distinct |
| Rag.ChunkIdBeyond | Backend/RAG_end.py:37 | the id of a position beyond n is not among the first n ids |
| Rag.IndexOf | Backend/RAG_end.py:48 | `ids.index(id)` is the first position holding id |
| Rag.IndexOfDistinct | Backend/RAG_end.py:56 | among distinct ids the i-th id is found at i, so each id gets its own chunk's text |
| Rag.Select | Backend/RAG_end.py:42-43 | an id is selected if and only if it is generated and its presence in the store is the one asked for |
| Rag.SelectPartition | Backend/RAG_end.py:42-43 | `update_ids` and `add_ids` together have as many entries as `ids` |
| Rag.SelectOrdered | Backend/RAG_end.py:42-43 | both lists keep the order of `ids` |
| Rag.Upserted | Backend/RAG_end.py:45-58 | the collection after the call: every generated id holds its chunk and embedding, every other key keeps its record (proved in Rag.UpsertedKeys, Rag.UpsertedWritesChunk, Rag.UpsertedKeepsOthers) |
| Rag.UpsertedKeys | Backend/RAG_end.py:45-58 | after the call the keys are the old keys plus the generated ids |
| Rag.WrittenAt | Backend/RAG_end.py:45-58 | a batch write gives each of its ids its chunk and leaves other keys alone |
| Rag.UpdateThenAdd | Backend/RAG_end.py:45-58 | update of `update_ids` then add of `add_ids` gives the upserted collection |
| Rag.UpsertedWritesChunk | Backend/RAG_end.py:45-58 | after the call, id i maps to text i and its embedding; an existing id is overwritten |
| Rag.UpsertedKeepsOthers | Backend/RAG_end.py:37-58 | a stale chunk beyond the new count stays as it was |
| Rag.UpsertedGrowth | Backend/RAG_end.py:53-58 | the collection grows by exactly the number of `add_ids` |
| Rag.RerunAddsNothing | Backend/RAG_end.py:39-58 | a second run with the same chunk count adds no id and no key |
| Rag.LoadVectorstoreIfExists | Backend/RAG_end.py:67-74 | the result is None if and only if the persist directory does not exist; otherwise it is the collection's records |
| Rag.WriteChunks | Backend/RAG_end.py:45-58 | the loop writes exactly the batch's records |
| Rag.UpsertChunks | Backend/RAG_end.py:39-58 | it returns `update_ids` and `add_ids` as selected, and the collection becomes the upserted one |
| Rag.CreateVectorstore | Backend/RAG_end.py:19-64 | it creates the directory and collection when missing, then upserts the chunk records; afterwards loading the store gives that collection, and nothing else changes |
| Sql.DefaultTableName | Backend/SQL_end.py:18-20 | the table name of a CSV: the file stem with `-` and then space replaced by `_` (character by character in Sql.DefaultTableNameChars) |
| Sql.DefaultTableNameChars | Backend/SQL_end.py:18-20 | the default table name is the file stem with each `-` and each space turned into `_`, so it has neither |
| Sql.TableNameFor | Backend/SQL_end.py:18-20 | an explicit name is used verbatim; a default name has no `-` and no space |
| Sql.Lookup | Backend/SQL_end.py:23 | a table of that name is found exactly when the database has one |
| Sql.Without | Backend/SQL_end.py:23 | the tables that remain are exactly those of other names |
| Sql.ReplacedTable | Backend/SQL_end.py:23 | after the replace the table holds exactly the CSV frame, other tables are unchanged, and their order is kept |
| Sql.LoadCsvToSql | Backend/SQL_end.py:12-25 | it returns `(db_path, table_name)` and replaces that table; a CSV failure is returned and changes nothing; a `db_path` with no directory part fails at `os.makedirs` |
| Sql.TableEntry | Backend/SQL_end.py:39 | each table's entry starts with `\nTable: {name}\n` |
| Sql.Schema | Backend/SQL_end.py:33-40 | the text get_table_info gives for plain, distinct table names (TableInfoPlain); it is empty if and only if the database has no tables |
| Sql.SchemaConcat | Backend/SQL_end.py:34-39 | the text of two table lists is the concatenation of their texts |
| Sql.SchemaMentions | Backend/SQL_end.py:34-39 | every table is named in the schema, and a freshly loaded table's entry comes last |
| Sql.SchemaReplaced | Backend/SQL_end.py:23-39 | after a replace, the schema lists the other tables in order, then the loaded table last |
| Sql.ColumnsInEntry | Backend/SQL_end.py:36-39 | a table's entry names each of its columns |
| Sql.ColumnsInSchema | Backend/SQL_end.py:33-41 | every column of every table of the database appears in the schema text |
| Sql.GetTableInfo | Backend/SQL_end.py:28-41 | the loop yields TableInfo of the database: it runs the PRAGMA per table in catalogue order and raises at the first malformed one; connecting creates an empty database when none exists |
| Sql.UnquotedPlain | Backend/SQL_end.py:36 | a table name without `"` is read by SQLite as itself inside the quotes |
| Sql.UnquotedLoneQuote | Backend/SQL_end.py:36 | a name with a lone `"`, such as `a"b`, makes the PRAGMA statement malformed |
| Sql.QuotedRoundTrip | Backend/SQL_end.py:23-36 | the name pandas quotes (each `"` doubled) reads back as itself, and every name SQLite accepts inside the quotes is the quoted form of what it reads |
| Sql.PragmaColumns | Backend/SQL_end.py:36-38 | the PRAGMA raises exactly when the name has a lone `"`, with the syntax error; a plain name lists its own table's columns, none for a missing table |
| Sql.TableInfoFails | Backend/SQL_end.py:34-38 | get_table_info raises exactly when some table name has a lone `"` |
| Sql.TableInfoPlain | Backend/SQL_end.py:33-41 | for distinct table names without `"`, get_table_info gives Schema: each table with its own columns, in catalogue order |
| Sql.LookupDistinct | Backend/SQL_end.py:36-38 | in a database with distinct names, a table's name finds that table |
| Sql.ReplacedNames | Backend/SQL_end.py:23 | a replace keeps table names distinct, and plain when the new name is |
| Api.CsvUploaded | API_main.py:58-61 | a 200 exactly when get_table_info succeeds, with the names, database path, default table name and schema; its error otherwise |
| Sql.StripFences | Backend/SQL_end.py:56 | the cleaned reply: strip, drop every "```sql", then every "```", strip again (its guarantees are Sql.FencesGone and Sql.CleanReplyKept) |
| Sql.FencesGone | Backend/SQL_end.py:56 | no ```` ``` ```` is left in the cleaned SQL, and it is stripped |
| Sql.CleanReplyKept | Backend/SQL_end.py:56 | a stripped reply without a fence is used as it is |
| Sql.GenerateSql | Backend/SQL_end.py:44-57 | a model failure propagates; otherwise the SQL is stripped and fence-free |
| Sql.RunQuery | Backend/SQL_end.py:60-68 | a query failure becomes its message and is not raised; otherwise the result frame is returned |
| Loaders.LoaderFor | Backend/loaders.py:39-50 | pdf, docx and url select their loaders, case-insensitively; everything else, `txt` and `text` included, selects the text loader |
| Loaders.LoaderForIgnoresCase | Backend/loaders.py:40 | upper-casing the extension does not change the choice |
| Loaders.UrlIn | Backend/loaders.py:29-32 | the URL is the stripped file text, accepted if and only if it starts with `http://` or `https://`; otherwise "Invalid URL format" |
| Loaders.LoadUrlFile | Backend/loaders.py:24-36 | it succeeds exactly when the file reads, the URL is valid and the fetch succeeds; every failure is prefixed "URL Loader Error: " |
| Loaders.LoadDocsByExt | Backend/loaders.py:39-50 | the result is the loader chosen by the lower-cased extension, with the text loader as the fallback |
| Loaders.LoadDocsIgnoresCase | Backend/loaders.py:40 | an upper-case extension loads like its lower-case form |
| Api.ExtOf | API_main.py:84 | the mode extension has no `.` and no upper-case letter; a name without `.` gives the whole name lower-cased |
| Api.DbPathFor | API_main.py:55-57 | the database file is `data/csv_dbs/{saved_name}.db`, extension kept |
| Api.CsvAt | API_main.py:133 | `pd.read_csv` of the stored file; a missing file is a "No such file" error |
| Api.ChunksOf | API_main.py:156-157 | the stored file loaded by its extension and split; the loader's error otherwise |
| Api.ReportedTableNameAgrees | API_main.py:93 | the table name reported by activate equals the created table's name if and only if the stem has no `-` and no space |
| Api.FirstCell | API_main.py:144 | the first cell of the first row |
| Api.AssistantText | API_main.py:138-147 | the reply for a query result (its cases are proved in Api.AssistantTextKinds) |
| Api.AssistantTextKinds | API_main.py:138-147 | the reply starts with "❌ SQL Error: " if and only if the query failed, followed by the error; one cell gives "The answer is **val**."; otherwise "Returned N rows." |
| Api.Shown | API_main.py:149 | the result holds at most the first 10 rows, in order, and none on an error |
| Api.ExchangedChat | API_main.py:161-162 | the chat files after the two appends: the history plus the question is written, read back, and rewritten with the reply added |
| Api.ExchangedChatReadsBack | API_main.py:161-162 | when the read history and both turns are Faithful, the chat reads back as the history plus exactly the two turns |
| Api.ExchangeHistory | API_main.py:161-162 | two Faithful appends add exactly the two turns |
| Api.AppendExchange | API_main.py:161-162 | the chat files become exactly ExchangedChat of the old files and history; when Faithful, the history grows by the two turns; nothing else changes |
| Api.ReadyDb | API_main.py:89-92 | the database used: the existing file's tables, or the CSV loaded as one table under its default name, or the CSV error |
| Api.DatabasesAfter | API_main.py:89-92 | the databases afterwards: a loaded database is added, everything else is kept |
| Api.ReadyDbLoaded | API_main.py:90-92 | a database loaded because it was missing holds the CSV frame under the default name and no other table, and its schema is that table's entry; get_table_info on it raises exactly when that name has a lone `"`; loading fails exactly when the CSV cannot be read |
| Api.ReadyDbStable | API_main.py:90-91 | making a ready collection ready again loads nothing and gives the same tables |
| Api.ReadyRecords | API_main.py:96-99 | the records used: the existing store's collection, or the file's chunks indexed into a new store, or the loader's error |
| Api.VectorDirsAfter | API_main.py:96-99 | the stores afterwards: only a missing store is created, holding the default collection alone; other stores are kept |
| Api.ReadyRecordsBuilt | API_main.py:97-99 | a store built because it was missing holds exactly the chunk ids, the i-th chunk with its embedding under id i + 1; it fails exactly when loading fails |
| Api.ReadyRecordsStable | API_main.py:97 | making a ready collection ready again builds nothing and gives the same records |
| Api.ReadyDatabase | API_main.py:89-91 | succeeds exactly when ReadyDb does, with its error otherwise; the databases become DatabasesAfter; nothing else changes |
| Api.ReadyVectorstore | API_main.py:152-157 | the result is ReadyRecords; the stores become VectorDirsAfter, so no other store changes; loading the store afterwards gives the result |
| Api.BuildVectorstore | API_main.py:156-157 | a store created in a missing directory holds the default collection alone, with exactly the upserted chunks |
| Api.CsvAnswer | API_main.py:132-149 | a 200 exactly when the database is ready, get_table_info succeeds and the model gives SQL; each failure is a 500 with its error; a failing query is still a 200 with no rows and the error in the reply; otherwise the first at most 10 rows |
| Api.RagAnswer | API_main.py:152-163 | a 200 exactly when the records are ready and the chain answers, with that answer; the first error otherwise |
| Api.ReplyText | API_main.py:139-162 | the text recorded as the assistant's turn of an answer |
| Api.ChatAfterAsk | API_main.py:137-162 | a 200 records the exchange; a 500 leaves the chat files as they were |
| Api.CsvLoaded | API_main.py:57-58 | the databases after upload's load: the collection's table in its database replaced by the frame |
| Api.CsvLoadedTables | API_main.py:57-59 | the loaded table holds the frame, the database's other tables and every other database are kept, and the schema lists the kept tables then the loaded one; get_table_info gives that schema for distinct plain names and raises when the loaded name has a lone `"` |
| Api.ChunksIndexed | API_main.py:63-65 | the stores after upload's indexing: the chunks upserted into the default collection of the collection's store |
| Api.ChunksIndexedRecords | API_main.py:63-65 | the collection keeps its records and gains the chunk ids, the i-th chunk with its embedding; the store's other collections are kept |
| Api.Upload | API_main.py:42-69 | a 200 exactly when the file is stored and then either the CSV parses and get_table_info succeeds on the loaded database, or the file loads; the stored file stays after a later 500; a CSV replaces its table (CsvLoaded), which stays even when get_table_info then raises; other files are indexed (ChunksIndexed); each failure is a 500 with its error |
| Api.UploadCsv | API_main.py:54-61 | a CSV error is a 500 that changes nothing; otherwise the databases become CsvLoaded, and the response is CsvUploaded of get_table_info on that database: its schema with the default table name, or its error as a 500 |
| Api.UploadRag | API_main.py:62-67 | a loading error is a 500 that changes nothing; otherwise the stores become ChunksIndexed and the store's directory is reported |
| Api.ListCollectionsHandler | API_main.py:72-78 | the listing does not fail; it gives each stored name once, in ascending order, and nothing when the upload directory is missing |
| Api.Activate | API_main.py:81-102 | by extension: the response is CsvActivated of ReadyDb, which includes get_table_info's failure, with the databases becoming DatabasesAfter, or RagActivated of ReadyRecords with the stores becoming VectorDirsAfter; the other kind of store is untouched |
| Api.CsvActivated | API_main.py:86-93 | a 200 exactly when the database is ready and get_table_info succeeds on it, reporting its path, the schema and the file stem; the load error or get_table_info's error otherwise |
| Api.RagActivated | API_main.py:94-100 | a 200 exactly when the records are ready, reporting the store's directory; the load error otherwise |
| Api.ActivateCsv | API_main.py:86-93 | the response is CsvActivated of ReadyDb, so a table name with a lone `"` gives a 500; the databases become DatabasesAfter; nothing else changes |
| Api.ActivateRag | API_main.py:94-100 | the response is RagActivated of ReadyRecords; the stores become VectorDirsAfter; nothing else changes |
| Api.DeleteHandler | API_main.py:105-111 | `deleted` is true exactly when every removal succeeded; the upload, the vector store and the chat file of that collection are removed up to the failing step, every other upload, store, chat file and database stays, and the upload directory is untouched |
| Api.ClearChat | API_main.py:114-120 | the chat file is emptied, and the history reads back as `[]` |
| Api.GetChat | API_main.py:168-174 | the response is the history as it reads back |
| Api.AskCsv | API_main.py:129-149 | the response is CsvAnswer of ReadyDb, so get_table_info's failure is a 500; the databases become DatabasesAfter; the chat files become ChatAfterAsk, so nothing is recorded on a 500; when Faithful the history grows by the two turns |
| Api.CsvQuery | API_main.py:132-135 | the load error when the database cannot be made ready; otherwise get_table_info's error, or the model's SQL for its schema, with that database in place |
| Api.ReplyCsv | API_main.py:136-149 | the SQL is run on the ready database and answered with its first rows and reply text; the exchange is recorded |
| Api.AskRag | API_main.py:151-163 | the response is RagAnswer of ReadyRecords; the stores become VectorDirsAfter; the chat files become ChatAfterAsk; when Faithful the history grows by the two turns |
| Api.ReplyRag | API_main.py:158-163 | the response is RagAnswer over the ready records; a 200 records the exchange, a 500 leaves the chat files alone |
| Api.Ask | API_main.py:123-165 | by extension: CsvAnswer (including get_table_info's failure) with DatabasesAfter and the stores untouched, or RagAnswer with VectorDirsAfter and the databases untouched; the chat files become ChatAfterAsk, so a 500 leaves the chat alone |

## Left out

- Utils.SaveChatHistory: the file is written as one whole; a crash part-way through the writes, which would leave a truncated file, is not modelled.
- The PDF, DOCX and web loaders, the text splitter, the embedding model, the language model, the retrieval chain, pandas' CSV reader and SQLite's query engine are parameters. Their behaviour is not modelled.
- The prompt wording of `generate_sql` and of Backend/Prompt_template.py is not modelled. The model is given the question and the schema.
- Real file-system I/O, encodings and permissions are not modelled. Files are map entries, and directories exist implicitly when an entry is under them.
- `os.makedirs` of `data/csv_dbs` and of a persist directory is not modelled separately.
- Paths are strings compared as strings. Aliasing through `..`, `.` or repeated `/` in a saved name is not modelled.
- Utils.SaveFileBytes: a saved name containing `/` is reported as a failed write. In the code, `os.path.join` gives an absolute name such as `/tmp/x.pdf` unchanged, and a name with `../` climbs out of the upload directory, so the code writes that file outside the upload directory and returns the name. Files outside the upload directory are not modelled.
- Utils.UploadPathExists: only the names `""`, `.` and `..` are treated as directories. Other sub-directories of the upload directory are not modelled.
- Text.Lower, Text.Upper and Text.Capitalize: only ASCII letters change case, because Python's full Unicode case mapping is not modelled. Every comparison the code makes is against ASCII words.
- Sql.PragmaColumns: a name whose lone `"` closes the identifier and whose rest then reads as valid SQL, such as `a")--`, makes SQLite run the statement on another table. The model reports a syntax error for it. The exact text of SQLite's syntax errors is not modelled either: the model's message names the statement.
- Sql.LoadCsvToSql: SQLite's case-insensitive table names are not modelled. Tables named `Data` and `data` are treated as distinct.
- Sql.RunQuery: statements that change the database are not modelled, so a query reads the database only. The empty file that `sqlite3.connect` creates for a missing path is not recorded, because every caller has created the database already.
- Rag.CreateVectorstore: the splitter, the Chroma client and the embedding model are total here. In the code, `os.makedirs` creates the persist directory first, so a failure of any of them leaves an empty directory behind. Activate and ask then take that store as built and never rebuild it. That outcome is not modelled.
- Sql.LoadCsvToSql: `df.to_sql` is total here. In the code, `sqlite3.connect` creates the database file first, so a failing `to_sql` leaves an empty database behind. Activate and ask then take it as loaded and never reload it. That outcome is not modelled.
- Rag.LoadVectorstoreIfExists: the empty default collection that Chroma creates inside an existing directory is not recorded.
- Api.AskRag: when the chain returns a non-dict, the code takes `str(resp)`, or `None` when there is no "answer" key. This is not modelled: the chain returns the answer text or fails.
- Api.FirstCell: the printed form of `res.iloc[0, 0]` is the cell's string. A row shorter than the column list reads as `""`.
- Api.Shown: rows stand for `to_dict(orient="records")`. The JSON encoding of responses is not modelled.
- Api.Upload, Api.Activate, Api.AskCsv and Api.AskRag: a failure is the message of the external service's exception. `str(e)`'s exact form for foreign exceptions is not modelled.
- Utils.DeleteCollection: which removal raises is a parameter (`Fault`), because permission and busy-file errors come from the operating system.
- The root endpoint `GET /`, the CORS set-up and the FastAPI wiring have no logic to model.
- The Streamlit front end is not part of this model.
- Concurrent requests are not modelled. Two requests can interleave the read-modify-write of `append_to_chat` and lose a turn, and nothing in the code prevents it. The model is sequential.
