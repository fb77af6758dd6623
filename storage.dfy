/** What the service keeps on disk under data/: uploaded files, Chroma
    persist directories, one SQLite database file per CSV collection and one
    chat-history file per collection. Each kind is a map from the path the
    code computes to the content stored there. */
module Storage {

  type Bytes = seq<bv8>

  /** An embedding vector, as computed by the external embedding model. */
  type Embedding = seq<real>

  /** One Chroma record: the chunk text and its embedding. */
  datatype Chunk = Chunk(document: string, embedding: Embedding)

  /** One Chroma collection: record id -> record. */
  type Records = map<string, Chunk>

  /** One persist directory: collection name -> collection. */
  type Collections = map<string, Records>

  /** A row of a table or query result; each cell is the value's printed form. */
  type Row = seq<string>

  /** A pandas DataFrame: column names and rows. */
  datatype Frame = Frame(columns: seq<string>, rows: seq<Row>)

  /** One SQLite table. */
  datatype Table = Table(name: string, frame: Frame)

  /** A SQLite database file: its tables in catalogue (sqlite_master) order. */
  type Database = seq<Table>

  /** The text of the FileNotFoundError raised for a path that does not exist. */
  function NoSuchFile(path: string): string {
    "[Errno 2] No such file or directory: '" + path + "'"
  }

  /** The data/ directory tree. */
  class DataDir {
    /** Whether data/uploaded_files exists (it is created at start-up). */
    var uploadDirExists: bool
    /** Files in data/uploaded_files, by file name. */
    var uploads: map<string, Bytes>
    /** Chroma persist directories, by directory path. */
    var vectorDirs: map<string, Collections>
    /** SQLite database files, by file path. */
    var databases: map<string, Database>
    /** Chat-history files, by file path. */
    var chatFiles: map<string, string>

    /** No file can be in an upload directory that does not exist. */
    ghost predicate Valid()
      reads this
    {
      uploadDirExists || uploads == map[]
    }

    /** The tree as it is right after start-up: the three directories of
        utiils.py exist and are empty. */
    constructor ()
      ensures Valid() && uploadDirExists
      ensures uploads == map[] && vectorDirs == map[] && databases == map[] && chatFiles == map[]
    {
      uploadDirExists := true;
      uploads := map[];
      vectorDirs := map[];
      databases := map[];
      chatFiles := map[];
    }
  }
}
