/** The file bookkeeping of the service: how an uploaded file name is cleaned
    and made unique, where a collection's vector store and chat history live,
    reading and writing the chat history, and deleting a collection. */
module Utils {
  import opened Wrappers
  import opened Text
  import opened Paths
  import opened Storage
  import opened ChatLog

  const UploadDir: string := "data/uploaded_files"
  const VectorsRoot: string := "data/vectorstores"
  const ChatRoot: string := "data/chat_history"

  // ---------------------------------------------------------------------
  // Names and paths
  // ---------------------------------------------------------------------

  /** clean_filename: the base (everything before the extension) stripped
      and with every space turned into "_", followed by the extension as it
      was. Letters keep their case. */
  function CleanFilename(filename: string): (r: string)
    ensures var base, ext := Strip(SplitExt(filename).0), SplitExt(filename).1;
      && |r| == |base| + |ext|
      && r[|base|..] == ext
      && forall i :: 0 <= i < |base| ==> r[i] == (if base[i] == ' ' then '_' else base[i])
  {
    var (base, ext) := SplitExt(filename);
    ReplaceCharAt(Strip(base), ' ', '_');
    ReplaceAll(Strip(base), " ", "_") + ext
  }

  /** A name whose base is already stripped and has no space is its own
      clean name; in particular nothing is lower-cased. */
  lemma CleanFilenameFixed(filename: string)
    requires Stripped(SplitExt(filename).0) && ' ' !in SplitExt(filename).0
    ensures CleanFilename(filename) == filename
  {
    var (base, ext) := SplitExt(filename);
    var r := CleanFilename(filename);
    assert r[..|base|] == base;
    assert r == r[..|base|] + r[|base|..];
  }

  /** A clean name has no space before its extension. */
  lemma CleanFilenameNoSpace(filename: string)
    ensures ' ' !in CleanFilename(filename)[..|Strip(SplitExt(filename).0)|]
  {
    var base := Strip(SplitExt(filename).0);
    var r := CleanFilename(filename);
    forall i | 0 <= i < |base| ensures r[..|base|][i] != ' ' {
      assert r[..|base|][i] == r[i];
    }
  }

  /** Names that denote the upload directory itself or its parent rather
      than a file in it. */
  predicate IsDirName(name: string) {
    name == "" || name == "." || name == ".."
  }

  /** os.path.exists(collection_path(name)) for a name without "/". */
  function UploadPathExists(uploadDirExists: bool, uploads: map<string, Bytes>, name: string): (r: bool)
    ensures name in uploads && uploadDirExists ==> r
    ensures !uploadDirExists && uploads == map[] ==> !r
  {
    if IsDirName(name) then uploadDirExists else uploadDirExists && name in uploads
  }

  /** The name save_file_bytes stores under: the clean name, or, when a file
      of that name exists already, its base, "_", the current time in whole
      seconds and its extension. The suffixed name is not checked again. */
  function SavedName(uploadDirExists: bool, uploads: map<string, Bytes>, filename: string, now: nat): string {
    var safe := CleanFilename(filename);
    if UploadPathExists(uploadDirExists, uploads, safe) then
      SplitExt(safe).0 + "_" + NatToString(now) + SplitExt(safe).1
    else safe
  }

  /** Without a clash the clean name is kept; with one, the stored name
      differs from the clean name and is the clean base, "_", the decimal
      time and the clean extension. */
  lemma SavedNameShape(uploadDirExists: bool, uploads: map<string, Bytes>, filename: string, now: nat)
    ensures var safe := CleanFilename(filename);
      var r := SavedName(uploadDirExists, uploads, filename, now);
      && (!UploadPathExists(uploadDirExists, uploads, safe) ==> r == safe)
      && (UploadPathExists(uploadDirExists, uploads, safe) ==>
            r != safe && r == SplitExt(safe).0 + "_" + NatToString(now) + SplitExt(safe).1)
  {
    var safe := CleanFilename(filename);
    assert SplitExt(safe).0 + SplitExt(safe).1 == safe;
  }

  /** Uploading a clashing name at two different seconds gives two
      different stored names; within the same second both uploads get the
      same name and the second overwrites the first. */
  lemma {:induction false} SavedNameBySecond(uploadDirExists: bool, uploads: map<string, Bytes>, filename: string, t1: nat, t2: nat)
    requires UploadPathExists(uploadDirExists, uploads, CleanFilename(filename))
    ensures SavedName(uploadDirExists, uploads, filename, t1) == SavedName(uploadDirExists, uploads, filename, t2) <==> t1 == t2
  {
    var safe := CleanFilename(filename);
    var base, ext := SplitExt(safe).0, SplitExt(safe).1;
    var d1, d2 := NatToString(t1), NatToString(t2);
    var r1, r2 := base + "_" + d1 + ext, base + "_" + d2 + ext;
    if r1 == r2 {
      assert |d1| == |d2|;
      assert r1[|base| + 1..|base| + 1 + |d1|] == d1;
      assert r2[|base| + 1..|base| + 1 + |d2|] == d2;
      NatToStringInjective(t1, t2);
    }
  }

  /** collection_path */
  function CollectionPath(savedName: string): (r: string)
    ensures !StartsWith(savedName, "/") ==> r == UploadDir + "/" + savedName
  {
    Join(UploadDir, savedName)
  }

  /** vectorstore_dir_for: the vector-store root joined with the saved name
      less its last extension. */
  function VectorstoreDirFor(savedName: string): (r: string)
    ensures !StartsWith(savedName, "/") ==> r + SplitExt(savedName).1 == VectorsRoot + "/" + savedName
  {
    Join(VectorsRoot, SplitExt(savedName).0)
  }

  /** Two saved names with the same stem and different extensions share one
      vector-store directory. */
  lemma VectorstoreDirShared(stem: string, ext1: string, ext2: string)
    requires |stem| > 0 && stem[0] != '.' && '/' !in stem
    requires |ext1| > 0 && ext1[0] == '.' && '.' !in ext1[1..] && '/' !in ext1
    requires |ext2| > 0 && ext2[0] == '.' && '.' !in ext2[1..] && '/' !in ext2
    ensures VectorstoreDirFor(stem + ext1) == VectorstoreDirFor(stem + ext2)
  {
    SplitExtOf(stem, ext1);
    SplitExtOf(stem, ext2);
  }

  /** chat_file_for: CHAT_ROOT, "/", the saved name with every "/" turned
      into "_", and ".md"; the file is always directly inside CHAT_ROOT. */
  function ChatFileFor(savedName: string): (r: string)
    ensures |r| == |ChatRoot| + 1 + |savedName| + 3
    ensures r[..|ChatRoot| + 1] == ChatRoot + "/" && r[|r| - 3..] == ".md"
  {
    ReplaceCharAt(savedName, '/', '_');
    var safe := ReplaceAll(savedName, "/", "_");
    assert !StartsWith(safe + ".md", "/") by {
      assert |safe| == 0 || safe[0] != '/';
      assert (safe + ".md")[0] != '/';
    }
    Join(ChatRoot, safe + ".md")
  }

  /** Between CHAT_ROOT + "/" and ".md" stands the saved name with every
      "/" turned into "_". */
  lemma ChatFileChars(savedName: string)
    ensures forall i :: 0 <= i < |savedName| ==>
      ChatFileFor(savedName)[|ChatRoot| + 1 + i] == (if savedName[i] == '/' then '_' else savedName[i])
  {
    ReplaceCharAt(savedName, '/', '_');
    var safe := ReplaceAll(savedName, "/", "_");
    assert (safe + ".md")[0] != '/' by {
      assert |safe| == 0 || safe[0] != '/';
    }
    assert ChatFileFor(savedName) == ChatRoot + "/" + (safe + ".md");
  }

  /** Two saved names that differ only where one has "/" and the other "_"
      share one chat file, so their histories are one. */
  lemma ChatFileShared(a: string, b: string)
    requires |a| == |b|
    requires forall i :: 0 <= i < |a| ==> a[i] == b[i] || (a[i] in "/_" && b[i] in "/_")
    ensures ChatFileFor(a) == ChatFileFor(b)
  {
    var ra, rb := ChatFileFor(a), ChatFileFor(b);
    var n := |ChatRoot| + 1;
    ChatFileChars(a);
    ChatFileChars(b);
    forall k | 0 <= k < |ra| ensures ra[k] == rb[k] {
      if k < n {
        assert ra[k] == ra[..n][k];
        assert rb[k] == rb[..n][k];
      } else if k < n + |a| {
        var i := k - n;
        assert ra[n + i] == (if a[i] == '/' then '_' else a[i]);
        assert rb[n + i] == (if b[i] == '/' then '_' else b[i]);
        assert a[i] == b[i] || ((a[i] == '/' || a[i] == '_') && (b[i] == '/' || b[i] == '_'));
      } else {
        assert ra[k] == ra[|ra| - 3..][k - (|ra| - 3)];
        assert rb[k] == rb[|rb| - 3..][k - (|rb| - 3)];
      }
    }
  }

  // ---------------------------------------------------------------------
  // Uploads
  // ---------------------------------------------------------------------

  /** save_file_bytes: writes the content under SavedName and returns that
      name. Writing fails when the upload directory is missing or the name
      has a "/" (a sub-directory of the upload directory that does not
      exist). */
  method SaveFileBytes(d: DataDir, filename: string, content: Bytes, now: nat) returns (r: Result<string>)
    requires d.Valid()
    modifies d
    ensures d.Valid()
    ensures var name := SavedName(old(d.uploadDirExists), old(d.uploads), filename, now);
      if old(d.uploadDirExists) && '/' !in name then
        r == Success(name) && d.uploads == old(d.uploads)[name := content]
      else
        r.Failure? && d.uploads == old(d.uploads)
    ensures d.uploadDirExists == old(d.uploadDirExists)
    ensures d.vectorDirs == old(d.vectorDirs) && d.databases == old(d.databases) && d.chatFiles == old(d.chatFiles)
  {
    var safeName := CleanFilename(filename);
    if UploadPathExists(d.uploadDirExists, d.uploads, safeName) {
      var (base, ext) := SplitExt(safeName);
      safeName := base + "_" + NatToString(now) + ext;
    }
    if !d.uploadDirExists || '/' in safeName {
      return Failure(NoSuchFile(CollectionPath(safeName)));
    }
    d.uploads := d.uploads[safeName := content];
    return Success(safeName);
  }

  /** list_collections: the stored names in ascending order, each once, and
      nothing when the upload directory is missing. */
  function ListCollections(d: DataDir): (r: seq<string>)
    reads d
    ensures !d.uploadDirExists ==> r == []
    ensures d.uploadDirExists ==> forall x :: x in r <==> x in d.uploads
    ensures forall i, j :: 0 <= i < j < |r| ==> Below(r[i], r[j])
  {
    if !d.uploadDirExists then [] else SortedList(d.uploads.Keys)
  }

  // ---------------------------------------------------------------------
  // Chat history
  // ---------------------------------------------------------------------

  /** What load_chat_history returns: the parsed chat file, or nothing when
      there is no such file. */
  function History(d: DataDir, savedName: string): (r: seq<Turn>)
    reads d
    ensures ChatFileFor(savedName) !in d.chatFiles ==> r == []
    ensures forall t :: t in r ==> Canonical(t)
  {
    HistoryIn(d.chatFiles, savedName)
  }

  /** The history read from a given set of chat files. */
  function HistoryIn(chatFiles: map<string, string>, savedName: string): (r: seq<Turn>)
    ensures ChatFileFor(savedName) !in chatFiles ==> r == []
    ensures forall t :: t in r ==> Canonical(t)
  {
    var path := ChatFileFor(savedName);
    if path in chatFiles then Parse(chatFiles[path]) else []
  }

  /** save_chat_history: truncates the chat file and writes one block per
      turn; the blocks are gathered first and the file replaced once. Reading it back gives the turns, roles lower-cased, exactly when
      every turn is Faithful. */
  method SaveChatHistory(d: DataDir, savedName: string, chat: seq<Turn>)
    modifies d
    ensures d.chatFiles == old(d.chatFiles)[ChatFileFor(savedName) := Render(chat)]
    ensures History(d, savedName) == Normalized(chat) <==> AllFaithful(chat)
    ensures chat == [] ==> History(d, savedName) == []
    ensures d.uploadDirExists == old(d.uploadDirExists) && d.uploads == old(d.uploads)
    ensures d.vectorDirs == old(d.vectorDirs) && d.databases == old(d.databases)
  {
    var written := RenderTurns(chat);
    d.chatFiles := d.chatFiles[ChatFileFor(savedName) := written];
    SavedChatReadsBack(chat);
  }

  /** The loop of save_chat_history: one block per turn, in order. */
  method RenderTurns(chat: seq<Turn>) returns (written: string)
    ensures written == Render(chat)
  {
    written := "";
    for i := 0 to |chat|
      invariant written == Render(chat[..i])
    {
      assert chat[..i + 1][..i] == chat[..i] && chat[..i + 1][i] == chat[i];
      written := written + Block(chat[i]);
    }
    assert chat[..|chat|] == chat;
  }

  /** What reading back a saved history gives. */
  lemma SavedChatReadsBack(chat: seq<Turn>)
    ensures Parse(Render(chat)) == Normalized(chat) <==> AllFaithful(chat)
    ensures chat == [] ==> Parse(Render(chat)) == []
  {
    RoundTrip(chat);
    if chat == [] {
      assert SplitLines("") == [];
    }
  }

  /** load_chat_history: reads the chat file line by line and keeps the
      lines that carry a role marker. */
  method LoadChatHistory(d: DataDir, savedName: string) returns (out: seq<Turn>)
    ensures out == History(d, savedName)
  {
    var path := ChatFileFor(savedName);
    if path !in d.chatFiles {
      return [];
    }
    out := [];
    var lines := SplitLines(d.chatFiles[path]);
    for i := 0 to |lines|
      invariant out == ParseLines(lines[..i])
    {
      var line := lines[i];
      assert lines[..i + 1][..i] == lines[..i];
      assert line in lines;
      if Contains(line, UserMarker) {
        out := out + [Turn("user", Strip(ReplaceAll(line, UserMarker, "")))];
      } else if Contains(line, AssistantMarker) {
        out := out + [Turn("assistant", Strip(ReplaceAll(line, AssistantMarker, "")))];
      }
    }
    assert lines[..|lines|] == lines;
  }

  /** append_to_chat: reads the history, adds one turn and writes it all
      back. When the old history and the new turn are Faithful, the history
      read next is the old one followed by that turn. */
  method AppendToChat(d: DataDir, savedName: string, role: string, text: string)
    modifies d
    ensures d.chatFiles == old(d.chatFiles)[ChatFileFor(savedName) := Render(old(History(d, savedName)) + [Turn(role, text)])]
    ensures AllFaithful(old(History(d, savedName)) + [Turn(role, text)]) ==>
      History(d, savedName) == old(History(d, savedName)) + [Turn(Lower(role), text)]
    ensures d.uploadDirExists == old(d.uploadDirExists) && d.uploads == old(d.uploads)
    ensures d.vectorDirs == old(d.vectorDirs) && d.databases == old(d.databases)
  {
    var lst := LoadChatHistory(d, savedName);
    ghost var before := lst;
    lst := lst + [Turn(role, text)];
    SaveChatHistory(d, savedName, lst);
    if AllFaithful(lst) {
      assert forall i :: 0 <= i < |before| ==> before[i] in before;
      AppendRoundTrip(before, Turn(role, text));
    }
  }

  // ---------------------------------------------------------------------
  // Deleting a collection
  // ---------------------------------------------------------------------

  /** Which removal in delete_collection raises, when one is made: removing
      a file can fail (permissions, a busy file), and removing a path that is
      a directory always does. */
  datatype Fault = NoFault | FileRemovalFails | TreeRemovalFails | ChatRemovalFails

  /** The step at which delete_collection stops on an exception (1: the
      upload, 2: the vector store, 3: the chat file), or 0 when it runs to
      the end. A step is only attempted for a path that exists. */
  function FailedStep(fileExists: bool, fileIsDir: bool, dirExists: bool, chatExists: bool, fault: Fault): nat {
    if fileExists && (fileIsDir || fault == FileRemovalFails) then 1
    else if dirExists && fault == TreeRemovalFails then 2
    else if chatExists && fault == ChatRemovalFails then 3
    else 0
  }

  /** delete_collection: removes the uploaded file, the vector-store
      directory and the chat file, each only if it exists, and reports
      success; an exception stops it where it happens and reports failure,
      keeping what was removed before. The SQLite database of a CSV
      collection is not removed. */
  method DeleteCollection(d: DataDir, savedName: string, fault: Fault) returns (ok: bool)
    requires d.Valid()
    modifies d
    ensures d.Valid()
    ensures var step := FailedStep(
        UploadPathExists(old(d.uploadDirExists), old(d.uploads), savedName), IsDirName(savedName),
        VectorstoreDirFor(savedName) in old(d.vectorDirs), ChatFileFor(savedName) in old(d.chatFiles), fault);
      && (ok <==> step == 0)
      && d.uploads == (if step == 1 then old(d.uploads) else old(d.uploads) - {savedName})
      && d.vectorDirs == (if step == 1 || step == 2 then old(d.vectorDirs) else old(d.vectorDirs) - {VectorstoreDirFor(savedName)})
      && d.chatFiles == (if step != 0 then old(d.chatFiles) else old(d.chatFiles) - {ChatFileFor(savedName)})
    ensures d.uploadDirExists == old(d.uploadDirExists) && d.databases == old(d.databases)
  {
    ghost var step := FailedStep(
      UploadPathExists(d.uploadDirExists, d.uploads, savedName), IsDirName(savedName),
      VectorstoreDirFor(savedName) in d.vectorDirs, ChatFileFor(savedName) in d.chatFiles, fault);
    var fpath := savedName;
    if UploadPathExists(d.uploadDirExists, d.uploads, fpath) {
      if IsDirName(fpath) || fault == FileRemovalFails {
        assert step == 1;
        return false;
      }
      d.uploads := d.uploads - {fpath};
    } else {
      assert fpath !in d.uploads;
      assert d.uploads - {fpath} == d.uploads;
    }
    assert step != 1;
    var vectdir := VectorstoreDirFor(savedName);
    if vectdir in d.vectorDirs {
      if fault == TreeRemovalFails {
        assert step == 2;
        return false;
      }
      d.vectorDirs := d.vectorDirs - {vectdir};
    } else {
      assert d.vectorDirs - {vectdir} == d.vectorDirs;
    }
    assert step != 2;
    var chatf := ChatFileFor(savedName);
    if chatf in d.chatFiles {
      if fault == ChatRemovalFails {
        assert step == 3;
        return false;
      }
      d.chatFiles := d.chatFiles - {chatf};
    } else {
      assert d.chatFiles - {chatf} == d.chatFiles;
    }
    assert step == 0;
    return true;
  }
}
