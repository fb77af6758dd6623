/** The bookkeeping create_vectorstore does around Chroma: positional chunk
    ids, their split into ids already stored and new ids, and the writes of
    the chunk records into the collection. The text splitter and the
    embedding model are parameters. */
module Rag {
  import opened Wrappers
  import opened Text
  import opened Storage

  const DefaultCollection: string := "default_collection"

  // ---------------------------------------------------------------------
  // Chunk ids
  // ---------------------------------------------------------------------

  /** The id of the i-th chunk (counting from 1): "{collection}_{i}". */
  function ChunkId(collection: string, i: nat): string {
    collection + "_" + NatToString(i)
  }

  /** The ids of n chunks: "{collection}_1" ... "{collection}_n". */
  function ChunkIds(collection: string, n: nat): (r: seq<string>)
    ensures |r| == n
    ensures forall k :: 0 <= k < n ==> r[k] == ChunkId(collection, k + 1)
  {
    seq(n, k requires 0 <= k < n => ChunkId(collection, k + 1))
  }

  /** Different positions get different ids. */
  lemma ChunkIdInjective(collection: string, i: nat, j: nat)
    requires ChunkId(collection, i) == ChunkId(collection, j)
    ensures i == j
  {
    var a, b := NatToString(i), NatToString(j);
    var n := |collection| + 1;
    assert ChunkId(collection, i)[n..] == a;
    assert ChunkId(collection, j)[n..] == b;
    NatToStringInjective(i, j);
  }

  /** No two entries of a list are equal. */
  predicate Distinct(ids: seq<string>) {
    forall i, j :: 0 <= i < j < |ids| ==> ids[i] != ids[j]
  }

  /** The generated ids are pairwise distinct. */
  lemma ChunkIdsDistinct(collection: string, n: nat)
    ensures Distinct(ChunkIds(collection, n))
  {
    var ids := ChunkIds(collection, n);
    forall i, j | 0 <= i < j < n ensures ids[i] != ids[j] {
      if ids[i] == ids[j] {
        ChunkIdInjective(collection, i + 1, j + 1);
      }
    }
  }

  /** An id of a later position is not among the first n ids. */
  lemma ChunkIdBeyond(collection: string, n: nat, m: nat)
    requires m > n
    ensures ChunkId(collection, m) !in ChunkIds(collection, n)
  {
    var ids := ChunkIds(collection, n);
    forall k | 0 <= k < n ensures ids[k] != ChunkId(collection, m) {
      if ids[k] == ChunkId(collection, m) {
        ChunkIdInjective(collection, k + 1, m);
      }
    }
  }

  /** list.index(x): the first position of x. */
  function IndexOf(ids: seq<string>, x: string): (r: nat)
    requires x in ids
    ensures r < |ids| && ids[r] == x
    ensures forall k :: 0 <= k < r ==> ids[k] != x
  {
    if ids[0] == x then 0 else 1 + IndexOf(ids[1..], x)
  }

  /** In a list without repeats, the i-th entry is found at i. */
  lemma IndexOfDistinct(ids: seq<string>, i: nat)
    requires Distinct(ids) && i < |ids|
    ensures IndexOf(ids, ids[i]) == i
  {
  }

  // ---------------------------------------------------------------------
  // The update / add split
  // ---------------------------------------------------------------------

  /** The ids whose presence among existing equals present, in the order of
      ids: update_ids for present, add_ids otherwise. */
  function Select(ids: seq<string>, existing: set<string>, present: bool): (r: seq<string>)
    ensures forall x :: x in r <==> x in ids && ((x in existing) == present)
  {
    if |ids| == 0 then []
    else
      var last := ids[|ids| - 1];
      var init := Select(ids[..|ids| - 1], existing, present);
      assert forall x :: x in ids <==> x in ids[..|ids| - 1] || x == last;
      if (last in existing) == present then init + [last] else init
  }

  /** update_ids and add_ids split ids: every id is in exactly one of them
      (by Select's contract) and their lengths add up to that of ids. */
  lemma {:induction false} SelectPartition(ids: seq<string>, existing: set<string>)
    ensures |Select(ids, existing, true)| + |Select(ids, existing, false)| == |ids|
  {
    if |ids| > 0 {
      SelectPartition(ids[..|ids| - 1], existing);
    }
  }

  /** Both lists keep the order of ids. */
  lemma {:induction false} SelectOrdered(ids: seq<string>, existing: set<string>, present: bool)
    requires Distinct(ids)
    ensures forall i, j :: 0 <= i < j < |Select(ids, existing, present)| ==>
      IndexOf(ids, Select(ids, existing, present)[i]) < IndexOf(ids, Select(ids, existing, present)[j])
  {
    if |ids| > 0 {
      var init, last := ids[..|ids| - 1], ids[|ids| - 1];
      SelectOrdered(init, existing, present);
      var r0 := Select(init, existing, present);
      var r := Select(ids, existing, present);
      forall x | x in init ensures IndexOf(ids, x) == IndexOf(init, x) {
        var k := IndexOf(init, x);
        assert ids[k] == x;
        assert forall m :: 0 <= m < k ==> ids[m] == init[m];
      }
      IndexOfDistinct(ids, |ids| - 1);
      assert r == r0 || r == r0 + [last];
      forall i, j | 0 <= i < j < |r| ensures IndexOf(ids, r[i]) < IndexOf(ids, r[j]) {
        assert i < |r0| && r[i] == r0[i] && r0[i] in r0;
        assert IndexOf(ids, r[i]) == IndexOf(init, r0[i]);
        if j < |r0| {
          assert r[j] == r0[j] && r0[j] in r0;
          assert IndexOf(ids, r[j]) == IndexOf(init, r0[j]);
          assert IndexOf(init, r0[i]) < IndexOf(init, r0[j]);
        } else {
          assert r[j] == last && IndexOf(ids, last) == |init|;
          assert IndexOf(init, r0[i]) < |init|;
        }
      }
    }
  }

  /** The ids of a list that are present in a collection. */
  function Present(ids: seq<string>, records: Records): set<string> {
    set id | id in ids && id in records
  }

  // ---------------------------------------------------------------------
  // Writing the chunks
  // ---------------------------------------------------------------------

  /** The record written for an id: the text at the id's position and its
      embedding. */
  function ChunkFor(ids: seq<string>, texts: seq<string>, embed: string -> Embedding, id: string): Chunk
    requires |ids| == |texts| && id in ids
  {
    var t := texts[IndexOf(ids, id)];
    Chunk(t, embed(t))
  }

  /** The collection after the records of the ids in batch are written, in
      order, over what was there. */
  function Written(records: Records, ids: seq<string>, texts: seq<string>, embed: string -> Embedding, batch: seq<string>): Records
    requires |ids| == |texts| && forall x :: x in batch ==> x in ids
  {
    if |batch| == 0 then records
    else
      var last := batch[|batch| - 1];
      Written(records, ids, texts, embed, batch[..|batch| - 1])[last := ChunkFor(ids, texts, embed, last)]
  }

  /** The ids of a list, as a set. */
  function IdSet(ids: seq<string>): set<string> {
    set id | id in ids
  }

  /** What the collection holds after create_vectorstore: every id of ids
      holds its chunk, every other record is unchanged. */
  function Upserted(records: Records, ids: seq<string>, texts: seq<string>, embed: string -> Embedding): Records
    requires |ids| == |texts|
  {
    map k | k in records.Keys + IdSet(ids) ::
      if k in ids then ChunkFor(ids, texts, embed, k) else records[k]
  }

  /** The keys after the call: those before and the chunk ids. */
  lemma UpsertedKeys(records: Records, ids: seq<string>, texts: seq<string>, embed: string -> Embedding)
    requires |ids| == |texts|
    ensures forall k :: k in Upserted(records, ids, texts, embed) <==> k in records || k in ids
  {
    forall k ensures k in IdSet(ids) <==> k in ids {
    }
  }

  /** Writing a batch adds its ids as keys, gives them their chunks and
      leaves every other record alone. */
  lemma {:induction false} WrittenAt(records: Records, ids: seq<string>, texts: seq<string>, embed: string -> Embedding, batch: seq<string>)
    requires |ids| == |texts| && forall x :: x in batch ==> x in ids
    ensures var w := Written(records, ids, texts, embed, batch);
      && (forall k :: k in w <==> k in records || k in batch)
      && (forall k :: k in batch ==> w[k] == ChunkFor(ids, texts, embed, k))
      && (forall k :: k in records && k !in batch ==> w[k] == records[k])
  {
    if |batch| > 0 {
      var init := batch[..|batch| - 1];
      assert forall x :: x in init ==> x in batch;
      WrittenAt(records, ids, texts, embed, init);
      assert forall x :: x in batch <==> x in init || x == batch[|batch| - 1];
    }
  }

  /** Writing one more id of the batch. */
  lemma WrittenSnoc(records: Records, ids: seq<string>, texts: seq<string>, embed: string -> Embedding, batch: seq<string>, k: nat)
    requires |ids| == |texts| && k < |batch| && forall x :: x in batch ==> x in ids
    ensures forall x :: x in batch[..k] ==> x in ids
    ensures forall x :: x in batch[..k + 1] ==> x in ids
    ensures batch[k] in ids
    ensures Written(records, ids, texts, embed, batch[..k + 1]) ==
      Written(records, ids, texts, embed, batch[..k])[batch[k] := ChunkFor(ids, texts, embed, batch[k])]
  {
    assert batch[..k + 1][..k] == batch[..k];
    assert batch[k] in batch;
  }

  /** Writing update_ids and then add_ids gives Upserted. */
  lemma UpdateThenAdd(records: Records, ids: seq<string>, texts: seq<string>, embed: string -> Embedding)
    requires |ids| == |texts|
    ensures var existing := Present(ids, records);
      var upd := Select(ids, existing, true);
      var add := Select(ids, existing, false);
      Written(Written(records, ids, texts, embed, upd), ids, texts, embed, add) == Upserted(records, ids, texts, embed)
  {
    var existing := Present(ids, records);
    var upd := Select(ids, existing, true);
    var add := Select(ids, existing, false);
    var w1 := Written(records, ids, texts, embed, upd);
    WrittenAt(records, ids, texts, embed, upd);
    var w2 := Written(w1, ids, texts, embed, add);
    WrittenAt(w1, ids, texts, embed, add);
    var u := Upserted(records, ids, texts, embed);
    assert forall k :: k in w2 <==> k in u;
    forall k | k in u ensures w2[k] == u[k] {
      if k in ids {
        assert k in upd || k in add;
      }
    }
  }

  /** After the call every chunk id maps to its own text and embedding,
      whether the id was stored before (it is overwritten) or not. */
  lemma UpsertedWritesChunk(records: Records, collection: string, texts: seq<string>, embed: string -> Embedding, i: nat)
    requires i < |texts|
    ensures ChunkId(collection, i + 1) in Upserted(records, ChunkIds(collection, |texts|), texts, embed)
    ensures Upserted(records, ChunkIds(collection, |texts|), texts, embed)[ChunkId(collection, i + 1)] == Chunk(texts[i], embed(texts[i]))
  {
    var ids := ChunkIds(collection, |texts|);
    UpsertedKeys(records, ids, texts, embed);
    ChunkIdsDistinct(collection, |texts|);
    IndexOfDistinct(ids, i);
    assert ids[i] in ids && ids[i] == ChunkId(collection, i + 1);
  }

  /** Records under other ids are left as they were; in particular the
      higher-numbered chunks of an earlier, longer version of the document
      stay in the collection. */
  lemma UpsertedKeepsOthers(records: Records, collection: string, texts: seq<string>, embed: string -> Embedding, m: nat)
    requires m > |texts| && ChunkId(collection, m) in records
    ensures var u := Upserted(records, ChunkIds(collection, |texts|), texts, embed);
      ChunkId(collection, m) in u && u[ChunkId(collection, m)] == records[ChunkId(collection, m)]
  {
    ChunkIdBeyond(collection, |texts|, m);
  }

  /** The collection grows by exactly the number of added ids. */
  lemma {:induction false} UpsertedGrowth(records: Records, ids: seq<string>, texts: seq<string>, embed: string -> Embedding)
    requires |ids| == |texts| && Distinct(ids)
    ensures |Upserted(records, ids, texts, embed).Keys| == |records.Keys| + |Select(ids, Present(ids, records), false)|
  {
    assert Upserted(records, ids, texts, embed).Keys == records.Keys + IdSet(ids);
    SelectSame(ids, Present(ids, records), records.Keys, false);
    KeysGrowth(records.Keys, ids);
  }

  /** Select only asks about the ids it is given. */
  lemma {:induction false} SelectSame(ids: seq<string>, e1: set<string>, e2: set<string>, present: bool)
    requires forall x :: x in ids ==> (x in e1 <==> x in e2)
    ensures Select(ids, e1, present) == Select(ids, e2, present)
  {
    if |ids| > 0 {
      SelectSame(ids[..|ids| - 1], e1, e2, present);
      assert ids[|ids| - 1] in ids;
    }
  }


  lemma {:induction false} KeysGrowth(keys: set<string>, ids: seq<string>)
    requires Distinct(ids)
    ensures |keys + IdSet(ids)| == |keys| + |Select(ids, keys, false)|
  {
    if |ids| > 0 {
      var init := ids[..|ids| - 1];
      DistinctInit(ids);
      KeysGrowth(keys, init);
      KeysAddLast(keys, ids);
      SelectFreshLast(keys, ids);
    } else {
      assert keys + IdSet(ids) == keys;
    }
  }

  /** Dropping the last id keeps the ids distinct and leaves the last one out. */
  lemma DistinctInit(ids: seq<string>)
    requires Distinct(ids) && |ids| > 0
    ensures Distinct(ids[..|ids| - 1]) && ids[|ids| - 1] !in ids[..|ids| - 1]
  {
    var init := ids[..|ids| - 1];
    forall k | 0 <= k < |init| ensures init[k] != ids[|ids| - 1] {
      assert init[k] == ids[k];
    }
  }

  /** The last id adds one key unless the keys already hold it. */
  lemma KeysAddLast(keys: set<string>, ids: seq<string>)
    requires |ids| > 0 && ids[|ids| - 1] !in ids[..|ids| - 1]
    ensures |keys + IdSet(ids)| ==
      |keys + IdSet(ids[..|ids| - 1])| + (if ids[|ids| - 1] in keys then 0 else 1)
  {
    var init, last := ids[..|ids| - 1], ids[|ids| - 1];
    var before := keys + IdSet(init);
    assert IdSet(ids) == IdSet(init) + {last};
    assert keys + IdSet(ids) == before + {last};
    if last in keys {
      assert before + {last} == before;
    } else {
      assert last !in before;
      assert |before + {last}| == |before| + 1;
    }
  }

  /** Select(.., false) gains the last id exactly when the keys lack it. */
  lemma SelectFreshLast(keys: set<string>, ids: seq<string>)
    requires |ids| > 0
    ensures |Select(ids, keys, false)| ==
      |Select(ids[..|ids| - 1], keys, false)| + (if ids[|ids| - 1] in keys then 0 else 1)
  {
  }

  /** Running again with the same number of chunks adds no id and keeps the
      same keys. */
  lemma RerunAddsNothing(records: Records, ids: seq<string>, texts: seq<string>, embed: string -> Embedding)
    requires |ids| == |texts|
    ensures Select(ids, Present(ids, Upserted(records, ids, texts, embed)), false) == []
    ensures Upserted(Upserted(records, ids, texts, embed), ids, texts, embed).Keys == Upserted(records, ids, texts, embed).Keys
  {
    var u := Upserted(records, ids, texts, embed);
    UpsertedKeys(records, ids, texts, embed);
    UpsertedKeys(u, ids, texts, embed);
    assert forall k :: k in Upserted(u, ids, texts, embed).Keys <==> k in u.Keys;
    SelectNone(ids, Present(ids, u), false);
  }

  /** When no id has the wanted presence, nothing is selected. */
  lemma {:induction false} SelectNone(ids: seq<string>, existing: set<string>, present: bool)
    requires forall x :: x in ids ==> (x in existing) != present
    ensures Select(ids, existing, present) == []
  {
    if |ids| > 0 {
      SelectNone(ids[..|ids| - 1], existing, present);
      assert ids[|ids| - 1] in ids;
    }
  }

  // ---------------------------------------------------------------------
  // The store
  // ---------------------------------------------------------------------

  /** The collections of a persist directory, none if it is missing. */
  function DirAt(vectorDirs: map<string, Collections>, persistDirectory: string): Collections {
    if persistDirectory in vectorDirs then vectorDirs[persistDirectory] else map[]
  }

  /** The records of a collection, none if it is missing. */
  function RecordsIn(dir: Collections, collection: string): Records {
    if collection in dir then dir[collection] else map[]
  }

  /** The records of a collection in the store, none if it is missing. */
  function Before(vectorDirs: map<string, Collections>, persistDirectory: string, collection: string): Records {
    RecordsIn(DirAt(vectorDirs, persistDirectory), collection)
  }

  lemma UpdateTwice(m: map<string, Collections>, k: string, a: Collections, b: Collections)
    ensures m[k := a][k := b] == m[k := b]
  {
  }

  /** load_vectorstore_if_exists: the collection when its persist directory
      exists, nothing otherwise. */
  function LoadVectorstoreIfExists(d: DataDir, persistDirectory: string, collection: string): (r: Option<Records>)
    reads d
    ensures r.None? <==> persistDirectory !in d.vectorDirs
    ensures r.Some? ==> r.value == RecordsIn(d.vectorDirs[persistDirectory], collection)
  {
    if persistDirectory in d.vectorDirs then Some(RecordsIn(d.vectorDirs[persistDirectory], collection))
    else None
  }

  /** collection.update / collection.add: writes the record of each id of
      batch (the text at the id's position in ids and its embedding). */
  method WriteChunks(records: Records, ids: seq<string>, texts: seq<string>, embed: string -> Embedding, batch: seq<string>)
    returns (r: Records)
    requires |ids| == |texts| && forall x :: x in batch ==> x in ids
    ensures r == Written(records, ids, texts, embed, batch)
  {
    r := records;
    for k := 0 to |batch|
      invariant r == Written(records, ids, texts, embed, batch[..k])
    {
      WrittenSnoc(records, ids, texts, embed, batch, k);
      var id := batch[k];
      var t := texts[IndexOf(ids, id)];
      r := r[id := Chunk(t, embed(t))];
    }
    assert batch[..|batch|] == batch;
  }

  /** The writes of create_vectorstore: splits ids into those present in
      the collection and the others, overwrites the first and adds the
      second. */
  method UpsertChunks(records: Records, ids: seq<string>, texts: seq<string>, embed: string -> Embedding)
    returns (r: Records, updateIds: seq<string>, addIds: seq<string>)
    requires |ids| == |texts|
    ensures updateIds == Select(ids, Present(ids, records), true)
    ensures addIds == Select(ids, Present(ids, records), false)
    ensures r == Upserted(records, ids, texts, embed)
  {
    var existing := Present(ids, records);
    updateIds := Select(ids, existing, true);
    addIds := Select(ids, existing, false);
    r := WriteChunks(records, ids, texts, embed, updateIds);
    r := WriteChunks(r, ids, texts, embed, addIds);
    UpdateThenAdd(records, ids, texts, embed);
  }

  /** create_vectorstore for the chunks texts: creates the persist
      directory and the collection when missing, then overwrites the ids
      already stored and adds the others. Returns update_ids and add_ids.
      Afterwards loading the store gives Upserted. */
  method CreateVectorstore(d: DataDir, texts: seq<string>, persistDirectory: string, collection: string, embed: string -> Embedding)
    returns (updateIds: seq<string>, addIds: seq<string>)
    modifies d
    ensures updateIds == Select(ChunkIds(collection, |texts|), Present(ChunkIds(collection, |texts|), Before(old(d.vectorDirs), persistDirectory, collection)), true)
    ensures addIds == Select(ChunkIds(collection, |texts|), Present(ChunkIds(collection, |texts|), Before(old(d.vectorDirs), persistDirectory, collection)), false)
    ensures d.vectorDirs == old(d.vectorDirs)[persistDirectory := DirAt(old(d.vectorDirs), persistDirectory)[collection :=
      Upserted(Before(old(d.vectorDirs), persistDirectory, collection), ChunkIds(collection, |texts|), texts, embed)]]
    ensures LoadVectorstoreIfExists(d, persistDirectory, collection) ==
      Some(Upserted(Before(old(d.vectorDirs), persistDirectory, collection), ChunkIds(collection, |texts|), texts, embed))
    ensures d.uploadDirExists == old(d.uploadDirExists) && d.uploads == old(d.uploads)
    ensures d.databases == old(d.databases) && d.chatFiles == old(d.chatFiles)
  {
    ghost var oldDirs := d.vectorDirs;
    var dir := DirAt(d.vectorDirs, persistDirectory);
    var records := RecordsIn(dir, collection);
    assert records == Before(oldDirs, persistDirectory, collection);
    d.vectorDirs := d.vectorDirs[persistDirectory := dir[collection := records]];
    ghost var created := dir[collection := records];

    var ids := ChunkIds(collection, |texts|);
    records, updateIds, addIds := UpsertChunks(records, ids, texts, embed);
    d.vectorDirs := d.vectorDirs[persistDirectory := dir[collection := records]];
    UpdateTwice(oldDirs, persistDirectory, created, dir[collection := records]);
    assert RecordsIn(d.vectorDirs[persistDirectory], collection) == records;
  }
}
