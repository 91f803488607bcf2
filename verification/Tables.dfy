/** The chunk and blob tables of the metadata index beside the backend's blobs, and what it means for them to agree. */
module Tables {
  import opened Bytes
  import opened Blobs
  import opened Sums

  type Handle = nat

  /** A row of the blobs table. */
  datatype Blob = Blob(handle: Handle, len: nat, refcount: nat)

  type ChunkTable = map<Ino, seq<Row>>
  type BlobTable = map<Sha, Blob>

  function RowsOf(chunks: ChunkTable, ino: Ino): seq<Row> {
    if ino in chunks then chunks[ino] else []
  }

  /** Replacing an inode's list; an empty one leaves no rows. */
  function SetRows(chunks: ChunkTable, ino: Ino, rows: seq<Row>): (c: ChunkTable)
    ensures RowsOf(c, ino) == rows
    ensures forall j :: j != ino ==> RowsOf(c, j) == RowsOf(chunks, j)
  {
    if rows == [] then chunks - {ino} else chunks[ino := rows]
  }

  /** The size column exists only for inodes that still have a row. */
  function SetSizeOf(sizes: map<Ino, nat>, ino: Ino, size: nat): map<Ino, nat> {
    if ino in sizes then sizes[ino := size] else sizes
  }

  function Ref(blobs: BlobTable, sha: Sha): nat {
    if sha in blobs then blobs[sha].refcount else 0
  }

  /** How often each sha occurs in a chunk list. */
  function Bag(rows: seq<Row>): multiset<Sha> {
    multiset(Shas(rows))
  }

  ghost function Bags(chunks: ChunkTable): map<Ino, multiset<Sha>> {
    map ino | ino in chunks :: Bag(chunks[ino])
  }

  /** How often each sha occurs in the chunk rows of all inodes. */
  ghost function RowRefs(chunks: ChunkTable): multiset<Sha> {
    Gather(Bags(chunks))
  }

  /** No chunk rows hold no references. */
  lemma EmptyTables(chunks: ChunkTable)
    ensures chunks == map[] ==> RowRefs(chunks) == multiset{} && Content([]) == []
  {
    if chunks == map[] {
      GatherNone(Bags(chunks));
    }
  }

  /** Blob rows and live handles are in bijection, and every handle yields the bytes its sha names. */
  ghost predicate Linked(blobs: BlobTable, live: map<Handle, Data>) {
    && (forall s :: s in blobs ==>
          && blobs[s].handle in live && live[blobs[s].handle] == Pre(s)
          && blobs[s].len == |Pre(s)| && blobs[s].refcount > 0)
    && (forall h :: h in live ==> Hash(live[h]) in blobs && blobs[Hash(live[h])].handle == h)
  }

  lemma LinkedPlus(blobs: BlobTable, live: map<Handle, Data>, sha: Sha, handle: Handle, data: Data)
    requires Linked(blobs, live) && sha == Hash(data) && sha !in blobs && handle !in live
    ensures Linked(blobs[sha := Blob(handle, |data|, 1)], live[handle := data])
  {
  }

  lemma LinkedMore(blobs: BlobTable, blobs': BlobTable, live: map<Handle, Data>)
    requires Linked(blobs, live) && blobs'.Keys == blobs.Keys
    requires forall s :: s in blobs' ==> Ref(blobs', s) >= Ref(blobs, s) && blobs'[s] == blobs[s].(refcount := Ref(blobs', s))
    ensures Linked(blobs', live)
  {
  }

  /** Every refcount is the number of chunk rows naming that sha. */
  ghost predicate Counted(chunks: ChunkTable, blobs: BlobTable) {
    forall s :: Ref(blobs, s) == RowRefs(chunks)[s]
  }

  /** Chunk lists are contiguous and the size column of an existing inode is what they hold. */
  ghost predicate Tiled(chunks: ChunkTable, sizes: map<Ino, nat>) {
    && (forall ino :: ino in chunks ==> Tiles(chunks[ino]))
    && (forall ino :: ino in sizes ==> sizes[ino] == |Content(RowsOf(chunks, ino))|)
  }

  /** The backend holds nothing beyond what the blob table names. */
  lemma LinkedLive(blobs: BlobTable, live: map<Handle, Data>, live': map<Handle, Data>)
    requires Linked(blobs, live) && Linked(blobs, live')
    ensures live == live'
  {
    assert live.Keys == live'.Keys;
  }

  /** Tables with the same refcounts and handles are the same, and so is what the backend holds. */
  lemma SameBlobs(blobs: BlobTable, blobs': BlobTable, live: map<Handle, Data>, live': map<Handle, Data>)
    requires Linked(blobs, live) && Linked(blobs', live')
    requires forall s :: Ref(blobs', s) == Ref(blobs, s)
    requires forall s :: s in blobs && s in blobs' ==> blobs'[s].handle == blobs[s].handle
    ensures blobs' == blobs && live' == live
  {
    forall s
      ensures s in blobs <==> s in blobs'
      ensures s in blobs ==> blobs[s] == blobs'[s]
    {
      assert Ref(blobs', s) == Ref(blobs, s);
    }
    assert blobs.Keys == blobs'.Keys;
    LinkedLive(blobs, live, live');
  }

  lemma RowRefsSet(chunks: ChunkTable, ino: Ino, rows: seq<Row>)
    ensures RowRefs(chunks[ino := rows]) + Bag(RowsOf(chunks, ino)) == RowRefs(chunks) + Bag(rows)
  {
    GatherUpdate(Bags(chunks), ino, Bag(rows));
    assert Bags(chunks[ino := rows]) == Bags(chunks)[ino := Bag(rows)];
    assert ino !in chunks ==> Bag([]) == multiset{};
  }

  lemma RowRefsDrop(chunks: ChunkTable, ino: Ino)
    ensures RowRefs(chunks - {ino}) + Bag(RowsOf(chunks, ino)) == RowRefs(chunks)
  {
    assert Bags(chunks - {ino}) == Bags(chunks) - {ino};
    if ino in chunks {
      GatherRemove(Bags(chunks), ino);
    } else {
      assert Bags(chunks) - {ino} == Bags(chunks);
      assert Bag([]) == multiset{};
    }
  }

  lemma RowRefsHas(chunks: ChunkTable, ino: Ino, s: Sha)
    ensures Bag(RowsOf(chunks, ino))[s] <= RowRefs(chunks)[s]
  {
    RowRefsDrop(chunks, ino);
  }

  lemma RowRefsFind(chunks: ChunkTable, s: Sha) returns (ino: Ino)
    requires RowRefs(chunks)[s] > 0
    ensures ino in chunks && Bag(chunks[ino])[s] > 0
  {
    ino := GatherFind(Bags(chunks), s);
  }

  /** How often s occurs among the first k entries; occurrences in `skip` do not count. */
  function Tally(shas: seq<Sha>, k: nat, skip: set<Sha>, s: Sha): nat
    requires k <= |shas|
  {
    if k == 0 then 0 else Tally(shas, k - 1, skip, s) + if shas[k - 1] == s && s !in skip then 1 else 0
  }

  /** References that a call holds on s: one per acquired entry, none if the upload of s did not register a blob. */
  function Takes(acquired: seq<Sha>, failed: set<Sha>, s: Sha): nat {
    Tally(acquired, |acquired|, failed, s)
  }

  lemma TallyStep(shas: seq<Sha>, k: nat, skip: set<Sha>)
    requires k < |shas|
    ensures forall s :: Tally(shas, k + 1, skip, s) == Tally(shas, k, skip, s) + if shas[k] == s && s !in skip then 1 else 0
  {
  }

  lemma {:induction false} TallyMono(shas: seq<Sha>, i: nat, j: nat, skip: set<Sha>, s: Sha)
    requires i <= j <= |shas|
    ensures Tally(shas, i, skip, s) <= Tally(shas, j, skip, s)
    decreases j
  {
    if i < j {
      TallyMono(shas, i, j - 1, skip, s);
    }
  }

  lemma {:induction false} TallySame(shas: seq<Sha>, shas': seq<Sha>, k: nat, skip: set<Sha>, skip': set<Sha>, s: Sha)
    requires k <= |shas| && k <= |shas'| && shas[..k] == shas'[..k]
    requires s in skip <==> s in skip'
    ensures Tally(shas, k, skip, s) == Tally(shas', k, skip', s)
    decreases k
  {
    if k > 0 {
      assert shas[k - 1] == shas[..k][k - 1] == shas'[k - 1];
      assert shas[..k - 1] == shas[..k][..k - 1] == shas'[..k - 1];
      TallySame(shas, shas', k - 1, skip, skip', s);
    }
  }

  lemma {:induction false} TallyIsCount(shas: seq<Sha>, k: nat, skip: set<Sha>, s: Sha)
    requires k <= |shas|
    ensures Tally(shas, k, skip, s) == if s in skip then 0 else multiset(shas[..k])[s]
    decreases k
  {
    if k > 0 {
      TallyIsCount(shas, k - 1, skip, s);
      assert shas[..k] == shas[..k - 1] + [shas[k - 1]];
    }
  }

  lemma TakesIsCount(shas: seq<Sha>, skip: set<Sha>, s: Sha)
    ensures Takes(shas, skip, s) == if s in skip then 0 else multiset(shas)[s]
  {
    TallyIsCount(shas, |shas|, skip, s);
    assert shas[..|shas|] == shas;
  }

  lemma TakesAppend(acquired: seq<Sha>, failed: set<Sha>, sha: Sha, s: Sha)
    ensures Takes(acquired + [sha], failed, s) == Takes(acquired, failed, s) + if s == sha && s !in failed then 1 else 0
  {
    TallySame(acquired + [sha], acquired, |acquired|, failed, failed, s);
  }

  /** The same as a multiset. */
  ghost function Owed(acquired: seq<Sha>, failed: set<Sha>): (m: multiset<Sha>)
    ensures forall s :: m[s] == Takes(acquired, failed, s)
  {
    OwedUpto(acquired, |acquired|, failed)
  }

  ghost function OwedUpto(acquired: seq<Sha>, k: nat, failed: set<Sha>): (m: multiset<Sha>)
    requires k <= |acquired|
    ensures forall s :: m[s] == Tally(acquired, k, failed, s)
  {
    if k == 0 then multiset{}
    else OwedUpto(acquired, k - 1, failed) + if acquired[k - 1] in failed then multiset{} else multiset{acquired[k - 1]}
  }
}
