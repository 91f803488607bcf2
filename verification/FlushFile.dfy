/** Entering write mode and flushing: how the byte array of a file state and the stored rows become each other. */
module FlushFile {
  import opened Bytes
  import opened Blobs
  import opened Plan
  import opened SparseFile

  // ----- flushing --------------------------------------------------------------------------

  /** Rows that a flush stores. */
  ghost function FlushRows(c: Core, cs: nat, rows: seq<Row>): seq<Row>
    requires cs > 0
  {
    PutRows(Resize(c.temp, c.size), cs, rows, Some(c.dirtyIdx))
  }

  /** The state after a flush that succeeded. */
  ghost function Flushed(c: Core, cs: nat, rows: seq<Row>): Core
    requires cs > 0
  {
    var rows' := FlushRows(c, cs, rows);
    Core(c.size, rows', c.loaded + Range(|c.base|, |rows'|), {}, Resize(c.temp, c.size))
  }

  /**
    Chunk i was cut off by a shrink, regrown without a flush or a rewrite, and happens to match a stored row of the
    same offset and length that is not all zeros. put_file takes that row for the chunk.
   */
  predicate StaleAt(c: Core, cs: nat, rows: seq<Row>, i: nat)
    requires cs > 0
  {
    && |c.base| <= i < |rows| && i < Chunks(c.size, cs) && Reused(i, c.size, cs, rows, Some(c.dirtyIdx))
    && rows[i].sha != Hash(Zeros(rows[i].len))
  }

  predicate Stale(c: Core, cs: nat, rows: seq<Row>)
    requires cs > 0
  {
    exists i :: |c.base| <= i < |rows| && StaleAt(c, cs, rows, i)
  }

  /**
    What a flush needs to be right: every clean chunk that put_file will keep has, in the running file, the bytes of its
    row. Clean loaded chunks hold their blobs' bytes, and none that was cut off and regrown meets a stored row.
   */
  ghost predicate Storable(c: Core, cs: nat, rows: seq<Row>)
    requires cs > 0
  {
    Coherent(c, cs) && !Stale(c, cs, rows)
  }

  /** A clean base chunk is always reused, so put_file never reads the temp file where nothing was loaded. */
  lemma CleanBaseReused(c: Core, cs: nat, rows: seq<Row>, i: nat)
    requires cs > 0 && Inv(c, cs, rows) && i < |c.base| && i !in c.dirtyIdx
    ensures i < Chunks(c.size, cs) && Reused(i, c.size, cs, rows, Some(c.dirtyIdx)) && rows[i] == c.base[i]
  {
    assert Look(Layout, 0);
    IdxIs(Off(i, cs), cs, i);
    IdxBelow(Off(i, cs), c.size, cs);
    assert c.base[i] == rows[i];
  }

  lemma ChunkOfTemp(c: Core, cs: nat, rows: seq<Row>, i: nat)
    requires cs > 0 && Inv(c, cs, rows) && i < Chunks(c.size, cs) && (i < |c.base| ==> i in c.loaded)
    ensures Chunk(View(c, cs), i, cs) == Chunk(Resize(c.temp, c.size), i, cs)
  {
    assert Look(Layout, 0);
    var v, t := View(c, cs), Resize(c.temp, c.size);
    ChunkInside(i, c.size, cs);
    forall p | Off(i, cs) <= p < Off(i, cs) + Want(i, c.size, cs)
      ensures v[p] == t[p]
    {
      IdxIs(p, cs, i);
      assert v[p] == ViewAt(c, cs, p) == At(c.temp, p);
      assert t[p] == At(t, p) == At(c.temp, p);
    }
    SameChunk(v, t, i, cs);
  }

  lemma SameChunk(v: Data, t: Data, i: nat, cs: nat)
    requires cs > 0 && |v| == |t| && i < Chunks(|v|, cs)
    requires Off(i, cs) + Want(i, |v|, cs) <= |v|
    requires forall p :: Off(i, cs) <= p < Off(i, cs) + Want(i, |v|, cs) ==> v[p] == t[p]
    ensures Chunk(v, i, cs) == Chunk(t, i, cs)
  {
    SameBytes(Chunk(v, i, cs), Chunk(t, i, cs));
  }

  lemma FlushSource(c: Core, cs: nat, rows: seq<Row>)
    requires cs > 0 && Inv(c, cs, rows)
    ensures SourceAgrees(Resize(c.temp, c.size), View(c, cs), cs, rows, Some(c.dirtyIdx))
  {
    assert Look(Layout, 0);
    forall i | 0 <= i < Chunks(c.size, cs) && !Reused(i, c.size, cs, rows, Some(c.dirtyIdx))
      ensures Chunk(Resize(c.temp, c.size), i, cs) == Chunk(View(c, cs), i, cs)
    {
      if i < |c.base| && i !in c.loaded {
        CleanBaseReused(c, cs, rows, i);
        assert false;
      }
      ChunkOfTemp(c, cs, rows, i);
    }
  }

  lemma CleanBaseByte(c: Core, cs: nat, rows: seq<Row>, i: nat, k: nat)
    requires cs > 0 && Inv(c, cs, rows) && Coherent(c, cs) && i < |c.base| && i !in c.dirtyIdx
    requires k < |Pre(c.base[i].sha)|
    ensures Off(i, cs) + k < c.size && View(c, cs)[Off(i, cs) + k] == Pre(c.base[i].sha)[k]
  {
    assert Look(Layout, 0) && Look(Coherence, 0);
    IdxIs(Off(i, cs) + k, cs, i);
    assert CoherentAt(c, cs, Off(i, cs) + k);
  }

  /** The view of a clean base chunk is its blob. */
  lemma CleanBaseChunk(c: Core, cs: nat, rows: seq<Row>, i: nat)
    requires cs > 0 && Inv(c, cs, rows) && Coherent(c, cs) && i < |c.base| && i !in c.dirtyIdx
    ensures i < Chunks(c.size, cs) && Pre(c.base[i].sha) == Chunk(View(c, cs), i, cs)
  {
    CleanBaseReused(c, cs, rows, i);
    CleanBaseLen(c, cs, rows, i);
    var a, b := Pre(c.base[i].sha), Chunk(View(c, cs), i, cs);
    forall k | 0 <= k < |a|
      ensures a[k] == b[k]
    {
      CleanBaseByte(c, cs, rows, i, k);
    }
    SameBytes(a, b);
  }

  lemma CleanBaseLen(c: Core, cs: nat, rows: seq<Row>, i: nat)
    requires cs > 0 && Inv(c, cs, rows) && i < |c.base| && i !in c.dirtyIdx
    ensures |Pre(c.base[i].sha)| == Want(i, c.size, cs)
  {
    assert Look(Layout, 0);
  }

  /** A chunk beyond `base` that is not dirty but has a stored row reads as zeros. */
  lemma BlankChunk(c: Core, cs: nat, rows: seq<Row>, i: nat)
    requires cs > 0 && Inv(c, cs, rows) && |c.base| <= i < |rows| && i !in c.dirtyIdx && i < Chunks(c.size, cs)
    ensures Chunk(View(c, cs), i, cs) == Zeros(|Chunk(View(c, cs), i, cs)|)
  {
    assert Look(Layout, 0);
    ChunkInside(i, c.size, cs);
    var v := View(c, cs);
    var a := Chunk(v, i, cs);
    forall k | 0 <= k < |a|
      ensures a[k] == 0
    {
      var p := Off(i, cs) + k;
      IdxIs(p, cs, i);
      assert v[p] == ViewAt(c, cs, p) == At(c.temp, p);
    }
    SameBytes(a, Zeros(|a|));
  }

  lemma StaleIsReuseMismatch(c: Core, cs: nat, rows: seq<Row>)
    requires cs > 0 && Inv(c, cs, rows) && Coherent(c, cs)
    ensures !Stale(c, cs, rows) <==> ReuseAgrees(View(c, cs), cs, rows, Some(c.dirtyIdx))
  {
    assert Look(Layout, 0) && Look(Coherence, 0);
    var v, dirty := View(c, cs), Some(c.dirtyIdx);
    forall i | 0 <= i < |rows| && i < Chunks(c.size, cs) && Reused(i, c.size, cs, rows, dirty)
      ensures rows[i].sha == Hash(Chunk(v, i, cs)) <==> !StaleAt(c, cs, rows, i)
    {
      if i < |c.base| {
        CleanBaseChunk(c, cs, rows, i);
        CleanBaseReused(c, cs, rows, i);
      } else {
        BlankChunk(c, cs, rows, i);
      }
    }
    if Stale(c, cs, rows) {
      var i :| |c.base| <= i < |rows| && StaleAt(c, cs, rows, i);
      assert Reused(i, |v|, cs, rows, dirty);
    }
  }

  /** A clean loaded byte that is not its blob's is in a chunk whose row is kept. */
  lemma MisloadedMismatch(c: Core, cs: nat, rows: seq<Row>, p: nat)
    requires cs > 0 && Inv(c, cs, rows) && !CoherentAt(c, cs, p)
    ensures !ReuseAgrees(View(c, cs), cs, rows, Some(c.dirtyIdx))
  {
    var i := Idx(p, cs);
    CleanBaseReused(c, cs, rows, i);
    CleanBaseLen(c, cs, rows, i);
    BaseRow(c, cs, rows, i);
    ChunkInside(i, c.size, cs);
    assert View(c, cs)[p] == ViewAt(c, cs, p) == At(c.temp, p);
    var blob, chunk := Pre(rows[i].sha), Chunk(View(c, cs), i, cs);
    assert chunk[p - Off(i, cs)] != blob[p - Off(i, cs)];
    assert Reused(i, |View(c, cs)|, cs, rows, Some(c.dirtyIdx)) && rows[i].sha != Hash(chunk);
  }

  lemma BaseRow(c: Core, cs: nat, rows: seq<Row>, i: nat)
    requires cs > 0 && Inv(c, cs, rows) && i < |c.base|
    ensures c.base[i].len == |Pre(c.base[i].sha)|
  {
    assert Look(Layout, 0);
  }

  lemma StorableIsReuse(c: Core, cs: nat, rows: seq<Row>)
    requires cs > 0 && Inv(c, cs, rows)
    ensures Storable(c, cs, rows) <==> ReuseAgrees(View(c, cs), cs, rows, Some(c.dirtyIdx))
  {
    if Coherent(c, cs) {
      StaleIsReuseMismatch(c, cs, rows);
    } else {
      assert Look(Coherence, 0);
      var p: nat :| !CoherentAt(c, cs, p);
      MisloadedMismatch(c, cs, rows, p);
    }
  }

  /** A flush stores exactly the file if and only if it is storable. */
  lemma FlushStoresView(c: Core, cs: nat, rows: seq<Row>)
    requires cs > 0 && Inv(c, cs, rows) && Tiles(rows)
    ensures Content(FlushRows(c, cs, rows)) == View(c, cs) <==> Storable(c, cs, rows)
  {
    FlushSource(c, cs, rows);
    StorableIsReuse(c, cs, rows);
    SparsePutRefinesFull(Resize(c.temp, c.size), View(c, cs), cs, rows, Some(c.dirtyIdx));
  }

  /**
    Chunk by chunk: one that is dirty or has no stored row of its offset and length is stored exactly, whatever happened
    before; so is a clean one below `base` as long as it is not loaded or holds its blob's bytes.
   */
  lemma FlushStoresChunk(c: Core, cs: nat, rows: seq<Row>, i: nat)
    requires cs > 0 && Inv(c, cs, rows) && i < Chunks(c.size, cs)
    ensures !Reused(i, c.size, cs, rows, Some(c.dirtyIdx)) ==> FlushRows(c, cs, rows)[i].sha == Hash(Chunk(View(c, cs), i, cs))
    ensures i in c.dirtyIdx ==> !Reused(i, c.size, cs, rows, Some(c.dirtyIdx))
    ensures i < |c.base| && i !in c.dirtyIdx && Coherent(c, cs) ==> FlushRows(c, cs, rows)[i].sha == Hash(Chunk(View(c, cs), i, cs))
    ensures i < |c.base| && i !in c.dirtyIdx && i !in c.loaded ==> FlushRows(c, cs, rows)[i].sha == Hash(Chunk(View(c, cs), i, cs))
  {
    FlushSource(c, cs, rows);
    if i < |c.base| && i !in c.dirtyIdx {
      CleanBaseReused(c, cs, rows, i);
      if Coherent(c, cs) {
        CleanBaseChunk(c, cs, rows, i);
      } else if i !in c.loaded {
        UnloadedChunk(c, cs, rows, i);
      }
    }
  }

  lemma UnloadedChunk(c: Core, cs: nat, rows: seq<Row>, i: nat)
    requires cs > 0 && Inv(c, cs, rows) && i < |c.base| && i !in c.dirtyIdx && i !in c.loaded
    ensures i < Chunks(c.size, cs) && Pre(c.base[i].sha) == Chunk(View(c, cs), i, cs)
  {
    CleanBaseReused(c, cs, rows, i);
    CleanBaseLen(c, cs, rows, i);
    ChunkInside(i, c.size, cs);
    var a, b := Pre(c.base[i].sha), Chunk(View(c, cs), i, cs);
    forall k | 0 <= k < |a|
      ensures a[k] == b[k]
    {
      IdxIs(Off(i, cs) + k, cs, i);
      assert View(c, cs)[Off(i, cs) + k] == ViewAt(c, cs, Off(i, cs) + k);
    }
    SameBytes(a, b);
  }

  lemma FlushedRow(c: Core, cs: nat, rows: seq<Row>, i: nat)
    requires cs > 0 && Inv(c, cs, rows) && Tiles(rows) && i < Chunks(c.size, cs)
    ensures var row := FlushRows(c, cs, rows)[i];
            && row.off == Off(i, cs) < c.size && 0 < row.len == |Pre(row.sha)| <= cs
            && row.len == Want(i, c.size, cs)
            && (i !in Flushed(c, cs, rows).loaded ==> i < |c.base| && row == c.base[i])
  {
    assert Look(Layout, 0);
    PutRowsAligned(Resize(c.temp, c.size), cs, rows, Some(c.dirtyIdx));
    ChunkInside(i, c.size, cs);
    if i !in Flushed(c, cs, rows).loaded {
      CleanBaseReused(c, cs, rows, i);
    }
  }

  lemma FlushedInv(c: Core, cs: nat, rows: seq<Row>)
    requires cs > 0 && Inv(c, cs, rows) && Tiles(rows)
    ensures Inv(Flushed(c, cs, rows), cs, FlushRows(c, cs, rows))
    ensures Backed(Flushed(c, cs, rows), cs)
  {
    var c', rows' := Flushed(c, cs, rows), FlushRows(c, cs, rows);
    forall i | 0 <= i < |rows'|
      ensures rows'[i].off == Off(i, cs) < c.size && 0 < rows'[i].len == |Pre(rows'[i].sha)| <= cs
      ensures rows'[i].len == Want(i, c.size, cs)
    {
      FlushedRow(c, cs, rows, i);
    }
    assert Shape(c', cs, rows');
  }

  lemma FlushByte(c: Core, cs: nat, rows: seq<Row>, p: nat)
    requires cs > 0 && Inv(c, cs, rows) && Tiles(rows) && p < c.size
    ensures ViewAt(Flushed(c, cs, rows), cs, p) == ViewAt(c, cs, p)
  {
    IdxBelow(p, c.size, cs);
    FlushedRow(c, cs, rows, Idx(p, cs));
  }

  /** The running state goes on standing for the same bytes, stale chunks or not. */
  lemma FlushKeepsView(c: Core, cs: nat, rows: seq<Row>)
    requires cs > 0 && Inv(c, cs, rows) && Tiles(rows)
    ensures Inv(Flushed(c, cs, rows), cs, FlushRows(c, cs, rows))
    ensures View(Flushed(c, cs, rows), cs) == View(c, cs)
    ensures Backed(Flushed(c, cs, rows), cs)
  {
    FlushedInv(c, cs, rows);
    var v, v' := View(c, cs), View(Flushed(c, cs, rows), cs);
    forall p | 0 <= p < c.size
      ensures v'[p] == v[p]
    {
      FlushByte(c, cs, rows, p);
    }
    SameBytes(v', v);
  }

  /** Clean chunks hold their blobs' bytes after a flush, ready for the next one, if and only if the file was storable. */
  lemma FlushCoherent(c: Core, cs: nat, rows: seq<Row>)
    requires cs > 0 && Inv(c, cs, rows) && Tiles(rows)
    ensures Coherent(Flushed(c, cs, rows), cs) <==> Storable(c, cs, rows)
  {
    assert Look(Coherence, 0);
    if Storable(c, cs, rows) {
      FlushStoresView(c, cs, rows);
      StoredCoherent(c, cs, rows);
    } else if !Coherent(c, cs) {
      var p: nat :| !CoherentAt(c, cs, p);
      MisloadedStays(c, cs, rows, p);
    } else {
      var i :| |c.base| <= i < |rows| && StaleAt(c, cs, rows, i);
      TilesRow(rows, i);
      InvBlank(c, cs, rows);
      StaleStays(c, cs, rows, i);
    }
  }

  lemma InvBlank(c: Core, cs: nat, rows: seq<Row>)
    requires cs > 0 && Inv(c, cs, rows)
    ensures Blank(c, cs, rows)
  {
    assert Look(Layout, 0);
  }

  lemma StoredCoherent(c: Core, cs: nat, rows: seq<Row>)
    requires cs > 0 && Inv(c, cs, rows) && Tiles(rows) && Content(FlushRows(c, cs, rows)) == View(c, cs)
    ensures Coherent(Flushed(c, cs, rows), cs)
  {
    var c', rows' := Flushed(c, cs, rows), FlushRows(c, cs, rows);
    PutRowsAligned(Resize(c.temp, c.size), cs, rows, Some(c.dirtyIdx));
    FlushKeepsView(c, cs, rows);
    forall p: nat
      ensures CoherentAt(c', cs, p)
    {
      var i := Idx(p, cs);
      if i < |rows'| && i in c'.loaded && p < Off(i, cs) + rows'[i].len {
        ChunkInside(i, c.size, cs);
        AlignedByte(rows', c.size, cs, p);
        assert View(c', cs)[p] == ViewAt(c', cs, p) == At(c'.temp, p);
      }
    }
  }

  lemma MisloadedStays(c: Core, cs: nat, rows: seq<Row>, p: nat)
    requires cs > 0 && Inv(c, cs, rows) && !CoherentAt(c, cs, p)
    ensures !CoherentAt(Flushed(c, cs, rows), cs, p)
  {
    var i, c' := Idx(p, cs), Flushed(c, cs, rows);
    CleanBaseReused(c, cs, rows, i);
    CleanBaseLen(c, cs, rows, i);
    BaseRow(c, cs, rows, i);
    ChunkInside(i, c.size, cs);
    assert c'.base[i] == rows[i] == c.base[i];
    assert At(c'.temp, p) == At(c.temp, p);
  }

  lemma NonZeroByte(a: Data) returns (k: nat)
    requires a != Zeros(|a|)
    ensures k < |a| && a[k] != 0
  {
    k :| 0 <= k < |a| && a[k] != Zeros(|a|)[k];
  }

  lemma StaleStays(c: Core, cs: nat, rows: seq<Row>, i: nat)
    requires cs > 0 && Blank(c, cs, rows) && StaleAt(c, cs, rows, i) && rows[i].len == |Pre(rows[i].sha)|
    ensures exists p: nat :: !CoherentAt(Flushed(c, cs, rows), cs, p)
  {
    var k := NonZeroByte(Pre(rows[i].sha));
    var p, c' := Off(i, cs) + k, Flushed(c, cs, rows);
    ChunkInside(i, c.size, cs);
    IdxIs(p, cs, i);
    assert At(c.temp, p) == 0 == At(c'.temp, p);
    assert c'.base[i] == rows[i];
    assert !CoherentAt(c', cs, p);
  }

  // ----- entering write mode ---------------------------------------------------------------

  /** The `aligned` test: stored rows sit on multiples of cs and all but the last are cs long. */
  predicate LooksAligned(rows: seq<Row>, cs: nat) {
    forall i :: 0 <= i < |rows| ==> rows[i].off == Off(i, cs) && (rows[i].len == cs || i == |rows| - 1)
  }

  /** The state that entering write mode builds over an empty temp file. */
  function Materialized(rows: seq<Row>, size: nat, cs: nat): Core {
    var c := Core(size, rows, {}, {}, []);
    if LooksAligned(rows, cs) then c
    else Core(size, [], {}, Range(0, |rows|), Load(c, 0, |rows|, {}).temp)
  }

  /** The test does not bound the last row: one stored chunk longer than the current chunk size slips through. */
  predicate LongTail(rows: seq<Row>, cs: nat) {
    rows != [] && LooksAligned(rows, cs) && rows[|rows| - 1].len > cs
  }

  /** Lists stored by put_file, at whatever chunk size, have a long tail only when they are a single row. */
  lemma LongTailIsSingle(rows: seq<Row>, size: nat, cs': nat, cs: nat)
    requires cs > 0 && cs' > 0 && Aligned(rows, size, cs')
    ensures LongTail(rows, cs) <==> |rows| == 1 && rows[0].len > cs
  {
    if |rows| > 1 {
      assert rows[1].off == Off(1, cs') == cs';
      assert Off(1, cs) == cs;
    }
    if |rows| == 1 {
      assert Off(0, cs) == 0 == Off(0, cs');
    }
  }

  lemma {:induction false} LoadsContent(rows: seq<Row>, size: nat, k: nat)
    requires Tiles(rows) && k <= |rows|
    ensures Load(Core(size, rows, {}, {}, []), 0, k, {}).temp == Upto(rows, k)
    decreases k
  {
    if k > 0 {
      LoadsContent(rows, size, k - 1);
      var c := Core(size, rows, {}, {}, []);
      assert Needed(c, k - 1, {});
      assert Load(c, 0, k, {}) == LoadOne(Load(c, 0, k - 1, {}), k - 1);
      WriteAtEnd(Upto(rows, k - 1), Pre(rows[k - 1].sha));
    }
  }

  lemma WriteAtEnd(f: Data, d: Data)
    ensures WriteAt(f, |f|, d) == f + d
  {
    var g := WriteAt(f, |f|, d);
    forall p | 0 <= p < |g|
      ensures g[p] == (f + d)[p]
    {
      assert g[p] == At(g, p);
    }
  }

  lemma MaterializeAligned(rows: seq<Row>, size: nat, cs: nat)
    requires cs > 0 && Tiles(rows) && size == |Content(rows)| && Aligned(rows, size, cs)
    ensures var c := Core(size, rows, {}, {}, []);
            Shape(c, cs, rows) && Reaches(c, cs) && View(c, cs) == Content(rows)
  {
    var c := Core(size, rows, {}, {}, []);
    var v := View(c, cs);
    forall p | 0 <= p < size
      ensures v[p] == Content(rows)[p]
    {
      AlignedByte(rows, size, cs, p);
      assert v[p] == ViewAt(c, cs, p);
    }
    SameBytes(v, Content(rows));
    forall i | 0 <= i < |rows|
      ensures rows[i].off == Off(i, cs) < size && 0 < rows[i].len <= cs
    {
      ChunkInside(i, size, cs);
    }
  }

  lemma MaterializeMisaligned(rows: seq<Row>, size: nat, cs: nat, temp: Data)
    requires cs > 0 && size == |Content(rows)| && temp == Content(rows)
    ensures var c := Core(size, [], {}, Range(0, |rows|), temp);
            Shape(c, cs, rows) && Reaches(c, cs) && View(c, cs) == Content(rows)
  {
    var c := Core(size, [], {}, Range(0, |rows|), temp);
    var v := View(c, cs);
    forall p | 0 <= p < size
      ensures v[p] == temp[p]
    {
      assert v[p] == ViewAt(c, cs, p);
    }
    SameBytes(v, temp);
  }

  /** Entering write mode stands for what is stored, unless the stored list has a long tail. */
  lemma MaterializeKeeps(rows: seq<Row>, size: nat, cs: nat)
    requires cs > 0 && Tiles(rows) && size == |Content(rows)| && !LongTail(rows, cs)
    ensures var c := Materialized(rows, size, cs);
            Inv(c, cs, rows) && Coherent(c, cs) && Backed(c, cs) && View(c, cs) == Content(rows)
  {
    var c := Materialized(rows, size, cs);
    if LooksAligned(rows, cs) {
      AlignedFromTest(rows, size, cs);
      MaterializeAligned(rows, size, cs);
    } else {
      LoadsContent(rows, size, |rows|);
      MaterializeMisaligned(rows, size, cs, c.temp);
    }
  }

  lemma TilesEnd(rows: seq<Row>)
    requires Tiles(rows) && rows != []
    ensures rows[|rows| - 1].off + rows[|rows| - 1].len == |Content(rows)|
  {
  }

  lemma LastRow(rows: seq<Row>, cs: nat) returns (last: Row)
    requires LooksAligned(rows, cs) && rows != []
    ensures last == rows[|rows| - 1] && last.off == Off(|rows| - 1, cs)
  {
    last := rows[|rows| - 1];
  }

  lemma TestSizes(rows: seq<Row>, size: nat, cs: nat)
    requires cs > 0 && Tiles(rows) && size == |Content(rows)| && LooksAligned(rows, cs) && rows != []
    ensures size == Off(|rows| - 1, cs) + rows[|rows| - 1].len
  {
    TilesEnd(rows);
    var last := LastRow(rows, cs);
  }

  lemma OffEnd(n: nat, cs: nat)
    requires n > 0
    ensures Off(n, cs) == Off(n - 1, cs) + cs
  {
    OffShift(n - 1, cs);
  }

  lemma AlignedFromTest(rows: seq<Row>, size: nat, cs: nat)
    requires cs > 0 && Tiles(rows) && size == |Content(rows)| && LooksAligned(rows, cs) && !LongTail(rows, cs)
    ensures Aligned(rows, size, cs)
  {
    if rows != [] {
      TestSizes(rows, size, cs);
      RowLen(rows, |rows| - 1);
      TestCount(size, cs, |rows|, rows[|rows| - 1].len);
      forall i | 0 <= i < |rows|
        ensures rows[i].off == Off(i, cs) && rows[i].len == Want(i, size, cs) == |Pre(rows[i].sha)|
      {
        LookRow(rows, cs, i);
        RowLen(rows, i);
        TestRow(rows[i], i, |rows|, size, cs, rows[|rows| - 1].len);
      }
    }
  }

  lemma LookRow(rows: seq<Row>, cs: nat, i: nat)
    requires LooksAligned(rows, cs) && i < |rows|
    ensures rows[i].off == Off(i, cs) && (i < |rows| - 1 ==> rows[i].len == cs)
  {
  }

  lemma RowLen(rows: seq<Row>, i: nat)
    requires Tiles(rows) && i < |rows|
    ensures rows[i].len == |Pre(rows[i].sha)| > 0
  {
  }

  lemma TestCount(size: nat, cs: nat, n: nat, last: nat)
    requires cs > 0 && n > 0 && 0 < last <= cs && size == Off(n - 1, cs) + last
    ensures Chunks(size, cs) == n
  {
    OffShift(n - 1, cs);
    ChunksIs(size, cs, n);
  }

  lemma TestRow(row: Row, i: nat, n: nat, size: nat, cs: nat, last: nat)
    requires cs > 0 && i < n && size == Off(n - 1, cs) + last && 0 < last <= cs
    requires row.len == if i == n - 1 then last else cs
    ensures row.len == Want(i, size, cs)
  {
    if i < n - 1 {
      OffGap(i, n - 1, cs);
    }
  }

  /** Reads after entering write mode return the stored bytes, for all ranges, exactly when there is no long tail. */
  lemma MaterializeFaithful(rows: seq<Row>, size: nat, cs: nat)
    requires cs > 0 && Tiles(rows) && size == |Content(rows)|
    ensures !LongTail(rows, cs) <==>
            forall offset: nat, n: nat ::
              ReadBytes(Materialized(rows, size, cs), cs, offset, n) == Slice(Content(rows), offset, offset + n)
  {
    var c := Materialized(rows, size, cs);
    if !LongTail(rows, cs) {
      MaterializeKeeps(rows, size, cs);
      forall offset: nat, n: nat
        ensures ReadBytes(c, cs, offset, n) == Slice(Content(rows), offset, offset + n)
      {
        ReadRefines(c, cs, rows, offset, n);
      }
    } else {
      LongTailShort(rows, size, cs);
    }
  }

  /** The first byte past cs of a long tail is never loaded: reading it returns nothing. */
  lemma LongTailShort(rows: seq<Row>, size: nat, cs: nat)
    requires cs > 0 && Tiles(rows) && size == |Content(rows)| && LongTail(rows, cs)
    ensures Off(|rows|, cs) < size
    ensures ReadBytes(Materialized(rows, size, cs), cs, Off(|rows|, cs), 1) == []
    ensures |Slice(Content(rows), Off(|rows|, cs), Off(|rows|, cs) + 1)| == 1
  {
    TestSizes(rows, size, cs);
    OffEnd(|rows|, cs);
    IdxIs(Off(|rows|, cs), cs, |rows|);
    ShortRead(Materialized(rows, size, cs), cs, Off(|rows|, cs));
  }
}
