/** The chunk list that put_file computes, and when it stands for the intended bytes. */
module Plan {
  import opened Bytes
  import opened Blobs

  /** The test by which put_file keeps a stored row instead of reading the source. */
  predicate Reused(i: nat, size: nat, cs: nat, was: seq<Row>, dirty: Option<set<nat>>)
    requires cs > 0
  {
    dirty.Some? && i !in dirty.value && i < |was| && was[i].off == Off(i, cs) && was[i].len == Want(i, size, cs)
  }

  lemma ChunkInside(i: nat, size: nat, cs: nat)
    requires cs > 0 && i < Chunks(size, cs)
    ensures Off(i, cs) < size
    ensures 0 < Want(i, size, cs) && Off(i, cs) + Want(i, size, cs) <= size
  {
    var k := Chunks(size, cs) - 1;
    if i < k {
      OffGap(i, k, cs);
    }
  }

  /** The bytes of chunk i of `src`. */
  ghost function Chunk(src: Data, i: nat, cs: nat): (d: Data)
    requires cs > 0 && i < Chunks(|src|, cs)
    ensures |d| == Want(i, |src|, cs) > 0
  {
    ChunkInside(i, |src|, cs);
    src[Off(i, cs)..Off(i, cs) + Want(i, |src|, cs)]
  }

  ghost function PlanRow(src: Data, cs: nat, was: seq<Row>, dirty: Option<set<nat>>, i: nat): (r: Row)
    requires cs > 0 && i < Chunks(|src|, cs)
    ensures r.off == Off(i, cs) && r.len == Want(i, |src|, cs)
  {
    if Reused(i, |src|, cs, was, dirty) then was[i]
    else
      ChunkInside(i, |src|, cs);
      Row(Off(i, cs), Want(i, |src|, cs), Hash(Chunk(src, i, cs)))
  }

  ghost function PutRows(src: Data, cs: nat, was: seq<Row>, dirty: Option<set<nat>>): (rows: seq<Row>)
    requires cs > 0
    ensures |rows| == Chunks(|src|, cs)
    ensures forall i :: 0 <= i < |rows| ==> rows[i] == PlanRow(src, cs, was, dirty, i)
  {
    seq(Chunks(|src|, cs), i requires 0 <= i < Chunks(|src|, cs) => PlanRow(src, cs, was, dirty, i))
  }

  /** Whatever is reused, the new list is laid out at the current chunk size and covers the file. */
  lemma PutRowsAligned(src: Data, cs: nat, was: seq<Row>, dirty: Option<set<nat>>)
    requires cs > 0 && Tiles(was)
    ensures Aligned(PutRows(src, cs, was, dirty), |src|, cs)
    ensures Tiles(PutRows(src, cs, was, dirty)) && |Content(PutRows(src, cs, was, dirty))| == |src|
  {
    var rows := PutRows(src, cs, was, dirty);
    forall i | 0 <= i < |rows|
      ensures rows[i].off == Off(i, cs) && rows[i].len == Want(i, |src|, cs) == |Pre(rows[i].sha)|
    {
      if Reused(i, |src|, cs, was, dirty) {
        TilesRow(was, i);
      }
    }
    AlignedTiles(rows, |src|, cs);
  }

  lemma SameRow(a: seq<Row>, b: seq<Row>, i: nat, content: Data)
    requires Tiles(a) && Tiles(b) && i < |a| && i < |b|
    requires content == Content(a) && content == Content(b)
    requires a[i].off == b[i].off && a[i].len == b[i].len
    ensures a[i] == b[i]
  {
    TilesRow(a, i);
    TilesRow(b, i);
    var o, n := a[i].off, a[i].len;
    assert content[o..o + n] == Pre(a[i].sha);
    assert content[o..o + n] == Pre(b[i].sha);
  }

  /** Two lists of the same layout stand for the same bytes exactly when they agree row by row. */
  lemma AlignedInjective(a: seq<Row>, b: seq<Row>, size: nat, cs: nat)
    requires cs > 0 && Aligned(a, size, cs) && Aligned(b, size, cs)
    requires Content(a) == Content(b)
    ensures a == b
  {
    var content := Content(a);
    AlignedTiles(a, size, cs);
    AlignedTiles(b, size, cs);
    forall i | 0 <= i < |a|
      ensures a[i] == b[i]
    {
      SameRow(a, b, i, content);
    }
  }

  lemma ChunkByte(src: Data, cs: nat, p: nat)
    requires cs > 0 && p < |src|
    ensures Idx(p, cs) < Chunks(|src|, cs)
    ensures At(Chunk(src, Idx(p, cs), cs), p - Off(Idx(p, cs), cs)) == src[p]
  {
    IdxBelow(p, |src|, cs);
  }

  /** Bytes laid out at cs are the bytes whose chunks are the rows' blobs. */
  lemma AlignedStores(rows: seq<Row>, view: Data, cs: nat)
    requires cs > 0 && Aligned(rows, |view|, cs)
    requires forall i :: 0 <= i < |rows| ==> Pre(rows[i].sha) == Chunk(view, i, cs)
    ensures Content(rows) == view
  {
    AlignedTiles(rows, |view|, cs);
    forall p | 0 <= p < |view|
      ensures Content(rows)[p] == view[p]
    {
      AlignedByte(rows, |view|, cs, p);
      ChunkByte(view, cs, p);
    }
    SameBytes(Content(rows), view);
  }

  /** Storing everything afresh stores the bytes given. */
  lemma PutRowsFull(src: Data, cs: nat, was: seq<Row>)
    requires cs > 0
    ensures Aligned(PutRows(src, cs, was, None), |src|, cs)
    ensures Content(PutRows(src, cs, was, None)) == src
  {
    AlignedStores(PutRows(src, cs, was, None), src, cs);
  }

  /** A reused row holds the bytes that `view` has in that chunk. */
  ghost predicate ReuseAgrees(view: Data, cs: nat, was: seq<Row>, dirty: Option<set<nat>>)
    requires cs > 0
  {
    forall i :: 0 <= i < |was| && i < Chunks(|view|, cs) && Reused(i, |view|, cs, was, dirty)
      ==> was[i].sha == Hash(Chunk(view, i, cs))
  }

  /** The source carries the bytes of `view` in every chunk that put_file will read from it. */
  ghost predicate SourceAgrees(src: Data, view: Data, cs: nat, was: seq<Row>, dirty: Option<set<nat>>)
    requires cs > 0
  {
    |src| == |view| &&
    forall i :: 0 <= i < Chunks(|view|, cs) && !Reused(i, |view|, cs, was, dirty)
      ==> Chunk(src, i, cs) == Chunk(view, i, cs)
  }

  /**
    With a dirty set and a sparse source, put_file builds the rows that storing all of `view` would build
    (and so stores `view`) if and only if every reused row already agrees with `view`.
   */
  lemma SparsePutRefinesFull(src: Data, view: Data, cs: nat, was: seq<Row>, dirty: Option<set<nat>>)
    requires cs > 0 && Tiles(was) && SourceAgrees(src, view, cs, was, dirty)
    ensures ReuseAgrees(view, cs, was, dirty) <==> PutRows(src, cs, was, dirty) == PutRows(view, cs, was, None)
    ensures ReuseAgrees(view, cs, was, dirty) <==> Content(PutRows(src, cs, was, dirty)) == view
  {
    var sparse, full := PutRows(src, cs, was, dirty), PutRows(view, cs, was, None);
    PutRowsAligned(src, cs, was, dirty);
    PutRowsFull(view, cs, was);
    if Content(sparse) == view {
      AlignedInjective(sparse, full, |view|, cs);
    }
    if sparse == full {
      forall i | 0 <= i < |was| && i < Chunks(|view|, cs) && Reused(i, |view|, cs, was, dirty)
        ensures was[i].sha == Hash(Chunk(view, i, cs))
      {
        assert sparse[i] == full[i];
      }
    }
    if ReuseAgrees(view, cs, was, dirty) {
      forall i | 0 <= i < |sparse|
        ensures sparse[i] == full[i]
      {
        if Reused(i, |view|, cs, was, dirty) {
          assert was[i].sha == Hash(Chunk(view, i, cs));
        }
      }
    }
  }
}
