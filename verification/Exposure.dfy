/** Chunks that were cut off and have come back: the only way clean data can differ from what a flush keeps for it. */
module Exposure {
  import opened Bytes
  import opened Blobs
  import opened Plan
  import opened SparseFile
  import opened FlushFile

  /** Chunk i was cut off and is inside the file again, not rewritten since, while the store still has a row at its place. */
  predicate Exposed(c: Core, cs: nat, rows: seq<Row>, i: nat)
    requires cs > 0
  {
    |c.base| <= i < |rows| && i !in c.dirtyIdx && rows[i].off == Off(i, cs) < c.size
  }

  predicate Tight(c: Core, cs: nat, rows: seq<Row>)
    requires cs > 0
  {
    forall i :: |c.base| <= i < |rows| ==> !Exposed(c, cs, rows, i)
  }

  /** A file of `size` bytes has no gap to fill up to `start` that could bring stored bytes back. */
  predicate Seamless(size: nat, stored: nat, start: nat) {
    start <= size || stored <= size
  }

  /** The row passes for chunk i of a file of `size` bytes, and is not all zeros. */
  predicate Reverts(row: Row, i: nat, size: nat, cs: nat)
    requires cs > 0
  {
    row.off == Off(i, cs) < size && row.len == Want(i, size, cs) && row.sha != Hash(Zeros(row.len))
  }

  /** A chunk is stale if and only if it is exposed and its row passes for it. */
  lemma StaleIsExposed(c: Core, cs: nat, rows: seq<Row>, i: nat)
    requires cs > 0 && i < |rows|
    ensures StaleAt(c, cs, rows, i) <==> Exposed(c, cs, rows, i) && Reverts(rows[i], i, c.size, cs)
  {
    KeptChunks(c.size, cs, i);
  }

  lemma TightNotStale(c: Core, cs: nat, rows: seq<Row>)
    requires cs > 0 && Tight(c, cs, rows)
    ensures !Stale(c, cs, rows)
  {
    forall i | |c.base| <= i < |rows|
      ensures !StaleAt(c, cs, rows, i)
    {
      StaleIsExposed(c, cs, rows, i);
    }
  }

  /** The temp file has no part in what is stale or exposed. */
  lemma TightSame(c: Core, c': Core, cs: nat, rows: seq<Row>)
    requires cs > 0 && |c'.base| == |c.base| && c'.size == c.size && c'.dirtyIdx == c.dirtyIdx
    ensures Stale(c', cs, rows) == Stale(c, cs, rows) && Tight(c', cs, rows) == Tight(c, cs, rows)
  {
    assert forall i :: |c.base| <= i < |rows| ==> Exposed(c', cs, rows, i) == Exposed(c, cs, rows, i);
    assert forall i :: |c.base| <= i < |rows| ==> StaleAt(c', cs, rows, i) == StaleAt(c, cs, rows, i);
  }

  lemma MaterializedTight(rows: seq<Row>, size: nat, cs: nat)
    requires cs > 0
    ensures Tight(Materialized(rows, size, cs), cs, rows)
  {
  }

  /** A stored row starts inside what is stored. */
  lemma RowInside(rows: seq<Row>, i: nat)
    requires Tiles(rows) && i < |rows|
    ensures rows[i].off < |Content(rows)|
  {
    TilesRow(rows, i);
  }

  /** A write exposes nothing, unless it leaves a gap behind the end of a file that is longer in the store. */
  lemma WriteTight(c: Core, cs: nat, rows: seq<Row>, data: Data, off: nat)
    requires cs > 0 && Inv(c, cs, rows) && Tiles(rows) && Tight(c, cs, rows) && Seamless(c.size, |Content(rows)|, off)
    ensures Tight(Write(c, cs, data, off), cs, rows)
  {
    var c' := Write(c, cs, data, off);
    ReadyInv(c, cs, rows, data, off);
    forall i | |c.base| <= i < |rows|
      ensures !Exposed(c', cs, rows, i)
    {
      assert !Exposed(c, cs, rows, i);
      RowInside(rows, i);
      InDirtied(cs, off, data, Off(i, cs));
      IdxIs(Off(i, cs), cs, i);
    }
  }

  lemma GrowTight(c: Core, cs: nat, rows: seq<Row>, length: nat)
    requires cs > 0 && Inv(c, cs, rows) && Tiles(rows) && Tight(c, cs, rows) && c.size < length && |Content(rows)| <= c.size
    ensures Tight(Truncate(c, cs, length), cs, rows)
  {
    GrowKeeps(c, cs, rows, length);
    forall i | |c.base| <= i < |rows|
      ensures !Exposed(Truncate(c, cs, length), cs, rows, i)
    {
      assert !Exposed(c, cs, rows, i);
      RowInside(rows, i);
    }
  }

  /** A shrink cuts chunks off, but exposes none. */
  lemma ShrinkTight(c: Core, cs: nat, rows: seq<Row>, length: nat)
    requires cs > 0 && Inv(c, cs, rows) && Tight(c, cs, rows) && length < c.size
    ensures Tight(Truncate(c, cs, length), cs, rows)
  {
    var c' := Truncate(c, cs, length);
    CutDirties(c, cs, length);
    forall i | |c'.base| <= i < |rows|
      ensures !Exposed(c', cs, rows, i)
    {
      KeptChunks(length, cs, i);
      if |c.base| <= i {
        assert !Exposed(c, cs, rows, i);
      }
    }
  }

  lemma CutDirties(c: Core, cs: nat, length: nat)
    requires cs > 0
    ensures var c1 := Cut(c, cs, length); c1.base == c.base && c.dirtyIdx <= c1.dirtyIdx
    ensures forall i :: i in Cut(c, cs, length).dirtyIdx ==> i in c.dirtyIdx || i < |c.base|
  {
    var b := Idx(length, cs);
    if length % cs != 0 && b < |c.base| {
      LoadDirties(c, b, b + 1, {});
    }
  }

  /** Loading makes nothing dirty. */
  lemma {:induction false} LoadDirties(c: Core, lo: nat, hi: nat, skip: set<nat>)
    ensures Load(c, lo, hi, skip).dirtyIdx == c.dirtyIdx && Load(c, lo, hi, skip).size == c.size
    decreases hi
  {
    if lo < hi {
      LoadDirties(c, lo, hi - 1, skip);
    }
  }

  /** A truncate exposes nothing, unless it grows a file that is longer in the store. */
  lemma TruncateTight(c: Core, cs: nat, rows: seq<Row>, length: nat)
    requires cs > 0 && Inv(c, cs, rows) && Tiles(rows) && Tight(c, cs, rows) && Seamless(c.size, |Content(rows)|, length)
    ensures Tight(Truncate(c, cs, length), cs, rows)
  {
    if length < c.size {
      ShrinkTight(c, cs, rows, length);
    } else if c.size < length {
      GrowTight(c, cs, rows, length);
    } else {
      assert Grow(c, cs, length) == c;
      assert forall i :: |c.base| <= i < |rows| ==> Exposed(Truncate(c, cs, length), cs, rows, i) == Exposed(c, cs, rows, i);
    }
  }
}
