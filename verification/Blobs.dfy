/** Content addresses, the chunk rows of a file, and what a chunk list means. */
module Blobs {
  import opened Bytes

  /** A digest. Wrapping the hashed bytes is the freest injective function there is; code only compares digests. */
  datatype Sha = Digest(preimage: Data)

  function Hash(data: Data): Sha {
    Digest(data)
  }

  /** The bytes a digest stands for. */
  function Pre(sha: Sha): Data {
    sha.preimage
  }

  /** A row of the chunks table; its idx is its position in the list. */
  datatype Row = Row(off: nat, len: nat, sha: Sha)

  function Shas(rows: seq<Row>): (s: seq<Sha>)
    ensures |s| == |rows| && forall i :: 0 <= i < |rows| ==> s[i] == rows[i].sha
  {
    seq(|rows|, i requires 0 <= i < |rows| => rows[i].sha)
  }

  /** The bytes of the first k chunks. */
  function Upto(rows: seq<Row>, k: nat): Data
    requires k <= |rows|
  {
    if k == 0 then [] else Upto(rows, k - 1) + Pre(rows[k - 1].sha)
  }

  /** The bytes a chunk list stands for. */
  function Content(rows: seq<Row>): Data {
    Upto(rows, |rows|)
  }

  /** Rows are contiguous from 0 and record the true, positive length of their blob. */
  ghost predicate Tiles(rows: seq<Row>) {
    forall i :: 0 <= i < |rows| ==> rows[i].off == |Upto(rows, i)| && rows[i].len == |Pre(rows[i].sha)| > 0
  }

  /** Every row starts on a multiple of cs and all but the last hold exactly cs bytes (which the last may not exceed). */
  ghost predicate Aligned(rows: seq<Row>, size: nat, cs: nat)
    requires cs > 0
  {
    && |rows| == Chunks(size, cs)
    && forall i :: 0 <= i < |rows| ==>
         rows[i].off == Off(i, cs) && rows[i].len == Want(i, size, cs) == |Pre(rows[i].sha)|
  }

  /** Length of chunk i of a file of `size` bytes. */
  function Want(i: nat, size: nat, cs: nat): (w: int)
    ensures Off(i, cs) + cs <= size ==> w == cs
    ensures Off(i, cs) + cs > size ==> w == size - Off(i, cs)
  {
    Min(cs, size - Off(i, cs))
  }

  // ----- meaning of a contiguous list ------------------------------------------------------

  lemma {:induction false} UptoPrefix(rows: seq<Row>, i: nat, j: nat)
    requires i <= j <= |rows|
    ensures |Upto(rows, i)| <= |Upto(rows, j)|
    ensures Upto(rows, i) == Upto(rows, j)[..|Upto(rows, i)|]
    decreases j
  {
    if i < j {
      UptoPrefix(rows, i, j - 1);
    }
  }

  /** Row i of a contiguous list contributes the bytes [off, off + len). */
  lemma TilesRow(rows: seq<Row>, i: nat)
    requires Tiles(rows) && i < |rows|
    ensures rows[i].len == |Pre(rows[i].sha)| > 0
    ensures rows[i].off + rows[i].len <= |Content(rows)|
    ensures Content(rows)[rows[i].off..rows[i].off + rows[i].len] == Pre(rows[i].sha)
  {
    UptoPrefix(rows, i + 1, |rows|);
    SubSlice(Content(rows), Upto(rows, i), Pre(rows[i].sha));
  }

  lemma SubSlice(all: Data, a: Data, b: Data)
    requires |a + b| <= |all| && a + b == all[..|a + b|]
    ensures all[|a|..|a| + |b|] == b
  {
    assert (a + b)[|a|..] == b;
    assert all[..|a| + |b|][|a|..] == all[|a|..|a| + |b|];
  }

  lemma {:induction false} AlignedUpto(rows: seq<Row>, size: nat, cs: nat, k: nat)
    requires cs > 0 && Aligned(rows, size, cs) && k <= |rows|
    ensures |Upto(rows, k)| == if k < |rows| then Off(k, cs) else size
    decreases k
  {
    if k > 0 {
      AlignedUpto(rows, size, cs, k - 1);
      OffShift(k - 1, cs);
      if k < |rows| - 1 {
        OffGap(k, |rows| - 1, cs);
      }
    }
  }

  /** A chunk list laid out at cs is contiguous and stands for exactly `size` bytes. */
  lemma AlignedTiles(rows: seq<Row>, size: nat, cs: nat)
    requires cs > 0 && Aligned(rows, size, cs)
    ensures Tiles(rows)
    ensures |Content(rows)| == size
  {
    forall k | 0 <= k < |rows|
      ensures |Upto(rows, k)| == Off(k, cs)
      ensures rows[k].len > 0
    {
      AlignedUpto(rows, size, cs, k);
      if k < |rows| - 1 {
        OffGap(k, |rows| - 1, cs);
      }
    }
    AlignedUpto(rows, size, cs, |rows|);
  }

  /** Byte p of a file laid out at cs sits in row p / cs. */
  lemma AlignedByte(rows: seq<Row>, size: nat, cs: nat, p: nat)
    requires cs > 0 && Aligned(rows, size, cs) && p < size
    ensures |Content(rows)| == size && Idx(p, cs) < |rows|
    ensures Content(rows)[p] == At(Pre(rows[Idx(p, cs)].sha), p - Off(Idx(p, cs), cs))
  {
    AlignedTiles(rows, size, cs);
    IdxBelow(p, size, cs);
    var i := Idx(p, cs);
    TilesRow(rows, i);
    SliceByte(Content(rows), rows[i].off, rows[i].len, p);
  }

  lemma SliceByte(f: Data, o: nat, n: nat, p: nat)
    requires o + n <= |f| && o <= p < o + n
    ensures f[p] == At(f[o..o + n], p - o)
  {
  }

  lemma {:induction false} UptoAppend(rows: seq<Row>, row: Row, k: nat)
    requires k <= |rows|
    ensures Upto(rows + [row], k) == Upto(rows, k)
    decreases k
  {
    if k > 0 {
      UptoAppend(rows, row, k - 1);
    }
  }
}
