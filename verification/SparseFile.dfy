/**
  What the fields of a write-mode file state mean: one plain byte array. The steps of the writeback code are
  written here as functions on those fields; the lemmas say what each does to the array.
 */
module SparseFile {
  import opened Bytes
  import opened Blobs
  import opened Plan

  /** Fields of _FileState in write mode; `temp` is the content of the sparse temp file. */
  datatype Core = Core(size: nat, base: seq<Row>, loaded: set<nat>, dirtyIdx: set<nat>, temp: Data)

  /** Byte p: from the stored blob while its base chunk is not loaded, otherwise from the temp file. */
  ghost function ViewAt(c: Core, cs: nat, p: nat): Byte
    requires cs > 0
  {
    var i := Idx(p, cs);
    if i < |c.base| && i !in c.loaded then At(Pre(c.base[i].sha), p - Off(i, cs)) else At(c.temp, p)
  }

  /** The byte array the state stands for. */
  ghost function View(c: Core, cs: nat): (v: Data)
    requires cs > 0
    ensures |v| == c.size && forall p :: 0 <= p < c.size ==> v[p] == ViewAt(c, cs, p)
  {
    seq(c.size, p requires 0 <= p < c.size => ViewAt(c, cs, p))
  }

  /** Structural invariant; `rows` are the inode's rows in the metadata. */
  ghost predicate Inv(c: Core, cs: nat, rows: seq<Row>)
    requires cs > 0
  {
    forall k: nat {:trigger Look(Layout, k)} :: Look(Layout, k) ==> Shape(c, cs, rows)
  }

  ghost predicate Shape(c: Core, cs: nat, rows: seq<Row>)
    requires cs > 0
  {
    && c.base <= rows
    && (forall i :: 0 <= i < |c.base| ==>
          c.base[i].off == Off(i, cs) < c.size && 0 < c.base[i].len == |Pre(c.base[i].sha)| <= cs)
    && (forall i :: 0 <= i < |c.base| && i in c.dirtyIdx ==> i in c.loaded)
    && (forall i :: 0 <= i < |c.base| && i !in c.dirtyIdx ==> c.base[i].len == Want(i, c.size, cs))
    && |c.temp| <= c.size
    && Blank(c, cs, rows)
  }

  /** A stored row beyond `base` whose index is not dirty belongs to a chunk that was cut off: it reads as zeros now. */
  ghost predicate Blank(c: Core, cs: nat, rows: seq<Row>)
    requires cs > 0
  {
    forall p: nat :: |c.base| <= Idx(p, cs) < |rows| && Idx(p, cs) !in c.dirtyIdx ==> At(c.temp, p) == 0
  }

  /** Byte p, if it lies in a clean loaded chunk, is as stored. */
  ghost predicate CoherentAt(c: Core, cs: nat, p: nat)
    requires cs > 0
  {
    var i := Idx(p, cs);
    i < |c.base| && i in c.loaded && i !in c.dirtyIdx && p < Off(i, cs) + c.base[i].len
    ==> At(c.temp, p) == At(Pre(c.base[i].sha), p - Off(i, cs))
  }

  /** Every clean loaded chunk has the bytes of its blob. */
  ghost predicate Coherent(c: Core, cs: nat)
    requires cs > 0
  {
    forall k: nat {:trigger Look(Coherence, k)} :: Look(Coherence, k) ==> forall p: nat :: CoherentAt(c, cs, p)
  }

  /** The temp file is long enough that no read of loaded or new bytes is cut short. */
  ghost predicate Backed(c: Core, cs: nat)
    requires cs > 0
  {
    forall k: nat {:trigger Look(Backing, k)} :: Look(Backing, k) ==> Reaches(c, cs)
  }

  ghost predicate Reaches(c: Core, cs: nat)
    requires cs > 0
  {
    && (forall i :: 0 <= i < |c.base| && i in c.loaded ==> |c.temp| >= Min(Off(i, cs) + cs, c.size))
    && (Off(|c.base|, cs) < c.size ==> |c.temp| == c.size)
  }

  /** c' stands for the same bytes as c, with at most more chunks loaded. */
  ghost predicate SameView(c: Core, c': Core, cs: nat)
    requires cs > 0
  {
    && c'.size == c.size && c'.base == c.base && c'.dirtyIdx == c.dirtyIdx && c.loaded <= c'.loaded
    && |c.temp| <= |c'.temp|
    && forall p: nat :: p < c.size ==> ViewAt(c', cs, p) == ViewAt(c, cs, p)
  }

  // ----- loading ---------------------------------------------------------------------------

  function LoadOne(c: Core, i: nat): Core
    requires i < |c.base|
  {
    c.(temp := WriteAt(c.temp, c.base[i].off, Pre(c.base[i].sha)), loaded := c.loaded + {i})
  }

  /** Whether loading a range pulls in chunk i. */
  predicate Needed(c: Core, i: nat, skip: set<nat>) {
    i < |c.base| && i !in c.loaded && i !in skip
  }

  function Load(c: Core, lo: nat, hi: nat, skip: set<nat>): (c': Core)
    ensures c'.base == c.base
    decreases hi
  {
    if hi <= lo then c
    else if Needed(c, hi - 1, skip) then LoadOne(Load(c, lo, hi - 1, skip), hi - 1)
    else Load(c, lo, hi - 1, skip)
  }

  /** Loading chunk i touches only bytes of chunk i, and gives them their stored values. */
  lemma LoadOneByte(c: Core, cs: nat, i: nat, p: nat)
    requires cs > 0 && i < |c.base| && c.base[i].off == Off(i, cs) && c.base[i].len == |Pre(c.base[i].sha)| <= cs
    ensures At(LoadOne(c, i).temp, p) ==
            if Idx(p, cs) == i && p < Off(i, cs) + c.base[i].len then At(Pre(c.base[i].sha), p - Off(i, cs)) else At(c.temp, p)
  {
    if Off(i, cs) <= p < Off(i, cs) + c.base[i].len {
      IdxIs(p, cs, i);
    }
  }

  lemma LoadOneView(c: Core, cs: nat, rows: seq<Row>, i: nat)
    requires cs > 0 && Inv(c, cs, rows) && i < |c.base| && i !in c.loaded
    ensures SameView(c, LoadOne(c, i), cs)
    ensures forall p: nat :: CoherentAt(c, cs, p) ==> CoherentAt(LoadOne(c, i), cs, p)
  {
    assert Look(Layout, 0);
    assert c.base[i].len == Want(i, c.size, cs);
    forall p: nat {
      LoadOneByte(c, cs, i, p);
    }
  }

  lemma LoadOneInv(c: Core, cs: nat, rows: seq<Row>, i: nat)
    requires cs > 0 && Inv(c, cs, rows) && i < |c.base| && i !in c.loaded
    ensures Inv(LoadOne(c, i), cs, rows)
  {
    assert Look(Layout, 0);
    assert c.base[i].len == Want(i, c.size, cs);
    forall p: nat {
      LoadOneByte(c, cs, i, p);
    }
  }

  lemma SameViewTrans(a: Core, b: Core, c: Core, cs: nat)
    requires cs > 0 && SameView(a, b, cs) && SameView(b, c, cs)
    ensures SameView(a, c, cs)
  {
    forall p: nat | p < a.size
      ensures ViewAt(c, cs, p) == ViewAt(a, cs, p)
    {
      assert ViewAt(b, cs, p) == ViewAt(a, cs, p);
    }
  }

  /** Loading a range leaves exactly its base chunks loaded in addition, and the temp file reaches over them. */
  lemma {:induction false} LoadLoaded(c: Core, cs: nat, rows: seq<Row>, lo: nat, hi: nat, skip: set<nat>)
    requires cs > 0 && Inv(c, cs, rows)
    ensures var c' := Load(c, lo, hi, skip);
            && (forall i :: i in c'.loaded <==> i in c.loaded || (lo <= i < hi && Needed(c, i, skip)))
            && (forall i :: i in c'.loaded && i !in c.loaded ==> |c'.temp| >= Min(Off(i, cs) + cs, c.size))
    decreases hi
  {
    assert Look(Layout, 0);
    if lo < hi {
      LoadLoaded(c, cs, rows, lo, hi - 1, skip);
    }
  }

  lemma LoadAnother(c: Core, c1: Core, cs: nat, rows: seq<Row>, i: nat)
    requires cs > 0 && Inv(c1, cs, rows) && SameView(c, c1, cs) && i < |c1.base| && i !in c1.loaded
    requires forall p: nat :: CoherentAt(c, cs, p) ==> CoherentAt(c1, cs, p)
    ensures Inv(LoadOne(c1, i), cs, rows) && SameView(c, LoadOne(c1, i), cs)
    ensures forall p: nat :: CoherentAt(c, cs, p) ==> CoherentAt(LoadOne(c1, i), cs, p)
  {
    assert Look(Layout, 0);
    LoadOneInv(c1, cs, rows, i);
    LoadOneView(c1, cs, rows, i);
    SameViewTrans(c, c1, LoadOne(c1, i), cs);
  }

  lemma LoadNext(c: Core, lo: nat, hi: nat, skip: set<nat>, c1: Core, c2: Core)
    requires lo < hi && c1 == Load(c, lo, hi - 1, skip) && c2 == Load(c, lo, hi, skip)
    ensures if Needed(c, hi - 1, skip) then c2 == LoadOne(c1, hi - 1) else c2 == c1
  {
  }

  lemma {:induction false} LoadedKeeps(c: Core, cs: nat, rows: seq<Row>, lo: nat, hi: nat, skip: set<nat>, c2: Core)
    requires cs > 0 && Inv(c, cs, rows) && c2 == Load(c, lo, hi, skip)
    ensures Inv(c2, cs, rows) && SameView(c, c2, cs)
    ensures forall p: nat :: CoherentAt(c, cs, p) ==> CoherentAt(c2, cs, p)
    decreases hi
  {
    if lo < hi {
      var c1 := Load(c, lo, hi - 1, skip);
      LoadedKeeps(c, cs, rows, lo, hi - 1, skip, c1);
      LoadNext(c, lo, hi, skip, c1, c2);
      if Needed(c, hi - 1, skip) {
        LoadLoaded(c, cs, rows, lo, hi - 1, skip);
        LoadAnother(c, c1, cs, rows, hi - 1);
      }
    } else {
      assert c2 == c;
    }
  }

  /** Loading a range changes no byte of the file. */
  lemma LoadKeeps(c: Core, cs: nat, rows: seq<Row>, lo: nat, hi: nat, skip: set<nat>)
    requires cs > 0 && Inv(c, cs, rows)
    ensures Inv(Load(c, lo, hi, skip), cs, rows)
    ensures SameView(c, Load(c, lo, hi, skip), cs)
    ensures forall p: nat :: CoherentAt(c, cs, p) ==> CoherentAt(Load(c, lo, hi, skip), cs, p)
  {
    LoadedKeeps(c, cs, rows, lo, hi, skip, Load(c, lo, hi, skip));
  }

  // ----- preparing a range -----------------------------------------------------------------

  /** Base chunks in [lo, hi) that lie entirely inside the bytes [start, end). */
  function Covered(base: seq<Row>, lo: nat, hi: nat, start: nat, end: nat): set<nat> {
    set i: nat | lo <= i < hi && i < |base| && start <= base[i].off && base[i].off + base[i].len <= end
  }

  function Prepare(c: Core, cs: nat, start: nat, end: nat, overwrite: bool): (c': Core)
    requires cs > 0
    ensures c'.base == c.base
  {
    var end' := Min(end, c.size);
    if end' <= start || c.base == [] then c
    else
      var lo, hi := Idx(start, cs), Idx(end' - 1, cs) + 1;
      var skip := if overwrite then Covered(c.base, lo, hi, start, end') else {};
      Load(c.(loaded := c.loaded + skip), lo, hi, skip)
  }

  /** Base chunk i has a byte inside [start, end) below the file size. */
  predicate Touched(c: Core, cs: nat, start: nat, end: nat, i: nat)
    requires cs > 0
  {
    start < Min(end, c.size) && i < |c.base| && Idx(start, cs) <= i <= Idx(Min(end, c.size) - 1, cs)
  }

  lemma InCovered(c: Core, cs: nat, rows: seq<Row>, lo: nat, hi: nat, start: nat, end: nat, p: nat)
    requires cs > 0 && Inv(c, cs, rows) && end <= c.size
    requires Idx(p, cs) in Covered(c.base, lo, hi, start, end) && Idx(p, cs) !in c.loaded && p < c.size
    ensures start <= p < end
  {
    assert Look(Layout, 0);
    var i := Idx(p, cs);
    assert c.base[i].len == Want(i, c.size, cs);
  }

  /** Flagging covered chunks as loaded only gives up bytes of [start, end). */
  lemma MarkKeeps(c: Core, cs: nat, rows: seq<Row>, lo: nat, hi: nat, start: nat, end: nat)
    requires cs > 0 && Inv(c, cs, rows) && end <= c.size
    ensures var c1 := c.(loaded := c.loaded + Covered(c.base, lo, hi, start, end));
            && Inv(c1, cs, rows)
            && (forall p: nat :: p < c.size && !(start <= p < end) ==> ViewAt(c1, cs, p) == ViewAt(c, cs, p))
  {
    assert Look(Layout, 0);
    var c1 := c.(loaded := c.loaded + Covered(c.base, lo, hi, start, end));
    forall p: nat | p < c.size && !(start <= p < end)
      ensures ViewAt(c1, cs, p) == ViewAt(c, cs, p)
    {
      var i := Idx(p, cs);
      if i < |c.base| && i in Covered(c.base, lo, hi, start, end) && i !in c.loaded {
        InCovered(c, cs, rows, lo, hi, start, end, p);
        assert false;
      }
    }
  }

  /** Nothing but bytes about to be overwritten changes. */
  lemma PrepareKeeps(c: Core, cs: nat, rows: seq<Row>, start: nat, end: nat, overwrite: bool)
    requires cs > 0 && Inv(c, cs, rows)
    ensures var c' := Prepare(c, cs, start, end, overwrite);
            && Inv(c', cs, rows)
            && c'.size == c.size && c'.base == c.base && c'.dirtyIdx == c.dirtyIdx && |c'.temp| >= |c.temp|
            && (forall p: nat :: p < c.size && (overwrite ==> !(start <= p < end)) ==> ViewAt(c', cs, p) == ViewAt(c, cs, p))
  {
    assert Look(Layout, 0);
    var end' := Min(end, c.size);
    if start < end' && c.base != [] {
      var lo, hi := Idx(start, cs), Idx(end' - 1, cs) + 1;
      var skip := if overwrite then Covered(c.base, lo, hi, start, end') else {};
      var c1 := c.(loaded := c.loaded + skip);
      if overwrite {
        MarkKeeps(c, cs, rows, lo, hi, start, end');
      } else {
        assert c1 == c;
      }
      LoadKeeps(c1, cs, rows, lo, hi, skip);
      var c' := Load(c1, lo, hi, skip);
      assert c' == Prepare(c, cs, start, end, overwrite);
      forall p: nat | p < c.size && (overwrite ==> !(start <= p < end))
        ensures ViewAt(c', cs, p) == ViewAt(c, cs, p)
      {
        assert ViewAt(c', cs, p) == ViewAt(c1, cs, p);
      }
    }
  }

  /** Afterwards every base chunk in the range is loaded, and the temp file reaches over what was loaded. */
  lemma PrepareLoads(c: Core, cs: nat, rows: seq<Row>, start: nat, end: nat, overwrite: bool)
    requires cs > 0 && Inv(c, cs, rows)
    ensures var c' := Prepare(c, cs, start, end, overwrite);
            && (forall i :: i in c'.loaded <==> i in c.loaded || Touched(c, cs, start, end, i))
            && (forall i :: i in c'.loaded && i !in c.loaded && (overwrite ==> end < c.base[i].off + c.base[i].len)
                  ==> |c'.temp| >= Min(Off(i, cs) + cs, c.size))
  {
    assert Look(Layout, 0);
    var end' := Min(end, c.size);
    if start < end' && c.base != [] {
      var lo, hi := Idx(start, cs), Idx(end' - 1, cs) + 1;
      var skip := if overwrite then Covered(c.base, lo, hi, start, end') else {};
      var c1 := c.(loaded := c.loaded + skip);
      assert Inv(c1, cs, rows);
      LoadLoaded(c1, cs, rows, lo, hi, skip);
      assert Load(c1, lo, hi, skip) == Prepare(c, cs, start, end, overwrite);
    }
  }

  /** Chunks outside the range stay coherent; without overwriting all do. */
  lemma PrepareCoherent(c: Core, cs: nat, rows: seq<Row>, start: nat, end: nat, overwrite: bool, p: nat)
    requires cs > 0 && Inv(c, cs, rows) && CoherentAt(c, cs, p)
    requires overwrite ==> !Touched(c, cs, start, end, Idx(p, cs))
    ensures CoherentAt(Prepare(c, cs, start, end, overwrite), cs, p)
  {
    assert Look(Layout, 0);
    var end' := Min(end, c.size);
    if start < end' && c.base != [] {
      var lo, hi := Idx(start, cs), Idx(end' - 1, cs) + 1;
      var skip := if overwrite then Covered(c.base, lo, hi, start, end') else {};
      var c1 := c.(loaded := c.loaded + skip);
      assert Inv(c1, cs, rows);
      assert CoherentAt(c1, cs, p);
      LoadKeeps(c1, cs, rows, lo, hi, skip);
      assert Load(c1, lo, hi, skip) == Prepare(c, cs, start, end, overwrite);
    }
  }

  // ----- growing ---------------------------------------------------------------------------

  /** The last base chunk is partial, so growing the file changes it. */
  predicate PartialTail(c: Core, cs: nat)
    requires cs > 0
  {
    c.base != [] && c.size % cs != 0 && |c.base| == c.size / cs + 1
  }

  function Grow(c: Core, cs: nat, newSize: nat): Core
    requires cs > 0
  {
    if newSize <= c.size then c
    else
      var c1 := if PartialTail(c, cs) then
                  var b := |c.base| - 1;
                  var l := Load(c, b, b + 1, {});
                  l.(dirtyIdx := l.dirtyIdx + {b})
                else c;
      c1.(size := newSize)
  }

  lemma PartialTailIs(c: Core, cs: nat, rows: seq<Row>)
    requires cs > 0 && Inv(c, cs, rows) && c.base != []
    ensures PartialTail(c, cs) <==> Off(|c.base| - 1, cs) < c.size < Off(|c.base| - 1, cs) + cs
    ensures forall i :: 0 <= i < |c.base| - 1 ==> Off(i, cs) + cs <= c.size
  {
    assert Look(Layout, 0);
    var b := |c.base| - 1;
    if Off(b, cs) < c.size < Off(b, cs) + cs {
      IdxIs(c.size, cs, b);
    }
    forall i | 0 <= i < b
      ensures Off(i, cs) + cs <= c.size
    {
      OffGap(i, b, cs);
    }
  }

  /** The state after loading the partial tail ... */
  lemma TailLoaded(c: Core, cs: nat, rows: seq<Row>)
    requires cs > 0 && Inv(c, cs, rows) && PartialTail(c, cs)
    ensures var b := |c.base| - 1;
            var l := Load(c, b, b + 1, {});
            && Inv(l, cs, rows) && l.size == c.size && l.base == c.base && |l.temp| >= |c.temp| && l.dirtyIdx == c.dirtyIdx
            && (forall i :: i in l.loaded <==> i in c.loaded || i == b)
  {
    assert Look(Layout, 0);
    var b := |c.base| - 1;
    LoadKeeps(c, cs, rows, b, b + 1, {});
    LoadLoaded(c, cs, rows, b, b + 1, {});
  }

  /** ... and flagging it dirty. */
  lemma TailDirty(l: Core, cs: nat, rows: seq<Row>)
    requires cs > 0 && Inv(l, cs, rows) && l.base != [] && |l.base| - 1 in l.loaded
    ensures Inv(l.(dirtyIdx := l.dirtyIdx + {|l.base| - 1}), cs, rows)
  {
    assert Look(Layout, 0);
  }

  lemma GrownInv(c: Core, cs: nat, rows: seq<Row>, newSize: nat)
    requires cs > 0 && Inv(c, cs, rows) && c.size < newSize && (PartialTail(c, cs) ==> |c.base| - 1 in c.dirtyIdx)
    ensures Inv(c.(size := newSize), cs, rows)
  {
    assert Look(Layout, 0);
    if c.base != [] {
      PartialTailIs(c, cs, rows);
    }
    forall i | 0 <= i < |c.base| && i !in c.dirtyIdx
      ensures c.base[i].len == Want(i, newSize, cs)
    {
      assert c.base[i].len == Want(i, c.size, cs);
    }
    assert Blank(c.(size := newSize), cs, rows);
    assert Shape(c.(size := newSize), cs, rows);
  }

  lemma GrowKeeps(c: Core, cs: nat, rows: seq<Row>, newSize: nat)
    requires cs > 0 && Inv(c, cs, rows) && c.size < newSize
    ensures var c' := Grow(c, cs, newSize);
            && Inv(c', cs, rows)
            && c'.base == c.base && |c'.temp| >= |c.temp|
            && c'.dirtyIdx == (if PartialTail(c, cs) then c.dirtyIdx + {|c.base| - 1} else c.dirtyIdx)
            && (forall i :: i in c'.loaded <==> i in c.loaded || (PartialTail(c, cs) && i == |c.base| - 1))
  {
    if PartialTail(c, cs) {
      var b := |c.base| - 1;
      var l := Load(c, b, b + 1, {});
      TailLoaded(c, cs, rows);
      TailDirty(l, cs, rows);
      GrownInv(l.(dirtyIdx := l.dirtyIdx + {b}), cs, rows, newSize);
    } else {
      GrownInv(c, cs, rows, newSize);
    }
  }

  /** Growing appends zeros. */
  lemma GrowView(c: Core, cs: nat, rows: seq<Row>, newSize: nat, p: nat)
    requires cs > 0 && Inv(c, cs, rows) && c.size < newSize && p < newSize
    ensures ViewAt(Grow(c, cs, newSize), cs, p) == if p < c.size then ViewAt(c, cs, p) else 0
    ensures CoherentAt(c, cs, p) ==> CoherentAt(Grow(c, cs, newSize), cs, p)
  {
    assert Look(Layout, 0);
    var c' := Grow(c, cs, newSize);
    GrowKeeps(c, cs, rows, newSize);
    if c.base != [] {
      PartialTailIs(c, cs, rows);
      var b := |c.base| - 1;
      LoadKeeps(c, cs, rows, b, b + 1, {});
      var i := Idx(p, cs);
      if c.size <= p && i < |c.base| {
        assert i == b;
      }
    }
  }

  // ----- writing ---------------------------------------------------------------------------

  /** range(lo, hi) as a set. */
  function Range(lo: nat, hi: nat): (r: set<nat>)
    ensures forall i :: i in r <==> lo <= i < hi
  {
    if hi <= lo then {} else Range(lo, hi - 1) + {hi - 1}
  }

  /** Indexes that a write of `data` at `off` makes dirty. */
  function Dirtied(cs: nat, off: nat, data: Data): set<nat>
    requires cs > 0
  {
    if data == [] then {} else Range(Idx(off, cs), Idx(off + |data| - 1, cs) + 1)
  }

  /** The state just before the data reaches the temp file. */
  function Ready(c: Core, cs: nat, data: Data, off: nat): Core
    requires cs > 0
  {
    Grow(Prepare(c, cs, off, off + |data|, true), cs, off + |data|)
  }

  function Put(c: Core, cs: nat, data: Data, off: nat): Core
    requires cs > 0
  {
    c.(temp := WriteAt(c.temp, off, data), dirtyIdx := c.dirtyIdx + Dirtied(cs, off, data))
  }

  function Write(c: Core, cs: nat, data: Data, off: nat): Core
    requires cs > 0
  {
    Put(Ready(c, cs, data, off), cs, data, off)
  }

  lemma IdxMono(p: nat, q: nat, cs: nat)
    requires cs > 0 && p <= q
    ensures Idx(p, cs) <= Idx(q, cs)
  {
    if Idx(q, cs) < Idx(p, cs) {
      OffGap(Idx(q, cs), Idx(p, cs), cs);
    }
  }

  /** Every base chunk that a write touches has been pulled in or is fully replaced. */
  lemma DirtiedLoaded(c: Core, cs: nat, rows: seq<Row>, data: Data, off: nat, i: nat)
    requires cs > 0 && Inv(c, cs, rows) && i in Dirtied(cs, off, data) && i < |c.base|
    ensures Touched(c, cs, off, off + |data|, i) || (c.size <= off && PartialTail(c, cs) && i == |c.base| - 1)
  {
    assert Look(Layout, 0);
    PartialTailIs(c, cs, rows);
    IdxIs(Off(i, cs), cs, i);
    if off < c.size {
      IdxMono(Off(i, cs), c.size - 1, cs);
    } else {
      var b := |c.base| - 1;
      IdxIs(Off(b, cs), cs, b);
      IdxMono(Off(b, cs), off, cs);
    }
  }

  lemma ReadyInv(c: Core, cs: nat, rows: seq<Row>, data: Data, off: nat)
    requires cs > 0 && Inv(c, cs, rows)
    ensures var c2 := Ready(c, cs, data, off);
            && Inv(c2, cs, rows) && c2.size == Max(c.size, off + |data|) && c2.base == c.base && |c2.temp| >= |c.temp|
            && c.dirtyIdx <= c2.dirtyIdx && c.loaded <= c2.loaded
            && (forall i :: i in Dirtied(cs, off, data) && i < |c.base| ==> i in c2.loaded)
  {
    assert Look(Layout, 0);
    var end := off + |data|;
    var c1 := Prepare(c, cs, off, end, true);
    PrepareKeeps(c, cs, rows, off, end, true);
    PrepareLoads(c, cs, rows, off, end, true);
    if c1.size < end {
      GrowKeeps(c1, cs, rows, end);
    }
    forall i | i in Dirtied(cs, off, data) && i < |c.base|
      ensures i in Grow(c1, cs, end).loaded
    {
      DirtiedLoaded(c, cs, rows, data, off, i);
    }
  }

  lemma ReadyView(c: Core, cs: nat, rows: seq<Row>, data: Data, off: nat, p: nat)
    requires cs > 0 && Inv(c, cs, rows) && p < Max(c.size, off + |data|) && !(off <= p < off + |data|)
    ensures ViewAt(Ready(c, cs, data, off), cs, p) == if p < c.size then ViewAt(c, cs, p) else 0
  {
    assert Look(Layout, 0);
    var end := off + |data|;
    var c1 := Prepare(c, cs, off, end, true);
    PrepareKeeps(c, cs, rows, off, end, true);
    if c1.size < end {
      GrowView(c1, cs, rows, end, p);
    }
  }

  lemma ReadyCoherent(c: Core, cs: nat, rows: seq<Row>, data: Data, off: nat, p: nat)
    requires cs > 0 && Inv(c, cs, rows) && CoherentAt(c, cs, p) && p < Max(c.size, off + |data|)
    requires !Touched(c, cs, off, off + |data|, Idx(p, cs))
    ensures CoherentAt(Ready(c, cs, data, off), cs, p)
  {
    assert Look(Layout, 0);
    var end := off + |data|;
    var c1 := Prepare(c, cs, off, end, true);
    PrepareKeeps(c, cs, rows, off, end, true);
    PrepareCoherent(c, cs, rows, off, end, true, p);
    if c1.size < end {
      GrowView(c1, cs, rows, end, p);
    }
  }

  lemma InDirtied(cs: nat, off: nat, data: Data, p: nat)
    requires cs > 0
    ensures off <= p < off + |data| ==> Idx(p, cs) in Dirtied(cs, off, data)
  {
    if off <= p < off + |data| {
      IdxMono(off, p, cs);
      IdxMono(p, off + |data| - 1, cs);
    }
  }

  lemma PutKeeps(c: Core, cs: nat, rows: seq<Row>, data: Data, off: nat)
    requires cs > 0 && Inv(c, cs, rows) && off + |data| <= c.size
    requires forall i :: i in Dirtied(cs, off, data) && i < |c.base| ==> i in c.loaded
    ensures Inv(Put(c, cs, data, off), cs, rows)
    ensures forall p: nat :: p < c.size ==>
              ViewAt(Put(c, cs, data, off), cs, p) == if off <= p < off + |data| then data[p - off] else ViewAt(c, cs, p)
    ensures forall p: nat :: CoherentAt(c, cs, p) ==> CoherentAt(Put(c, cs, data, off), cs, p)
  {
    assert Look(Layout, 0);
    forall p: nat {
      InDirtied(cs, off, data, p);
    }
  }

  /** A write acts on the file as on a plain byte array: zeros fill any gap, the data replaces what was there. */
  lemma WriteRefines(c: Core, cs: nat, rows: seq<Row>, data: Data, off: nat)
    requires cs > 0 && Inv(c, cs, rows)
    ensures Inv(Write(c, cs, data, off), cs, rows)
    ensures View(Write(c, cs, data, off), cs) == Overwrite(View(c, cs), off, data)
  {
    assert Look(Layout, 0);
    var c2, c3 := Ready(c, cs, data, off), Write(c, cs, data, off);
    ReadyInv(c, cs, rows, data, off);
    PutKeeps(c2, cs, rows, data, off);
    var v, w := View(c3, cs), Overwrite(View(c, cs), off, data);
    forall p: nat | p < c3.size
      ensures v[p] == w[p]
    {
      assert v[p] == ViewAt(c3, cs, p);
      if !(off <= p < off + |data|) {
        ReadyView(c, cs, rows, data, off, p);
      }
    }
    SameBytes(v, w);
  }

  lemma WriteCoherent(c: Core, cs: nat, rows: seq<Row>, data: Data, off: nat)
    requires cs > 0 && Inv(c, cs, rows) && Coherent(c, cs)
    ensures Coherent(Write(c, cs, data, off), cs)
  {
    assert Look(Layout, 0) && Look(Coherence, 0);
    var c2, c3 := Ready(c, cs, data, off), Write(c, cs, data, off);
    ReadyInv(c, cs, rows, data, off);
    PutKeeps(c2, cs, rows, data, off);
    WriteRefines(c, cs, rows, data, off);
    forall p: nat
      ensures CoherentAt(c3, cs, p)
    {
      var i := Idx(p, cs);
      if i < |c.base| && i !in c3.dirtyIdx && p < Off(i, cs) + c.base[i].len {
        UntouchedClean(c, cs, off, data, i);
        assert c3.base[i].len == Want(i, c3.size, cs);
        ReadyCoherent(c, cs, rows, data, off, p);
      }
    }
  }

  /** A base chunk that the write does not make dirty is not touched by it. */
  lemma UntouchedClean(c: Core, cs: nat, off: nat, data: Data, i: nat)
    requires cs > 0 && i !in Dirtied(cs, off, data)
    ensures !Touched(c, cs, off, off + |data|, i)
  {
    if Touched(c, cs, off, off + |data|, i) {
      IdxMono(Min(off + |data|, c.size) - 1, off + |data| - 1, cs);
    }
  }

  /** Once `end` bytes are in the temp file too, it reaches over every chunk flagged as loaded. */
  lemma PrepareReaches(c: Core, cs: nat, rows: seq<Row>, start: nat, end: nat, overwrite: bool, i: nat)
    requires cs > 0 && Inv(c, cs, rows) && Backed(c, cs)
    requires i < |c.base| && i in Prepare(c, cs, start, end, overwrite).loaded
    ensures Max(|Prepare(c, cs, start, end, overwrite).temp|, if overwrite && start < end then end else 0)
            >= Min(Off(i, cs) + cs, c.size)
  {
    assert Look(Layout, 0) && Look(Backing, 0);
    PrepareKeeps(c, cs, rows, start, end, overwrite);
    PrepareLoads(c, cs, rows, start, end, overwrite);
    if i !in c.loaded {
      assert c.base[i].len == Want(i, c.size, cs);
    }
  }

  lemma PutBacked(c: Core, cs: nat, data: Data, off: nat)
    requires cs > 0 && off + |data| <= c.size
    requires forall i :: 0 <= i < |c.base| && i in c.loaded ==>
               Max(|c.temp|, if data != [] then off + |data| else 0) >= Min(Off(i, cs) + cs, c.size)
    requires Off(|c.base|, cs) < c.size ==> Max(|c.temp|, if data != [] then off + |data| else 0) == c.size
    ensures Backed(Put(c, cs, data, off), cs)
  {
    assert Look(Backing, 0);
  }

  lemma TempWithin(c: Core, cs: nat, rows: seq<Row>)
    requires cs > 0 && Inv(c, cs, rows)
    ensures |c.temp| <= c.size
  {
    assert Look(Layout, 0);
  }

  lemma FreshTail(c: Core, cs: nat)
    requires cs > 0 && Backed(c, cs) && Off(|c.base|, cs) < c.size
    ensures |c.temp| == c.size
  {
    assert Look(Backing, 0);
  }

  /** After a write that is not an empty one past the end, no later read is cut short. */
  lemma WriteBacked(c: Core, cs: nat, rows: seq<Row>, data: Data, off: nat)
    requires cs > 0 && Inv(c, cs, rows) && Backed(c, cs) && (data == [] ==> off <= c.size)
    ensures Backed(Write(c, cs, data, off), cs)
  {
    var end, c2 := off + |data|, Ready(c, cs, data, off);
    ReadyInv(c, cs, rows, data, off);
    TempWithin(c2, cs, rows);
    if end <= c.size {
      PrepareKeeps(c, cs, rows, off, end, true);
      assert c2 == Prepare(c, cs, off, end, true);
      if Off(|c.base|, cs) < c.size {
        FreshTail(c, cs);
      }
      forall i | 0 <= i < |c2.base| && i in c2.loaded
        ensures Max(|c2.temp|, if data != [] then end else 0) >= Min(Off(i, cs) + cs, c2.size)
      {
        PrepareReaches(c, cs, rows, off, end, true, i);
      }
    }
    PutBacked(c2, cs, data, off);
  }

  /** An empty write past the end moves the size but not the temp file, so the bytes it adds cannot be read yet. */
  lemma EmptyWriteUnbacks(c: Core, cs: nat, rows: seq<Row>, off: nat)
    requires cs > 0 && Inv(c, cs, rows) && c.size < off
    ensures !Backed(Write(c, cs, [], off), cs)
  {
    assert Look(Layout, 0) && Look(Backing, 0);
    ReadyInv(c, cs, rows, [], off);
    assert Prepare(c, cs, off, off, true) == c;
    if c.base != [] {
      PartialTailIs(c, cs, rows);
      OffShift(|c.base| - 1, cs);
      LoadKeeps(c, cs, rows, |c.base| - 1, |c.base|, {});
    }
  }

  // ----- reading ---------------------------------------------------------------------------

  /** What read returns: what the temp file has of the range once its base chunks are loaded. */
  function ReadBytes(c: Core, cs: nat, offset: nat, n: nat): Data
    requires cs > 0
  {
    var end := Min(offset + n, c.size);
    if end <= offset then [] else ReadAt(Prepare(c, cs, offset, end, false).temp, offset, end - offset)
  }

  lemma ReadByte(c: Core, cs: nat, rows: seq<Row>, offset: nat, n: nat, k: nat)
    requires cs > 0 && Inv(c, cs, rows) && k < |ReadBytes(c, cs, offset, n)|
    ensures offset + k < Min(offset + n, c.size) && ReadBytes(c, cs, offset, n)[k] == ViewAt(c, cs, offset + k)
  {
    assert Look(Layout, 0);
    var end := Min(offset + n, c.size);
    var c1 := Prepare(c, cs, offset, end, false);
    PrepareKeeps(c, cs, rows, offset, end, false);
    PrepareLoads(c, cs, rows, offset, end, false);
    if Idx(offset + k, cs) < |c.base| {
      TouchedByte(c, cs, rows, offset, end, offset + k);
    }
    LoadedByte(c1, cs, offset + k);
  }

  lemma LoadedByte(c: Core, cs: nat, p: nat)
    requires cs > 0 && (Idx(p, cs) < |c.base| ==> Idx(p, cs) in c.loaded)
    ensures ViewAt(c, cs, p) == At(c.temp, p)
  {
  }

  /** A read leaves the file as it is and returns its bytes, as far as the temp file reaches. */
  lemma ReadRefines(c: Core, cs: nat, rows: seq<Row>, offset: nat, n: nat)
    requires cs > 0 && Inv(c, cs, rows)
    ensures View(Prepare(c, cs, offset, Min(offset + n, c.size), false), cs) == View(c, cs)
    ensures ReadBytes(c, cs, offset, n) <= Slice(View(c, cs), offset, offset + n)
    ensures Backed(c, cs) ==> ReadBytes(c, cs, offset, n) == Slice(View(c, cs), offset, offset + n)
  {
    assert Look(Layout, 0) && Look(Backing, 0);
    var end := Min(offset + n, c.size);
    PrepareKeeps(c, cs, rows, offset, end, false);
    SameBytes(View(Prepare(c, cs, offset, end, false), cs), View(c, cs));
    var got, want := ReadBytes(c, cs, offset, n), Slice(View(c, cs), offset, offset + n);
    assert |got| <= |want|;
    forall k | 0 <= k < |got|
      ensures got[k] == want[k]
    {
      ReadByte(c, cs, rows, offset, n, k);
    }
    if Backed(c, cs) && offset < end {
      ReadReaches(c, cs, rows, offset, end);
    }
  }

  lemma TouchedByte(c: Core, cs: nat, rows: seq<Row>, start: nat, end: nat, p: nat)
    requires cs > 0 && start <= p < Min(end, c.size) && Idx(p, cs) < |c.base|
    ensures Touched(c, cs, start, end, Idx(p, cs))
  {
    IdxMono(start, p, cs);
    IdxMono(p, Min(end, c.size) - 1, cs);
  }

  lemma ReadReaches(c: Core, cs: nat, rows: seq<Row>, start: nat, end: nat)
    requires cs > 0 && Inv(c, cs, rows) && Backed(c, cs) && start < end <= c.size
    ensures |Prepare(c, cs, start, end, false).temp| >= end
  {
    assert Look(Layout, 0) && Look(Backing, 0);
    var i := Idx(end - 1, cs);
    PrepareLoads(c, cs, rows, start, end, false);
    PrepareKeeps(c, cs, rows, start, end, false);
    if i < |c.base| {
      TouchedByte(c, cs, rows, start, end, end - 1);
      PrepareReaches(c, cs, rows, start, end, false, i);
    } else if i > |c.base| {
      OffGap(|c.base|, i, cs);
    }
  }

  lemma PrepareBacked(c: Core, cs: nat, rows: seq<Row>, start: nat, end: nat)
    requires cs > 0 && Inv(c, cs, rows) && Backed(c, cs)
    ensures Backed(Prepare(c, cs, start, end, false), cs)
  {
    assert Look(Layout, 0) && Look(Backing, 0);
    PrepareKeeps(c, cs, rows, start, end, false);
    forall i | 0 <= i < |c.base| && i in Prepare(c, cs, start, end, false).loaded
      ensures |Prepare(c, cs, start, end, false).temp| >= Min(Off(i, cs) + cs, c.size)
    {
      PrepareReaches(c, cs, rows, start, end, false, i);
    }
  }

  lemma PrepareReadCoherent(c: Core, cs: nat, rows: seq<Row>, start: nat, end: nat)
    requires cs > 0 && Inv(c, cs, rows) && Coherent(c, cs)
    ensures Coherent(Prepare(c, cs, start, end, false), cs)
  {
    assert Look(Layout, 0) && Look(Coherence, 0);
    forall p: nat {
      PrepareCoherent(c, cs, rows, start, end, false, p);
    }
  }

  // ----- when reads are exact --------------------------------------------------------------

  /** Where the temp file ends too early and nothing is left to load, a read of one byte returns none. */
  lemma ShortRead(c: Core, cs: nat, p: nat)
    requires cs > 0 && |c.temp| <= p < c.size && (Idx(p, cs) < |c.base| ==> Idx(p, cs) in c.loaded)
    ensures ReadBytes(c, cs, p, 1) == []
  {
    var i, one := Idx(p, cs), 1;
    assert c.(loaded := c.loaded + {}) == c;
    NoneNeeded(c, i);
    assert Prepare(c, cs, p, p + one, false) == c;
  }

  lemma NoneNeeded(c: Core, i: nat)
    requires i < |c.base| ==> i in c.loaded
    ensures Load(c, i, i + 1, {}) == c
  {
    assert Load(c, i, i, {}) == c;
  }

  ghost predicate ExactRead(c: Core, cs: nat, offset: nat, n: nat)
    requires cs > 0
  {
    ReadBytes(c, cs, offset, n) == Slice(View(c, cs), offset, offset + n)
  }

  lemma ShortIsNotExact(c: Core, cs: nat, p: nat)
    requires cs > 0 && |c.temp| <= p < c.size && (Idx(p, cs) < |c.base| ==> Idx(p, cs) in c.loaded)
    ensures !ExactRead(c, cs, p, 1)
  {
    ShortRead(c, cs, p);
    assert |Slice(View(c, cs), p, p + 1)| == 1;
  }

  /** A state that is not backed has a byte that cannot be read. */
  lemma UnbackedByte(c: Core, cs: nat, rows: seq<Row>) returns (p: nat)
    requires cs > 0 && Inv(c, cs, rows) && !Reaches(c, cs)
    ensures |c.temp| <= p < c.size && (Idx(p, cs) < |c.base| ==> Idx(p, cs) in c.loaded)
  {
    TempWithin(c, cs, rows);
    if i :| 0 <= i < |c.base| && i in c.loaded && |c.temp| < Min(Off(i, cs) + cs, c.size) {
      BaseInside(c, cs, rows, i);
      p := Max(Off(i, cs), |c.temp|);
      IdxIs(p, cs, i);
    } else {
      p := Max(Off(|c.base|, cs), |c.temp|);
      if Idx(p, cs) < |c.base| {
        OffGap(Idx(p, cs), |c.base|, cs);
        assert false;
      }
    }
  }

  lemma BaseInside(c: Core, cs: nat, rows: seq<Row>, i: nat)
    requires cs > 0 && Inv(c, cs, rows) && i < |c.base|
    ensures Off(i, cs) < c.size
  {
    assert Look(Layout, 0);
  }

  /** All reads are exact if and only if the temp file reaches over everything that is loaded or new. */
  lemma ReadsExactIff(c: Core, cs: nat, rows: seq<Row>)
    requires cs > 0 && Inv(c, cs, rows)
    ensures Backed(c, cs) <==> forall offset: nat, n: nat :: ExactRead(c, cs, offset, n)
  {
    if Backed(c, cs) {
      forall offset: nat, n: nat
        ensures ExactRead(c, cs, offset, n)
      {
        ReadRefines(c, cs, rows, offset, n);
      }
    } else {
      assert Look(Backing, 0);
      var p := UnbackedByte(c, cs, rows);
      ShortIsNotExact(c, cs, p);
    }
  }

  /** After a write on a state with exact reads, all reads are exact again if and only if it was not empty and past the end. */
  lemma WriteReadsExactIff(c: Core, cs: nat, rows: seq<Row>, data: Data, off: nat)
    requires cs > 0 && Inv(c, cs, rows) && Backed(c, cs)
    ensures (data != [] || off <= c.size) <==> forall offset: nat, n: nat :: ExactRead(Write(c, cs, data, off), cs, offset, n)
  {
    WriteRefines(c, cs, rows, data, off);
    ReadsExactIff(Write(c, cs, data, off), cs, rows);
    if data != [] || off <= c.size {
      WriteBacked(c, cs, rows, data, off);
    } else {
      EmptyWriteUnbacks(c, cs, rows, off);
    }
  }

  /** Where an empty write past the end leaves the temp file. */
  lemma EmptyWriteTail(c: Core, cs: nat, rows: seq<Row>, off: nat)
    requires cs > 0 && Inv(c, cs, rows) && c.size < off
    ensures var c' := Write(c, cs, [], off);
            c'.size == off && |c'.temp| <= c.size && (Idx(off - 1, cs) < |c'.base| ==> Idx(off - 1, cs) in c'.loaded)
  {
    assert Prepare(c, cs, off, off, true) == c;
    assert Write(c, cs, [], off).temp == Grow(c, cs, off).temp;
    TempWithin(c, cs, rows);
    GrowKeeps(c, cs, rows, off);
    if c.base != [] {
      PartialTailIs(c, cs, rows);
      var b := |c.base| - 1;
      if PartialTail(c, cs) {
        TailLoaded(c, cs, rows);
        TempWithin(Load(c, b, b + 1, {}), cs, rows);
      }
      BaseInside(c, cs, rows, b);
      if Idx(off - 1, cs) < b {
        OffGap(Idx(off - 1, cs), b, cs);
        assert false;
      }
    }
  }

  // ----- truncating ------------------------------------------------------------------------

  /** The chunk that the new end cuts through, if it is a base chunk, is loaded and dirty first. */
  function Cut(c: Core, cs: nat, length: nat): Core
    requires cs > 0
  {
    var b := Idx(length, cs);
    if length % cs != 0 && b < |c.base| then
      var l := Load(c, b, b + 1, {});
      l.(dirtyIdx := l.dirtyIdx + {b})
    else c
  }

  /** Drops every trace of chunks from index `keep` on. */
  function Trimmed(c: Core, keep: nat, length: nat): Core {
    Core(length, c.base[..Min(keep, |c.base|)], (set i | i in c.loaded && i < keep),
         (set i | i in c.dirtyIdx && i < keep), Resize(c.temp, length))
  }

  function Shrink(c: Core, cs: nat, length: nat): Core
    requires cs > 0
  {
    Trimmed(Cut(c, cs, length), Chunks(length, cs), length)
  }

  function Truncate(c: Core, cs: nat, length: nat): Core
    requires cs > 0
  {
    if length < c.size then Shrink(c, cs, length)
    else
      var g := Grow(c, cs, length);
      g.(temp := Resize(g.temp, length))
  }

  lemma CutKeeps(c: Core, cs: nat, rows: seq<Row>, length: nat)
    requires cs > 0 && Inv(c, cs, rows) && length < c.size
    ensures var c1 := Cut(c, cs, length);
            && Inv(c1, cs, rows) && c1.size == c.size && c1.base == c.base
            && (length % cs != 0 && Idx(length, cs) < |c.base| ==> Idx(length, cs) in c1.dirtyIdx)
            && (forall p: nat :: p < c.size ==> ViewAt(c1, cs, p) == ViewAt(c, cs, p))
            && (forall p: nat :: CoherentAt(c, cs, p) ==> CoherentAt(c1, cs, p))
  {
    assert Look(Layout, 0);
    var b := Idx(length, cs);
    if length % cs != 0 && b < |c.base| {
      LoadKeeps(c, cs, rows, b, b + 1, {});
      LoadLoaded(c, cs, rows, b, b + 1, {});
      var l := Load(c, b, b + 1, {});
      assert Inv(l, cs, rows);
      assert b in l.loaded;
    }
  }

  /** Chunks kept by a shrink end before the new size, except the one it cuts through. */
  lemma KeptChunks(length: nat, cs: nat, i: nat)
    requires cs > 0
    ensures i < Chunks(length, cs) <==> Off(i, cs) < length
    ensures i < Chunks(length, cs) && (length % cs == 0 || i != Idx(length, cs)) ==> Off(i, cs) + cs <= length
  {
    var k := Chunks(length, cs);
    if i < k {
      ChunkInside(i, length, cs);
      if length < Off(i, cs) + cs {
        IdxIs(length, cs, i);
      }
    } else if k < i {
      OffGap(k, i, cs);
    }
  }

  /** Chunk i of a file cut to `length`, none of them cut through but dirty ones. */
  ghost predicate CutClean(c: Core, cs: nat, length: nat)
    requires cs > 0
  {
    length % cs != 0 && Idx(length, cs) < |c.base| ==> Idx(length, cs) in c.dirtyIdx
  }

  lemma CleanFits(c: Core, cs: nat, rows: seq<Row>, length: nat, i: nat)
    requires cs > 0 && Inv(c, cs, rows) && length < c.size && CutClean(c, cs, length)
    requires i < |c.base| && i < Chunks(length, cs) && i !in c.dirtyIdx
    ensures c.base[i].len == cs == Want(i, length, cs) && Off(i, cs) + cs <= length
  {
    assert Look(Layout, 0);
    KeptChunks(length, cs, i);
    assert c.base[i].len == Want(i, c.size, cs);
  }

  lemma TrimmedBlank(c: Core, cs: nat, rows: seq<Row>, length: nat, p: nat)
    requires cs > 0 && Blank(c, cs, rows) && length < c.size
    requires var t := Trimmed(c, Chunks(length, cs), length); |t.base| <= Idx(p, cs) < |rows| && Idx(p, cs) !in t.dirtyIdx
    ensures At(Trimmed(c, Chunks(length, cs), length).temp, p) == 0
  {
    if p < length {
      IdxBelow(p, length, cs);
    }
  }

  lemma TrimmedInv(c: Core, cs: nat, rows: seq<Row>, length: nat)
    requires cs > 0 && Inv(c, cs, rows) && length < c.size && CutClean(c, cs, length)
    ensures Inv(Trimmed(c, Chunks(length, cs), length), cs, rows)
  {
    var t := Trimmed(c, Chunks(length, cs), length);
    forall i | 0 <= i < |t.base|
      ensures i !in t.dirtyIdx ==> t.base[i].len == Want(i, length, cs)
      ensures Off(i, cs) < length
    {
      KeptChunks(length, cs, i);
      if i !in c.dirtyIdx {
        CleanFits(c, cs, rows, length, i);
      }
    }
    assert Look(Layout, 0);
    forall p: nat | |t.base| <= Idx(p, cs) < |rows| && Idx(p, cs) !in t.dirtyIdx
      ensures At(t.temp, p) == 0
    {
      TrimmedBlank(c, cs, rows, length, p);
    }
  }

  lemma TrimmedView(c: Core, cs: nat, length: nat, p: nat)
    requires cs > 0 && p < length
    ensures ViewAt(Trimmed(c, Chunks(length, cs), length), cs, p) == ViewAt(c, cs, p)
  {
    IdxBelow(p, length, cs);
  }

  lemma TrimmedCoherent(c: Core, cs: nat, rows: seq<Row>, length: nat, p: nat)
    requires cs > 0 && Inv(c, cs, rows) && length < c.size && CutClean(c, cs, length) && CoherentAt(c, cs, p)
    ensures CoherentAt(Trimmed(c, Chunks(length, cs), length), cs, p)
  {
    var t, i := Trimmed(c, Chunks(length, cs), length), Idx(p, cs);
    if i < |t.base| && i in t.loaded && i !in t.dirtyIdx {
      CleanFits(c, cs, rows, length, i);
    }
  }

  lemma ShrinkKeeps(c: Core, cs: nat, rows: seq<Row>, length: nat)
    requires cs > 0 && Inv(c, cs, rows) && length < c.size
    ensures Inv(Shrink(c, cs, length), cs, rows)
    ensures forall p: nat :: p < length ==> ViewAt(Shrink(c, cs, length), cs, p) == ViewAt(c, cs, p)
    ensures Coherent(c, cs) ==> Coherent(Shrink(c, cs, length), cs)
  {
    var c1 := Cut(c, cs, length);
    CutKeeps(c, cs, rows, length);
    TrimmedInv(c1, cs, rows, length);
    forall p: nat | p < length
      ensures ViewAt(Shrink(c, cs, length), cs, p) == ViewAt(c, cs, p)
    {
      TrimmedView(c1, cs, length, p);
    }
    if Coherent(c, cs) {
      assert Look(Coherence, 0);
      forall p: nat
        ensures CoherentAt(Shrink(c, cs, length), cs, p)
      {
        assert CoherentAt(c, cs, p);
        TrimmedCoherent(c1, cs, rows, length, p);
      }
    }
  }

  lemma TruncateBacked(c: Core, cs: nat, length: nat)
    requires cs > 0
    ensures Backed(Truncate(c, cs, length), cs) && Truncate(c, cs, length).size == length
  {
    assert Look(Backing, 0);
  }

  lemma ResizedView(c: Core, c': Core, cs: nat, length: nat)
    requires cs > 0 && c'.size == length
    requires forall p: nat :: p < length ==> ViewAt(c', cs, p) == if p < c.size then ViewAt(c, cs, p) else 0
    ensures View(c', cs) == Resize(View(c, cs), length)
  {
    var v, v', w := View(c, cs), View(c', cs), Resize(View(c, cs), length);
    forall p: nat | p < length
      ensures v'[p] == w[p]
    {
      assert w[p] == At(w, p) == At(v, p);
    }
    SameBytes(v', w);
  }

  /** A truncate acts on the file as ftruncate acts on a plain byte array, and leaves all of it readable. */
  lemma TruncateRefines(c: Core, cs: nat, rows: seq<Row>, length: nat)
    requires cs > 0 && Inv(c, cs, rows)
    ensures Inv(Truncate(c, cs, length), cs, rows)
    ensures View(Truncate(c, cs, length), cs) == Resize(View(c, cs), length)
    ensures Backed(Truncate(c, cs, length), cs)
    ensures Coherent(c, cs) ==> Coherent(Truncate(c, cs, length), cs)
  {
    var c' := Truncate(c, cs, length);
    TruncateBacked(c, cs, length);
    if length < c.size {
      ShrinkKeeps(c, cs, rows, length);
      assert c' == Shrink(c, cs, length);
    } else {
      GrowTruncates(c, cs, rows, length);
    }
    ResizedView(c, c', cs, length);
  }

  lemma GrowTruncates(c: Core, cs: nat, rows: seq<Row>, length: nat)
    requires cs > 0 && Inv(c, cs, rows) && c.size <= length
    ensures Inv(Truncate(c, cs, length), cs, rows)
    ensures forall p: nat :: p < length ==>
              ViewAt(Truncate(c, cs, length), cs, p) == if p < c.size then ViewAt(c, cs, p) else 0
    ensures Coherent(c, cs) ==> Coherent(Truncate(c, cs, length), cs)
  {
    var g := Grow(c, cs, length);
    if c.size < length {
      GrowKeeps(c, cs, rows, length);
    }
    StretchedInv(g, cs, rows);
    forall p: nat | p < length
      ensures ViewAt(Truncate(c, cs, length), cs, p) == if p < c.size then ViewAt(c, cs, p) else 0
    {
      if c.size < length {
        GrowView(c, cs, rows, length, p);
      }
      assert At(Resize(g.temp, length), p) == At(g.temp, p);
    }
    if Coherent(c, cs) {
      assert Look(Coherence, 0);
      forall p: nat
        ensures CoherentAt(Truncate(c, cs, length), cs, p)
      {
        assert CoherentAt(c, cs, p);
        if c.size < length && p < length {
          GrowView(c, cs, rows, length, p);
        }
        StretchedCoherent(g, cs, rows, p);
      }
    }
  }

  /** Extending the temp file to the size keeps the layout ... */
  lemma StretchedInv(g: Core, cs: nat, rows: seq<Row>)
    requires cs > 0 && Inv(g, cs, rows)
    ensures Inv(g.(temp := Resize(g.temp, g.size)), cs, rows)
  {
    assert Look(Layout, 0);
    var t := g.(temp := Resize(g.temp, g.size));
    assert forall p: nat :: At(t.temp, p) == At(g.temp, p);
  }

  /** ... and what clean chunks hold. */
  lemma StretchedCoherent(g: Core, cs: nat, rows: seq<Row>, p: nat)
    requires cs > 0 && Inv(g, cs, rows) && (p < g.size ==> CoherentAt(g, cs, p))
    ensures CoherentAt(g.(temp := Resize(g.temp, g.size)), cs, p)
  {
    assert Look(Layout, 0);
    var i := Idx(p, cs);
    if i < |g.base| && i !in g.dirtyIdx && p < Off(i, cs) + g.base[i].len {
      assert g.base[i].len == Want(i, g.size, cs);
    }
  }
}
