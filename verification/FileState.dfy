/** The per-inode writeback state: a sparse temp file over stored chunks, updated in place. */
module FileState {
  import opened Bytes
  import opened Blobs
  import opened Plan
  import opened Tables
  import opened Store
  import opened SparseFile
  import opened FlushFile
  import opened Fetches
  import opened Exposure

  class FileState {
    const ino: Ino
    var refcount: nat
    var dirty: bool
    var materialized: bool
    var size: nat
    var base: seq<Row>
    var loaded: set<nat>
    var dirtyIdx: set<nat>
    var temp: Data  // the temp file

    constructor (ino: Ino)
      ensures this.ino == ino && refcount == 0 && !dirty && !materialized && temp == []
    {
      this.ino := ino;
      refcount, dirty, materialized, size := 0, false, false, 0;
      base, loaded, dirtyIdx, temp := [], {}, {}, [];
    }

    /** The fields that make up the byte array. */
    ghost function Fields(): Core
      reads this
    {
      Core(size, base, loaded, dirtyIdx, temp)
    }

    ghost predicate Valid(store: Store)
      reads this, store.meta, store.backend
    {
      && store.Valid()
      && (materialized ==> Inv(Fields(), store.chunkSize, store.Rows(ino)))
      && (!materialized ==> !dirty && temp == [])
    }

    /** What the file contains, as far as any reader can tell: the running state in write mode, else what is stored. */
    ghost function Contents(store: Store): Data
      requires store.chunkSize > 0
      reads this, store.meta
    {
      if materialized then View(Fields(), store.chunkSize) else store.Stored(ino)
    }

    /** Clean data agrees with what is stored, chunk by chunk and, when nothing is pending, as a whole. */
    ghost predicate Faithful(store: Store)
      requires store.chunkSize > 0
      reads this, store.meta
    {
      materialized ==>
        && Coherent(Fields(), store.chunkSize)
        && (!dirty ==> View(Fields(), store.chunkSize) == store.Stored(ino))
    }

    /** No read is cut short. */
    ghost predicate Whole(store: Store)
      requires store.chunkSize > 0
      reads this
    {
      materialized ==> Backed(Fields(), store.chunkSize)
    }

    /** No chunk that was cut off has come back over a stored row. */
    ghost predicate IsTight(store: Store)
      requires store.chunkSize > 0
      reads this, store.meta
    {
      materialized ==> Tight(Fields(), store.chunkSize, store.Rows(ino))
    }

    /** Write mode can be entered faithfully: the inode has a row and its stored list no over-long single chunk. */
    ghost predicate Openable(store: Store)
      reads this, store.meta
    {
      !materialized ==> ino in store.meta.sizes && !LongTail(store.Rows(ino), store.chunkSize)
    }

    /** The fields once write mode is entered. */
    ghost function WriteMode(store: Store): Core
      requires Openable(store)
      reads this, store.meta
    {
      if materialized then Fields() else Materialized(store.Rows(ino), store.meta.sizes[ino], store.chunkSize)
    }

    /** What entering write mode downloads. */
    ghost function Entering(store: Store): set<nat>
      reads this, store.meta
    {
      if materialized then {} else EnterFetch(store.Rows(ino), store.chunkSize)
    }

    // ----- loading -------------------------------------------------------------------------

    /** Indexes of base chunks in [lo, hi) that are neither loaded nor skipped. */
    method Missing(lo: nat, hi: nat, skip: set<nat>) returns (need: seq<nat>)
      requires hi <= |base|
      ensures NeedList(Fields(), lo, hi, skip, need)
    {
      need := [];
      var i := lo;
      while i < hi
        invariant lo <= i && (i <= hi || i == lo)
        invariant NeedList(Fields(), lo, i, skip, need)
      {
        if i !in loaded && i !in skip {
          need := need + [i];
        }
        i := i + 1;
      }
    }

    method ShasOf(store: Store, need: seq<nat>) returns (shas: seq<Sha>)
      requires forall r :: r in base ==> r.sha in store.meta.blobs
      requires forall k :: 0 <= k < |need| ==> need[k] < |base|
      ensures |shas| == |need| && forall k :: 0 <= k < |need| ==> shas[k] == base[need[k]].sha
      ensures forall s :: s in shas ==> s in store.meta.blobs
    {
      shas := [];
      for k := 0 to |need|
        invariant |shas| == k && forall j :: 0 <= j < k ==> shas[j] == base[need[j]].sha
        invariant forall s :: s in shas ==> s in store.meta.blobs
      {
        assert base[need[k]] in base;
        shas := shas + [base[need[k]].sha];
      }
    }

    /** Every base chunk can be downloaded. */
    ghost predicate Loadable(store: Store)
      reads this, store.meta, store.backend
    {
      store.Linked() && forall r :: r in base ==> r.sha in store.meta.blobs
    }

    /** Downloads base chunks [lo, hi) that are neither loaded nor skipped, each once, into the temp file. */
    method LoadRange(store: Store, lo: nat, hi: nat, skip: set<nat>) returns (ghost fetched: set<nat>, ghost order: seq<nat>)
      requires Loadable(store)
      modifies this`temp, this`loaded
      ensures Fields() == Load(old(Fields()), lo, Min(hi, |base|), skip)
      ensures NeedList(old(Fields()), lo, Min(hi, |base|), skip, order)
      ensures fetched == Fetch(old(Fields()), lo, hi, skip) == set i | i in order
    {
      var top := Min(hi, |base|);
      var need := Missing(lo, top, skip);
      fetched, order := (set i | i in need), need;
      FetchIsNeed(Fields(), lo, top, skip, need);
      FetchBeyond(Fields(), lo, hi, skip);
      var shas := ShasOf(store, need);
      var datas := store.IterChunks(shas);
      FillIn(need, datas, lo, top, skip);
    }

    /** Writes downloaded chunks to their place in the temp file. */
    method FillIn(need: seq<nat>, datas: seq<Data>, ghost lo: nat, ghost hi: nat, ghost skip: set<nat>)
      requires hi <= |base| && NeedList(Fields(), lo, hi, skip, need) && |datas| == |need|
      requires forall k :: 0 <= k < |need| ==> need[k] < |base| && datas[k] == Pre(base[need[k]].sha)
      modifies this`temp, this`loaded
      ensures Fields() == Load(old(Fields()), lo, hi, skip)
    {
      ghost var c0 := Fields();
      for k := 0 to |need|
        invariant base == c0.base && size == c0.size && dirtyIdx == c0.dirtyIdx
        invariant Fields() == Load(c0, lo, if k == 0 then lo else need[k - 1] + 1, skip)
      {
        NeedGap(c0, lo, hi, skip, need, k);
        temp := WriteAt(temp, base[need[k]].off, datas[k]);
        loaded := loaded + {need[k]};
      }
      NeedGap(c0, lo, hi, skip, need, |need|);
    }

    // ----- write mode ----------------------------------------------------------------------

    /** Whether the base chunks lie as files of this chunk size do. */
    method FitsChunkSize(cs: nat) returns (aligned: bool)
      ensures aligned <==> LooksAligned(base, cs)
    {
      aligned := true;
      for i := 0 to |base|
        invariant aligned <==> forall j :: 0 <= j < i ==> base[j].off == Off(j, cs) && (base[j].len == cs || j == |base| - 1)
      {
        var ok := base[i].off == i * cs && (base[i].len == cs || i == |base| - 1);
        aligned := aligned && ok;
      }
    }

    /** Fills in the fields; nothing is downloaded unless the stored layout does not fit the chunk size. */
    method LoadFields(store: Store, rows: seq<Row>, size0: nat) returns (ghost fetched: set<nat>)
      requires store.Linked() && temp == [] && forall r :: r in rows ==> r.sha in store.meta.blobs
      modifies this`size, this`base, this`loaded, this`dirtyIdx, this`temp
      ensures Fields() == Materialized(rows, size0, store.chunkSize) && fetched == EnterFetch(rows, store.chunkSize)
    {
      size, fetched := size0, {};
      base, loaded, dirtyIdx := rows, {}, {};
      var aligned := FitsChunkSize(store.chunkSize);
      if !aligned {
        EnterFetchIs(rows, size0);
        ghost var order;
        fetched, order := LoadRange(store, 0, |base|, {});
        dirtyIdx := Range(0, |base|);
        base, loaded := [], {};
      }
    }

    /** Switches to write mode. */
    method Materialize(store: Store) returns (ghost fetched: set<nat>)
      requires Valid(store) && Openable(store)
      modifies this`materialized, this`size, this`base, this`loaded, this`dirtyIdx, this`temp
      ensures Valid(store) && materialized && Fields() == old(WriteMode(store))
      ensures Contents(store) == old(Contents(store))
      ensures old(Faithful(store)) ==> Faithful(store)
      ensures old(Whole(store)) ==> Whole(store)
      ensures IsTight(store) == old(IsTight(store))
      ensures fetched == old(Entering(store))
    {
      if materialized {
        return {};
      }
      var rows := RowsOf(store.meta.chunks, ino);
      store.Offers(ino);
      fetched := LoadFields(store, rows, store.meta.sizes[ino]);
      MaterializeKeeps(rows, size, store.chunkSize);
      MaterializedTight(rows, size, store.chunkSize);
      materialized := true;
    }

    /** Flags the base chunks of [lo, hi) that will be overwritten whole; their stored bytes are not needed. */
    method FlagCovered(lo: nat, hi: nat, start: nat, end: nat) returns (skip: set<nat>)
      modifies this`loaded
      ensures skip == Covered(base, lo, hi, start, end) && loaded == old(loaded) + skip
    {
      skip := {};
      var i := lo;
      while i < hi && i < |base|
        invariant lo <= i && (i == lo || i <= hi)
        invariant skip == Covered(base, lo, i, start, end)
        invariant loaded == old(loaded) + skip
      {
        if start <= base[i].off && end >= base[i].off + base[i].len {
          skip := skip + {i};
          loaded := loaded + {i};
        }
        i := i + 1;
      }
    }

    /** Makes bytes [start, end) of the temp file valid; fully overwritten chunks are only flagged. */
    method PrepareRange(store: Store, start: nat, end: nat, overwrite: bool) returns (ghost fetched: set<nat>)
      requires Loadable(store)
      modifies this`temp, this`loaded
      ensures Fields() == Prepare(old(Fields()), store.chunkSize, start, end, overwrite)
      ensures fetched == PrepareFetch(old(Fields()), store.chunkSize, start, end, overwrite)
    {
      ghost var c0 := Fields();
      var cs := store.chunkSize;
      var end' := Min(end, size);
      if end' <= start || base == [] {
        return {};
      }
      var lo, hi := start / cs, (end' - 1) / cs + 1;
      var skip: set<nat> := {};
      if overwrite {
        skip := FlagCovered(lo, hi, start, end');
      }
      ghost var c1 := c0.(loaded := c0.loaded + skip);
      assert c1 == Fields();
      ghost var order;
      fetched, order := LoadRange(store, lo, hi, skip);
      LoadBeyond(c1, lo, hi, skip);
      PrepareIs(c0, cs, start, end, overwrite, lo, hi, skip);
    }

    /** Extends the file with zeros; a partial last base chunk changes and so is loaded and dirty. */
    method GrowTo(store: Store, newSize: nat) returns (ghost fetched: set<nat>)
      requires Loadable(store)
      modifies this`temp, this`loaded, this`dirtyIdx, this`size
      ensures Fields() == Grow(old(Fields()), store.chunkSize, newSize)
      ensures fetched == GrowFetch(old(Fields()), store.chunkSize, newSize)
    {
      fetched := {};
      if newSize <= size {
        return;
      }
      var cs := store.chunkSize;
      if base != [] && size % cs != 0 && |base| == size / cs + 1 {
        var b := |base| - 1;
        ghost var order;
        fetched, order := LoadRange(store, b, b + 1, {});
        dirtyIdx := dirtyIdx + {b};
      }
      size := newSize;
    }

    // ----- operations ----------------------------------------------------------------------

    /** A read returns the file's bytes, clamped at its end, and leaves the file as it is. */
    method Read(store: Store, n: nat, offset: nat) returns (data: Data, ghost fetched: set<nat>)
      requires Valid(store)
      modifies this`temp, this`loaded
      ensures Valid(store) && Contents(store) == old(Contents(store))
      ensures data <= Slice(old(Contents(store)), offset, offset + n)
      ensures old(Whole(store)) ==> Whole(store) && data == Slice(old(Contents(store)), offset, offset + n)
      ensures old(Faithful(store)) ==> Faithful(store)
      ensures HasStale(store) == old(HasStale(store)) && IsTight(store) == old(IsTight(store))
      ensures fetched == if materialized then PrepareFetch(old(Fields()), store.chunkSize, offset, Min(offset + n, size), false) else {}
    {
      fetched := {};
      if !materialized {
        data := store.ReadRange(ino, offset, n);
        return;
      }
      ghost var c, cs, rows := Fields(), store.chunkSize, store.Rows(ino);
      var end := Min(offset + n, size);
      ReadRefines(c, cs, rows, offset, n);
      ReadKeeps(c, cs, rows, offset, end);
      if end <= offset {
        return [], {};
      }
      BaseKnown(store);
      fetched := PrepareRange(store, offset, end, false);
      TightSame(c, Fields(), cs, rows);
      data := ReadAt(temp, offset, end - offset);
    }

    /** A write acts as on a plain byte array. */
    method Write(store: Store, data: Data, offset: nat) returns (ghost fetched: set<nat>)
      requires Valid(store) && Openable(store)
      modifies this`materialized, this`size, this`base, this`loaded, this`dirtyIdx, this`temp, this`dirty
      ensures Valid(store) && materialized && dirty
      ensures Fields() == SparseFile.Write(old(WriteMode(store)), store.chunkSize, data, offset)
      ensures Contents(store) == Overwrite(old(Contents(store)), offset, data)
      ensures old(Faithful(store)) ==> Faithful(store)
      ensures old(Whole(store)) && (data == [] ==> offset <= |old(Contents(store))|) ==> Whole(store)
      ensures data == [] && |old(Contents(store))| < offset ==> !Whole(store)
      ensures old(IsTight(store)) && Seamless(|old(Contents(store))|, |store.Stored(ino)|, offset) ==> IsTight(store)
      ensures fetched == old(Entering(store)) + WriteFetch(old(WriteMode(store)), store.chunkSize, offset, offset + |data|)
    {
      fetched := Materialize(store);
      ghost var more := WriteOpened(store, data, offset);
      fetched := fetched + more;
    }

    /** The write itself, in write mode. */
    method WriteOpened(store: Store, data: Data, offset: nat) returns (ghost fetched: set<nat>)
      requires Valid(store) && materialized
      modifies this`size, this`loaded, this`dirtyIdx, this`temp, this`dirty
      ensures Valid(store) && dirty && Fields() == SparseFile.Write(old(Fields()), store.chunkSize, data, offset)
      ensures Contents(store) == Overwrite(old(Contents(store)), offset, data)
      ensures old(Faithful(store)) ==> Faithful(store)
      ensures old(Whole(store)) && (data == [] ==> offset <= |old(Contents(store))|) ==> Whole(store)
      ensures data == [] && |old(Contents(store))| < offset ==> !Whole(store)
      ensures old(IsTight(store)) && Seamless(|old(Contents(store))|, |store.Stored(ino)|, offset) ==> IsTight(store)
      ensures fetched == WriteFetch(old(Fields()), store.chunkSize, offset, offset + |data|)
    {
      store.Offers(ino);
      ghost var c, rows := Fields(), store.Rows(ino);
      ghost var c' := SparseFile.Write(c, store.chunkSize, data, offset);
      WriteKeeps(c, c', store.chunkSize, rows, data, offset);
      BaseKnown(store);
      fetched := WriteFields(store, data, offset);
      dirty := true;
      assert Fields() == c';
    }

    method WriteFields(store: Store, data: Data, offset: nat) returns (ghost fetched: set<nat>)
      requires Loadable(store)
      modifies this`size, this`loaded, this`dirtyIdx, this`temp
      ensures Fields() == SparseFile.Write(old(Fields()), store.chunkSize, data, offset)
      ensures fetched == WriteFetch(old(Fields()), store.chunkSize, offset, offset + |data|)
    {
      fetched := MakeReady(store, offset, offset + |data|);
      temp := WriteAt(temp, offset, data);
      dirtyIdx := dirtyIdx + Dirtied(store.chunkSize, offset, data);
    }

    method MakeReady(store: Store, start: nat, end: nat) returns (ghost fetched: set<nat>)
      requires Loadable(store)
      modifies this`size, this`loaded, this`dirtyIdx, this`temp
      ensures Fields() == Grow(Prepare(old(Fields()), store.chunkSize, start, end, true), store.chunkSize, end)
      ensures fetched == WriteFetch(old(Fields()), store.chunkSize, start, end)
    {
      fetched := PrepareRange(store, start, end, true);
      ghost var more := GrowTo(store, end);
      fetched := fetched + more;
    }

    /** A truncate acts as ftruncate on a plain byte array. */
    method Truncate(store: Store, length: nat) returns (ghost fetched: set<nat>)
      requires Valid(store) && Openable(store)
      modifies this`materialized, this`size, this`base, this`loaded, this`dirtyIdx, this`temp, this`dirty
      ensures Valid(store) && materialized && dirty
      ensures Fields() == SparseFile.Truncate(old(WriteMode(store)), store.chunkSize, length)
      ensures Contents(store) == Resize(old(Contents(store)), length)
      ensures Whole(store)
      ensures old(Faithful(store)) ==> Faithful(store)
      ensures old(IsTight(store)) && Seamless(|old(Contents(store))|, |store.Stored(ino)|, length) ==> IsTight(store)
      ensures fetched == old(Entering(store)) + TruncateFetch(old(WriteMode(store)), store.chunkSize, length)
    {
      fetched := Materialize(store);
      store.Offers(ino);
      ghost var c, cs, rows := Fields(), store.chunkSize, store.Rows(ino);
      TruncateRefines(c, cs, rows, length);
      if Tight(c, cs, rows) && Seamless(c.size, |Content(rows)|, length) {
        TruncateTight(c, cs, rows, length);
      }
      BaseKnown(store);
      ghost var more := TruncateFields(store, length);
      fetched := fetched + more;
      dirty := true;
    }

    method TruncateFields(store: Store, length: nat) returns (ghost fetched: set<nat>)
      requires Loadable(store)
      modifies this`size, this`base, this`loaded, this`dirtyIdx, this`temp
      ensures Fields() == SparseFile.Truncate(old(Fields()), store.chunkSize, length)
      ensures fetched == TruncateFetch(old(Fields()), store.chunkSize, length)
    {
      if length < size {
        fetched := CutAt(store, length);
        ShrinkTo(store.chunkSize, length);
      } else {
        fetched := GrowTo(store, length);
        temp := Resize(temp, length);
      }
    }

    /** Keeps the surviving prefix of the chunk that the new end cuts through. */
    method CutAt(store: Store, length: nat) returns (ghost fetched: set<nat>)
      requires Loadable(store)
      modifies this`loaded, this`dirtyIdx, this`temp
      ensures Fields() == Cut(old(Fields()), store.chunkSize, length)
      ensures fetched == CutFetch(old(Fields()), store.chunkSize, length)
    {
      fetched := {};
      var cs := store.chunkSize;
      var b := length / cs;
      if length % cs != 0 && b < |base| {
        ghost var order;
        fetched, order := LoadRange(store, b, b + 1, {});
        dirtyIdx := dirtyIdx + {b};
      }
    }

    method ShrinkTo(cs: nat, length: nat)
      requires cs > 0
      modifies this`size, this`base, this`loaded, this`dirtyIdx, this`temp
      ensures Fields() == Trimmed(old(Fields()), Chunks(length, cs), length)
    {
      var keep := (length + cs - 1) / cs;
      CeilIs(length, cs);
      base := base[..Min(keep, |base|)];
      loaded := set i | i in loaded && i < keep;
      dirtyIdx := set i | i in dirtyIdx && i < keep;
      size := length;
      temp := Resize(temp, length);
    }

    /** Chunks that a flush would store with old bytes; see FlushFile.Stale. */
    ghost predicate HasStale(store: Store)
      requires store.chunkSize > 0
      reads this, store.meta
    {
      materialized && dirty && Stale(Fields(), store.chunkSize, store.Rows(ino))
    }

    /**
      Pushes pending changes to the store. If an upload fails nothing changes and they stay pending. What is stored
      afterwards is the file if and only if its clean chunks were faithful and none was stale; the running file is
      unaffected either way.
     */
    method Flush(store: Store) returns (ok: bool)
      requires Valid(store)
      modifies this`temp, this`base, this`loaded, this`dirtyIdx, this`dirty, store.meta, store.backend
      ensures Valid(store) && Contents(store) == old(Contents(store))
      ensures materialized == old(materialized)
      ensures ok ==> !dirty
      ensures !ok ==> dirty && old(dirty)
      ensures !ok || !old(dirty) ==>
                store.meta.chunks == old(store.meta.chunks) && store.meta.sizes == old(store.meta.sizes)
                && store.meta.blobs == old(store.meta.blobs) && store.backend.live == old(store.backend.live)
      ensures ok && old(dirty) ==>
                && store.meta.chunks == SetRows(old(store.meta.chunks), ino, FlushRows(old(Fields()), store.chunkSize, old(store.Rows(ino))))
                && store.meta.sizes == SetSizeOf(old(store.meta.sizes), ino, old(size))
                && Fields() == Flushed(old(Fields()), store.chunkSize, old(store.Rows(ino)))
      ensures ok && old(dirty) ==> (store.Stored(ino) == Contents(store) <==> old(Faithful(store)) && !old(HasStale(store)))
      ensures ok && old(dirty) ==> (Faithful(store) <==> old(Faithful(store)) && !old(HasStale(store)))
      ensures old(Faithful(store)) && !ok ==> Faithful(store)
      ensures old(dirty) ==> Whole(store)
      ensures ok && old(dirty) ==> IsTight(store)
      ensures !ok ==> HasStale(store) == old(HasStale(store)) && IsTight(store) == old(IsTight(store))
      ensures !old(dirty) ==> unchanged(this) && unchanged(store.meta) && unchanged(store.backend)
    {
      ok := true;
      if dirty {
        ok := FlushDirty(store);
      }
    }

    method FlushDirty(store: Store) returns (ok: bool)
      requires Valid(store) && dirty
      modifies this`temp, this`base, this`loaded, this`dirtyIdx, this`dirty, store.meta, store.backend
      ensures Valid(store) && Contents(store) == old(Contents(store))
      ensures dirty == !ok
      ensures !ok ==>
                store.meta.chunks == old(store.meta.chunks) && store.meta.sizes == old(store.meta.sizes)
                && store.meta.blobs == old(store.meta.blobs) && store.backend.live == old(store.backend.live)
      ensures ok ==>
                && store.meta.chunks == SetRows(old(store.meta.chunks), ino, FlushRows(old(Fields()), store.chunkSize, old(store.Rows(ino))))
                && store.meta.sizes == SetSizeOf(old(store.meta.sizes), ino, old(size))
                && Fields() == Flushed(old(Fields()), store.chunkSize, old(store.Rows(ino)))
      ensures ok ==> (store.Stored(ino) == Contents(store) <==> old(Faithful(store)) && !old(HasStale(store)))
      ensures ok ==> (Faithful(store) <==> old(Faithful(store)) && !old(HasStale(store)))
      ensures old(Faithful(store)) && !ok ==> Faithful(store)
      ensures Whole(store)
      ensures ok ==> IsTight(store)
      ensures !ok ==> HasStale(store) == old(HasStale(store)) && IsTight(store) == old(IsTight(store))
    {
      ghost var c, cs, rows := Fields(), store.chunkSize, store.Rows(ino);
      store.Offers(ino);
      TightSame(c, c.(temp := Resize(c.temp, c.size)), cs, rows);
      FlushKeepsView(c, cs, rows);
      TempExtended(c, cs, rows);
      FlushFaithful(c, cs, rows);
      ok := FlushFields(store);
      assert Fields() == if ok then Flushed(c, cs, rows) else c.(temp := Resize(c.temp, c.size));
      assert store.Rows(ino) == if ok then FlushRows(c, cs, rows) else rows;
      assert Inv(Fields(), cs, store.Rows(ino)) && View(Fields(), cs) == View(c, cs) && Backed(Fields(), cs);
    }

    method FlushFields(store: Store) returns (ok: bool)
      requires store.Valid() && dirty
      modifies this`temp, this`base, this`loaded, this`dirtyIdx, this`dirty, store.meta, store.backend
      ensures store.Valid() && dirty == !ok
      ensures !ok ==> Fields() == old(Fields()).(temp := Resize(old(temp), size))
      ensures !ok ==> store.meta.chunks == old(store.meta.chunks) && store.meta.sizes == old(store.meta.sizes)
      ensures !ok ==> store.meta.blobs == old(store.meta.blobs) && store.backend.live == old(store.backend.live)
      ensures ok ==> store.meta.chunks == SetRows(old(store.meta.chunks), ino, FlushRows(old(Fields()), store.chunkSize, old(store.Rows(ino))))
      ensures ok ==> store.meta.sizes == SetSizeOf(old(store.meta.sizes), ino, size)
      ensures ok ==> Fields() == Flushed(old(Fields()), store.chunkSize, old(store.Rows(ino)))
    {
      temp := Resize(temp, size);
      var oldN := |base|;
      ok := store.PutFile(ino, temp, Some(dirtyIdx));
      if !ok {
        return;
      }
      base := RowsOf(store.meta.chunks, ino);
      loaded := loaded + Range(oldN, |base|);
      dirtyIdx := {};
      dirty := false;
    }

    lemma BaseKnown(store: Store)
      requires store.Valid() && Inv(Fields(), store.chunkSize, store.Rows(ino))
      ensures Loadable(store)
    {
      assert Look(Layout, 0);
      store.Offers(ino);
    }
  }

  /** Where nothing is needed, loading further changes nothing. */
  lemma {:induction false} LoadGap(c: Core, lo: nat, mid: nat, hi: nat, skip: set<nat>)
    requires lo <= mid <= hi && forall i :: mid <= i < hi ==> !Needed(c, i, skip)
    ensures Load(c, lo, hi, skip) == Load(c, lo, mid, skip)
    decreases hi
  {
    if mid < hi {
      LoadGap(c, lo, mid, hi - 1, skip);
    }
  }

  /** Between two neighbours of the list nothing is to be pulled in. */
  lemma NeedGap(c: Core, lo: nat, hi: nat, skip: set<nat>, need: seq<nat>, k: nat)
    requires NeedList(c, lo, hi, skip, need) && k <= |need|
    ensures var mid := if k == 0 then lo else need[k - 1] + 1;
            var next := if k < |need| then need[k] else hi;
            && (mid <= next ==> Load(c, lo, next, skip) == Load(c, lo, mid, skip))
            && (k < |need| ==> mid <= next && Needed(c, next, skip))
            && (k == |need| && hi < mid ==> Load(c, lo, hi, skip) == Load(c, lo, mid, skip))
  {
    var mid := if k == 0 then lo else need[k - 1] + 1;
    var next := if k < |need| then need[k] else hi;
    forall j | 0 <= j < |need|
      ensures need[j] < mid || next <= need[j]
    {
      if j < k {
        assert j == k - 1 || need[j] < need[k - 1];
      }
    }
    assert forall i :: mid <= i < next ==> i !in need;
    if mid <= next {
      LoadGap(c, lo, mid, next, skip);
    }
  }

  /** A range past the base list is cut to it. */
  lemma LoadBeyond(c: Core, lo: nat, hi: nat, skip: set<nat>)
    ensures Load(c, lo, hi, skip) == Load(c, lo, Min(hi, |c.base|), skip)
  {
    if |c.base| < hi {
      if lo <= |c.base| {
        LoadGap(c, lo, |c.base|, hi, skip);
      } else if lo <= hi {
        LoadGap(c, lo, lo, hi, skip);
      }
    }
  }

  lemma PrepareIs(c: Core, cs: nat, start: nat, end: nat, overwrite: bool, lo: nat, hi: nat, skip: set<nat>)
    requires cs > 0 && start < Min(end, c.size) && c.base != []
    requires lo == start / cs && hi == (Min(end, c.size) - 1) / cs + 1
    requires skip == if overwrite then Covered(c.base, lo, hi, start, Min(end, c.size)) else {}
    ensures Prepare(c, cs, start, end, overwrite) == Load(c.(loaded := c.loaded + skip), lo, hi, skip)
  {
  }

  lemma FlushFaithful(c: Core, cs: nat, rows: seq<Row>)
    requires cs > 0 && Inv(c, cs, rows) && Tiles(rows)
    ensures Content(FlushRows(c, cs, rows)) == View(c, cs) <==> Coherent(c, cs) && !Stale(c, cs, rows)
    ensures Coherent(Flushed(c, cs, rows), cs) <==> Coherent(c, cs) && !Stale(c, cs, rows)
  {
    FlushStoresView(c, cs, rows);
    FlushCoherent(c, cs, rows);
  }

  lemma ReadKeeps(c: Core, cs: nat, rows: seq<Row>, start: nat, end: nat)
    requires cs > 0 && Inv(c, cs, rows)
    ensures Inv(Prepare(c, cs, start, end, false), cs, rows)
    ensures Coherent(c, cs) ==> Coherent(Prepare(c, cs, start, end, false), cs)
    ensures Backed(c, cs) ==> Backed(Prepare(c, cs, start, end, false), cs)
  {
    PrepareKeeps(c, cs, rows, start, end, false);
    if Coherent(c, cs) {
      PrepareReadCoherent(c, cs, rows, start, end);
    }
    if Backed(c, cs) {
      PrepareBacked(c, cs, rows, start, end);
    }
  }

  lemma WriteKeeps(c: Core, c': Core, cs: nat, rows: seq<Row>, data: Data, off: nat)
    requires cs > 0 && Inv(c, cs, rows) && Tiles(rows) && c' == SparseFile.Write(c, cs, data, off)
    ensures Inv(c', cs, rows) && View(c', cs) == Overwrite(View(c, cs), off, data)
    ensures Coherent(c, cs) ==> Coherent(c', cs)
    ensures Backed(c, cs) && (data == [] ==> off <= c.size) ==> Backed(c', cs)
    ensures data == [] && c.size < off ==> !Backed(c', cs)
    ensures Tight(c, cs, rows) && Seamless(c.size, |Content(rows)|, off) ==> Tight(c', cs, rows)
  {
    WriteRefines(c, cs, rows, data, off);
    if Coherent(c, cs) {
      WriteCoherent(c, cs, rows, data, off);
    }
    if Backed(c, cs) && (data == [] ==> off <= c.size) {
      WriteBacked(c, cs, rows, data, off);
    }
    if data == [] && c.size < off {
      EmptyWriteUnbacks(c, cs, rows, off);
    }
    if Tight(c, cs, rows) && Seamless(c.size, |Content(rows)|, off) {
      WriteTight(c, cs, rows, data, off);
    }
  }

  /** Extending the temp file with zeros up to the size changes no byte. */
  lemma TempExtended(c: Core, cs: nat, rows: seq<Row>)
    requires cs > 0 && Inv(c, cs, rows)
    ensures var c' := c.(temp := Resize(c.temp, c.size));
            && Inv(c', cs, rows) && View(c', cs) == View(c, cs) && Backed(c', cs)
            && (Coherent(c, cs) ==> Coherent(c', cs))
  {
    var c' := c.(temp := Resize(c.temp, c.size));
    StretchedInv(c, cs, rows);
    forall p: nat | p < c.size
      ensures ViewAt(c', cs, p) == ViewAt(c, cs, p)
    {
      assert At(c'.temp, p) == At(c.temp, p);
    }
    SameBytes(View(c', cs), View(c, cs));
    assert Look(Backing, 0);
    if Coherent(c, cs) {
      assert Look(Coherence, 0);
      forall p: nat
        ensures CoherentAt(c', cs, p)
      {
        assert CoherentAt(c, cs, p);
        StretchedCoherent(c, cs, rows, p);
      }
    }
  }
}
