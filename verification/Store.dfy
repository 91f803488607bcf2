/** Chunking and content-addressed dedup over the metadata tables and the blob backend. */
module Store {
  import opened Bytes
  import opened Blobs
  import opened Plan
  import opened Tables

  /** The chunk, size and blob columns of the metadata index (the directory tree is in module Tree). */
  class Meta {
    var chunks: ChunkTable
    var sizes: map<Ino, nat>
    var blobs: BlobTable

    constructor ()
      ensures chunks == map[] && sizes == map[] && blobs == map[]
    {
      chunks, sizes, blobs := map[], map[], map[];
    }

    /** An empty list leaves no rows. */
    method SetChunks(ino: Ino, rows: seq<Row>)
      modifies this`chunks
      ensures chunks == SetRows(old(chunks), ino, rows)
    {
      chunks := chunks - {ino};
      if rows != [] {
        chunks := chunks[ino := rows];
      }
    }

    /** Updates nothing when the inode row is gone. */
    method SetSize(ino: Ino, size: nat)
      modifies this`sizes
      ensures sizes == SetSizeOf(old(sizes), ino, size)
    {
      if ino in sizes {
        sizes := sizes[ino := size];
      }
    }

    /** A new inode's row starts with size 0. */
    method InsertRow(ino: Ino)
      modifies this`sizes
      ensures sizes == old(sizes)[ino := 0]
    {
      sizes := sizes[ino := 0];
    }

    method DeleteRow(ino: Ino)
      modifies this`sizes
      ensures sizes == old(sizes) - {ino}
    {
      sizes := sizes - {ino};
    }

    method BlobCreate(sha: Sha, handle: Handle, len: nat)
      requires sha !in blobs
      modifies this`blobs
      ensures blobs == old(blobs)[sha := Blob(handle, len, 1)]
    {
      blobs := blobs[sha := Blob(handle, len, 1)];
    }

    method BlobIncref(sha: Sha)
      modifies this`blobs
      ensures blobs.Keys == old(blobs).Keys
      ensures forall s :: Ref(blobs, s) == Ref(old(blobs), s) + if s == sha && s in blobs then 1 else 0
      ensures forall s :: s in blobs ==> blobs[s] == old(blobs)[s].(refcount := Ref(blobs, s))
    {
      if sha in blobs {
        blobs := blobs[sha := blobs[sha].(refcount := blobs[sha].refcount + 1)];
      }
    }

    /** Drops one reference; the last one drops the row and yields the handle to delete. */
    method BlobDecref(sha: Sha) returns (handle: Option<Handle>)
      modifies this`blobs
      ensures forall s :: s in old(blobs) && s != sha ==> s in blobs && blobs[s] == old(blobs)[s]
      ensures blobs.Keys == if handle.Some? then old(blobs).Keys - {sha} else old(blobs).Keys
      ensures handle.Some? <==> sha in old(blobs) && old(blobs)[sha].refcount <= 1
      ensures handle.Some? ==> handle.value == old(blobs)[sha].handle
      ensures sha in blobs ==> blobs[sha] == old(blobs)[sha].(refcount := old(blobs)[sha].refcount - 1)
    {
      if sha !in blobs {
        return None;
      }
      if blobs[sha].refcount <= 1 {
        handle := Some(blobs[sha].handle);
        blobs := blobs - {sha};
      } else {
        handle := None;
        blobs := blobs[sha := blobs[sha].(refcount := blobs[sha].refcount - 1)];
      }
    }
  }

  /** A handle-to-bytes store. Handles count up; `next` - 1 is the number of uploads made. */
  class MemoryBackend {
    var live: map<Handle, Data>
    var next: Handle

    constructor ()
      ensures live == map[] && next == 1
    {
      live, next := map[], 1;
    }

    ghost predicate Valid()
      reads this
    {
      forall h :: h in live ==> h < next
    }

    /** May fail, storing nothing. */
    method Upload(data: Data) returns (handle: Option<Handle>)
      requires Valid()
      modifies this
      ensures Valid()
      ensures handle.None? ==> live == old(live) && next == old(next)
      ensures handle.Some? ==>
                handle.value == old(next) && next == old(next) + 1 && live == old(live)[handle.value := data]
    {
      if * {
        return None;
      }
      handle := Some(next);
      live := live[next := data];
      next := next + 1;
    }

    method Delete(handle: Handle)
      requires Valid()
      modifies this`live
      ensures Valid() && live == old(live) - {handle}
    {
      live := live - {handle};
    }
  }

  class Store {
    const meta: Meta
    const backend: MemoryBackend
    const chunkSize: nat
    const downloadWorkers: nat

    constructor (meta: Meta, backend: MemoryBackend, chunkSize: nat, downloadWorkers: nat)
      requires chunkSize > 0
      ensures this.meta == meta && this.backend == backend && this.chunkSize == chunkSize
      ensures this.downloadWorkers == Max(1, downloadWorkers)
      // any tables in order will do, empty ones among them
      ensures Valid() <==>
              backend.Valid() && Tables.Linked(meta.blobs, backend.live) && Counted(meta.chunks, meta.blobs) && Tiled(meta.chunks, meta.sizes)
      ensures meta.chunks == map[] && meta.blobs == map[] && backend.live == map[] && (forall i :: i in meta.sizes ==> meta.sizes[i] == 0) ==>
                Valid()
    {
      this.meta, this.backend, this.chunkSize := meta, backend, chunkSize;
      this.downloadWorkers := Max(1, downloadWorkers);
      new;
      assert Look(Accounts, 0);
      EmptyTables(meta.chunks);
    }

    /** Blob rows and live handles match one to one. Holds between any two steps of a call. */
    ghost predicate Linked()
      reads meta, backend
    {
      chunkSize > 0 && downloadWorkers > 0 && backend.Valid() && Tables.Linked(meta.blobs, backend.live)
    }

    /** Between calls, moreover, every refcount is exactly the number of rows naming the sha. */
    ghost predicate Valid()
      reads meta, backend
    {
      chunkSize > 0 && forall k: nat {:trigger Look(Accounts, k)} :: Look(Accounts, k) ==> Settled()
    }

    ghost predicate Settled()
      reads meta, backend
    {
      Linked() && Counted(meta.chunks, meta.blobs) && Tiled(meta.chunks, meta.sizes)
    }

    /** What a valid store offers about one inode. */
    lemma Offers(ino: Ino)
      requires Valid()
      ensures Linked() && Tiles(Rows(ino)) && forall r :: r in Rows(ino) ==> r.sha in meta.blobs
      ensures ino in meta.sizes ==> meta.sizes[ino] == |Stored(ino)|
    {
      assert Look(Accounts, 0);
      RowsKnown(meta.chunks, meta.blobs, ino);
    }

    /** Adding an empty file's row or dropping a row concerns nothing else. */
    twostate lemma RowsChanged(ino: Ino)
      requires old(Valid()) && meta.chunks == old(meta.chunks) && meta.blobs == old(meta.blobs)
      requires unchanged(backend)
      requires meta.sizes == old(meta.sizes) - {ino} || (meta.sizes == old(meta.sizes)[ino := 0] && Rows(ino) == [])
      ensures Valid()
    {
      assert Look(Accounts, 0);
      assert Content([]) == [];
    }

    ghost function Rows(ino: Ino): seq<Row>
      reads meta
    {
      RowsOf(meta.chunks, ino)
    }

    /** The bytes an inode's rows stand for. */
    ghost function Stored(ino: Ino): Data
      reads meta
    {
      Content(Rows(ino))
    }

    /** Between calls no blob is without a row that names it. */
    lemma BlobHasRow(s: Sha) returns (ino: Ino)
      requires Valid() && s in meta.blobs
      ensures ino in meta.chunks && exists r :: r in Rows(ino) && r.sha == s
    {
      assert Look(Accounts, 0);
      ino := RowRefsFind(meta.chunks, s);
      InBag(Rows(ino), s);
    }

    // ----- writing -------------------------------------------------------------------------

    method Release(sha: Sha)
      requires Linked()
      modifies meta`blobs, backend`live
      ensures Linked()
      ensures forall s :: Ref(meta.blobs, s) == Ref(old(meta.blobs), s) - if s == sha && s in old(meta.blobs) then 1 else 0
      ensures forall s :: s in meta.blobs ==> s in old(meta.blobs) && meta.blobs[s].handle == old(meta.blobs)[s].handle
    {
      var handle := meta.BlobDecref(sha);
      if handle.Some? {
        backend.Delete(handle.value);
      }
    }

    /** Drops one reference per entry of a list that never asks for more than there are. */
    method ReleaseAll(shas: seq<Sha>, skip: set<Sha>)
      requires Linked()
      requires forall s :: Takes(shas, skip, s) <= Ref(meta.blobs, s)
      modifies meta`blobs, backend`live
      ensures Linked()
      ensures forall s :: Ref(meta.blobs, s) == Ref(old(meta.blobs), s) - Takes(shas, skip, s)
      ensures forall s :: s in meta.blobs ==> s in old(meta.blobs) && meta.blobs[s].handle == old(meta.blobs)[s].handle
    {
      for k := 0 to |shas|
        invariant Linked()
        invariant forall s :: Ref(meta.blobs, s) == Ref(old(meta.blobs), s) - Tally(shas, k, skip, s)
        invariant forall s :: s in meta.blobs ==> s in old(meta.blobs) && meta.blobs[s].handle == old(meta.blobs)[s].handle
      {
        TallyMono(shas, k + 1, |shas|, skip, shas[k]);
        TallyStep(shas, k, skip);
        assert Tally(shas, k + 1, skip, shas[k]) <= Ref(old(meta.blobs), shas[k]);
        if shas[k] !in skip {
          assert Ref(meta.blobs, shas[k]) > 0;
          Release(shas[k]);
        }
      }
    }

    /** Takes a reference if the blob is known. */
    method Acquire(sha: Sha) returns (known: bool)
      requires Linked()
      modifies meta`blobs
      ensures Linked()
      ensures known <==> sha in old(meta.blobs)
      ensures !known ==> meta.blobs == old(meta.blobs)
      ensures meta.blobs.Keys == old(meta.blobs).Keys
      ensures forall s :: Ref(meta.blobs, s) == Ref(old(meta.blobs), s) + if s == sha && known then 1 else 0
      ensures forall s :: s in meta.blobs ==> meta.blobs[s].handle == old(meta.blobs)[s].handle
    {
      known := sha in meta.blobs;
      if known {
        meta.BlobIncref(sha);
      }
    }

    /**
      Uploads a chunk and registers it with one reference, or, if the digest is known by then, takes a reference on it and
      deletes its own copy. No other writer intervenes here; module PutProtocol has them.
     */
    method UploadBlob(sha: Sha, data: Data) returns (ok: bool)
      requires Linked() && sha == Hash(data)
      modifies meta`blobs, backend
      ensures Linked()
      ensures !ok ==> meta.blobs == old(meta.blobs) && backend.next == old(backend.next)
      ensures ok ==> backend.next == old(backend.next) + 1 && meta.blobs.Keys == old(meta.blobs).Keys + {sha}
      ensures sha in old(meta.blobs) ==> backend.live == old(backend.live)
      ensures forall s :: Ref(meta.blobs, s) == Ref(old(meta.blobs), s) + if s == sha && ok then 1 else 0
      ensures forall s :: s in old(meta.blobs) ==> s in meta.blobs && meta.blobs[s].handle == old(meta.blobs)[s].handle
      ensures forall s :: s in old(meta.blobs) && s != sha ==> meta.blobs[s] == old(meta.blobs)[s]
    {
      ghost var blobs0, live0 := meta.blobs, backend.live;
      var handle := backend.Upload(data);
      if handle.None? {
        return false;
      }
      if sha in meta.blobs {
        meta.BlobIncref(sha);
        backend.Delete(handle.value);
        assert backend.live == live0;
        LinkedMore(blobs0, meta.blobs, live0);
      } else {
        meta.BlobCreate(sha, handle.value, |data|);
        LinkedPlus(blobs0, live0, sha, handle.value, data);
      }
      return true;
    }

    /** A chunk whose stored row is kept: its blob is known, so the "blob missing" error cannot occur. */
    method KeepChunk(ghost blobs0: BlobTable, ghost rows: seq<Row>, led: Ledger, row: Row) returns (led': Ledger)
      requires Linked() && Scanned(blobs0, meta.blobs, rows, led) && row.sha in blobs0
      modifies meta`blobs
      ensures Linked() && Scanned(blobs0, meta.blobs, rows + [row], led')
      ensures led'.pending == led.pending && led'.failed == led.failed
    {
      ghost var was := meta.blobs;
      var known := Acquire(row.sha);
      assert known;
      led' := led.(acquired := led.acquired + [row.sha]);
      ScannedKnown(blobs0, was, meta.blobs, rows, led, row);
    }

    /** A chunk read from the source: a repeat, a known blob, or an upload that may fail. */
    method AddChunk(ghost blobs0: BlobTable, ghost rows: seq<Row>, led: Ledger, ghost row: Row, data: Data)
      returns (led': Ledger)
      requires Linked() && Scanned(blobs0, meta.blobs, rows, led) && row.sha == Hash(data)
      modifies meta`blobs, backend
      ensures Linked() && Scanned(blobs0, meta.blobs, rows + [row], led')
      ensures led.failed <= led'.failed
      ensures led'.failed == {} ==> backend.next - old(backend.next) == |led'.pending| - |led.pending|
    {
      ghost var was := meta.blobs;
      var sha := Hash(data);
      if sha in led.pending {
        led' := led.(dups := led.dups + [sha]);
        ScannedDup(blobs0, was, rows, led, row);
        return;
      }
      led' := led.(acquired := led.acquired + [sha]);
      var known := Acquire(sha);
      if known {
        ScannedKnown(blobs0, was, meta.blobs, rows, led, row);
      } else {
        var ok := UploadBlob(sha, data);
        assert ok ==> Ref(meta.blobs, sha) == 1;
        assert forall s :: s in was ==> s in meta.blobs && meta.blobs[s] == was[s];
        led' := led'.(pending := led.pending + {sha}, failed := if ok then led.failed else led.failed + {sha});
        ScannedUpload(blobs0, was, meta.blobs, rows, led, row, ok);
      }
    }

    /** The loop of put_file over the chunks of `src`; it may stop early once an upload has failed. */
    method Scan(src: Data, was: seq<Row>, dirty: Option<set<nat>>) returns (rows: seq<Row>, led: Ledger)
      requires Linked() && forall r :: r in was ==> r.sha in meta.blobs
      modifies meta`blobs, backend
      ensures Linked()
      ensures Scanned(old(meta.blobs), meta.blobs, rows, led)
      ensures led.failed == {} ==> rows == PutRows(src, chunkSize, was, dirty)
      ensures led.failed == {} ==> backend.next == old(backend.next) + |led.pending|
    {
      var cs, size := chunkSize, |src|;
      ghost var n := Chunks(size, cs);
      rows, led := [], Ledger([], {}, {}, []);
      assert Bag(rows) == multiset{};
      if size > 0 {
        ChunkInside(0, size, cs);
      }
      var idx, off, pos := 0, 0, 0;
      while off < size
        invariant Linked() && idx <= n
        invariant off == if idx < n then Off(idx, cs) else size
        invariant idx < n ==> off < size
        invariant pos == off  // the source is always read at the chunk's own offset
        invariant |rows| == idx && forall k :: 0 <= k < idx ==> rows[k] == PlanRow(src, cs, was, dirty, k)
        invariant Scanned(old(meta.blobs), meta.blobs, rows, led)
        invariant led.failed == {} ==> backend.next == old(backend.next) + |led.pending|
        decreases n - idx
      {
        NextChunk(idx, size, cs);
        var row;
        row, led, pos := ScanChunk(src, was, dirty, idx, off, pos, old(meta.blobs), rows, led);
        rows := rows + [row];
        idx, off := idx + 1, off + row.len;
        if led.failed != {} {
          if * {
            return;  // a full window waits for a running upload and meets the failure now
          }
        }
      }
    }

    /** One iteration: keep the stored row of a clean chunk, or read, hash and reference the chunk. */
    method ScanChunk(src: Data, was: seq<Row>, dirty: Option<set<nat>>, idx: nat, off: nat, pos: nat,
                     ghost blobs0: BlobTable, ghost rows: seq<Row>, led: Ledger)
      returns (row: Row, led': Ledger, pos': nat)
      requires Linked() && Scanned(blobs0, meta.blobs, rows, led) && forall r :: r in was ==> r.sha in blobs0
      requires idx < Chunks(|src|, chunkSize) && pos == off == Off(idx, chunkSize)
      modifies meta`blobs, backend
      ensures Linked() && Scanned(blobs0, meta.blobs, rows + [row], led')
      ensures row == PlanRow(src, chunkSize, was, dirty, idx) && pos' == off + row.len
      ensures led.failed <= led'.failed
      ensures led'.failed == {} ==> backend.next - old(backend.next) == |led'.pending| - |led.pending|
    {
      var size := |src|;
      ChunkInside(idx, size, chunkSize);
      var want := Min(chunkSize, size - off);
      if Reused(idx, size, chunkSize, was, dirty) {
        row := Row(off, want, was[idx].sha);
        assert was[idx] in was;
        led' := KeepChunk(blobs0, rows, led, row);
        pos' := off + want;  // seek over the kept chunk
      } else {
        var data := src[pos..pos + want];
        pos' := pos + want;
        row := Row(off, want, Hash(data));
        led' := AddChunk(blobs0, rows, led, row, data);
      }
    }

    /**
      Replaces the inode's content by what `src` yields. With `dirty`, an index outside it whose stored row has
      the same offset and length keeps that row and `src` is not read there.
     */
    method PutFile(ino: Ino, src: Data, dirty: Option<set<nat>>) returns (ok: bool)
      requires Valid()
      modifies meta, backend
      ensures Valid()
      // all or nothing, and nothing but this inode's rows and size
      ensures ok ==> meta.chunks == SetRows(old(meta.chunks), ino, PutRows(src, chunkSize, old(Rows(ino)), dirty))
      ensures ok ==> meta.sizes == SetSizeOf(old(meta.sizes), ino, |src|)
      ensures !ok ==> meta.chunks == old(meta.chunks) && meta.sizes == old(meta.sizes)
      ensures !ok ==> meta.blobs == old(meta.blobs) && backend.live == old(backend.live)
      // a blob needed before and after is never deleted and uploaded again, and no digest is uploaded twice
      ensures forall s :: s in old(meta.blobs) && s in meta.blobs ==> meta.blobs[s].handle == old(meta.blobs)[s].handle
      ensures ok ==> backend.next == old(backend.next) + |NewShas(Rows(ino), old(meta.blobs))|
    {
      assert Look(Accounts, 0);
      var oldRows := RowsOf(meta.chunks, ino);
      ghost var blobs0, chunks0, live0 := meta.blobs, meta.chunks, backend.live;
      RowsKnown(chunks0, blobs0, ino);
      var rows, led := Scan(src, oldRows, dirty);
      if led.failed != {} {
        ReleaseAll(led.acquired, led.failed);
        SameBlobs(blobs0, meta.blobs, live0, backend.live);
        return false;
      }
      PutRowsAligned(src, chunkSize, oldRows, dirty);
      Commit(blobs0, ino, rows, |src|, led);
      ok := true;
    }

    /** Repeats take their references, then the list goes in for the old one. */
    method Commit(ghost blobs0: BlobTable, ino: Ino, rows: seq<Row>, size: nat, led: Ledger)
      requires Linked() && Tiled(meta.chunks, meta.sizes) && Counted(meta.chunks, blobs0)
      requires Scanned(blobs0, meta.blobs, rows, led) && led.failed == {}
      requires Tiles(rows) && |Content(rows)| == size
      modifies meta, backend`live
      ensures Valid()
      ensures meta.chunks == SetRows(old(meta.chunks), ino, rows)
      ensures meta.sizes == SetSizeOf(old(meta.sizes), ino, size)
      ensures Rows(ino) == rows && led.pending == NewShas(rows, blobs0)
      ensures forall s :: s in meta.blobs ==> s in old(meta.blobs) && meta.blobs[s].handle == old(meta.blobs)[s].handle
    {
      ghost var scanned, chunks0 := meta.blobs, meta.chunks;
      AcquireDups(led.dups);
      AllHeld(chunks0, blobs0, scanned, meta.blobs, rows, led);
      Publish(ino, rows, size, RowsOf(meta.chunks, ino));
    }

    /** Repeats of a digest uploaded by this call take their references once the upload is done. */
    method AcquireDups(dups: seq<Sha>)
      requires Linked() && forall s :: s in dups ==> s in meta.blobs
      modifies meta`blobs
      ensures Linked() && meta.blobs.Keys == old(meta.blobs).Keys
      ensures forall s :: Ref(meta.blobs, s) == Ref(old(meta.blobs), s) + Takes(dups, {}, s)
      ensures forall s :: s in meta.blobs ==> meta.blobs[s].handle == old(meta.blobs)[s].handle
    {
      for k := 0 to |dups|
        invariant Linked() && meta.blobs.Keys == old(meta.blobs).Keys
        invariant forall s :: Ref(meta.blobs, s) == Ref(old(meta.blobs), s) + Tally(dups, k, {}, s)
        invariant forall s :: s in meta.blobs ==> meta.blobs[s].handle == old(meta.blobs)[s].handle
      {
        assert dups[k] in dups;
        meta.BlobIncref(dups[k]);
      }
    }

    /** Rows and size are replaced first, only then are the old references dropped. */
    method Publish(ino: Ino, rows: seq<Row>, size: nat, oldRows: seq<Row>)
      requires Linked() && Tiled(meta.chunks, meta.sizes) && oldRows == RowsOf(meta.chunks, ino)
      requires Tiles(rows) && |Content(rows)| == size
      requires forall s :: Ref(meta.blobs, s) == RowRefs(meta.chunks)[s] + Bag(rows)[s]
      modifies meta, backend`live
      ensures Valid()
      ensures meta.chunks == SetRows(old(meta.chunks), ino, rows)
      ensures meta.sizes == SetSizeOf(old(meta.sizes), ino, size)
      ensures forall s :: s in meta.blobs ==> s in old(meta.blobs) && meta.blobs[s].handle == old(meta.blobs)[s].handle
    {
      ghost var chunks0, sizes0, blobs0 := meta.chunks, meta.sizes, meta.blobs;
      meta.SetChunks(ino, rows);
      meta.SetSize(ino, size);
      TiledReplace(chunks0, sizes0, meta.chunks, meta.sizes, ino, rows);
      OldRefsHeld(chunks0, blobs0, ino, rows);
      ReleaseAll(Shas(oldRows), {});
      CountedReplace(chunks0, meta.chunks, blobs0, meta.blobs, ino, rows);
    }

    /** Releases everything an inode without links refers to. */
    method FreeFile(ino: Ino)
      requires Valid() && ino !in meta.sizes
      modifies meta`chunks, meta`blobs, backend`live
      ensures Valid()
      ensures meta.chunks == old(meta.chunks) - {ino}
    {
      assert Look(Accounts, 0);
      var rows := RowsOf(meta.chunks, ino);
      ghost var chunks0, blobs0 := meta.chunks, meta.blobs;
      assert Bag([]) == multiset{};
      OldRefsHeld(chunks0, blobs0, ino, []);
      ReleaseAll(Shas(rows), {});
      meta.SetChunks(ino, []);
      CountedReplace(chunks0, meta.chunks, blobs0, meta.blobs, ino, []);
    }

    // ----- reading -------------------------------------------------------------------------

    /** A chunk or its [lo, hi) slice; fails only for a sha without a blob row. */
    method ReadChunk(sha: Sha, lo: nat, hi: int) returns (r: Option<Data>)
      requires Linked()
      ensures sha in meta.blobs ==> r == Some(Slice(Pre(sha), lo, hi))
      ensures sha !in meta.blobs ==> r == None
    {
      if sha !in meta.blobs {
        return None;
      }
      var data := backend.live[meta.blobs[sha].handle];
      if Hash(data) != sha {
        return None;
      }
      r := Some(Slice(data, lo, hi));
    }

    /** Chunk contents in order, with at most downloadWorkers of them requested ahead of the reader. */
    method IterChunks(shas: seq<Sha>) returns (out: seq<Data>)
      requires Linked() && forall s :: s in shas ==> s in meta.blobs
      ensures |out| == |shas| && forall k :: 0 <= k < |shas| ==> out[k] == Pre(shas[k])
    {
      out := [];
      var window: seq<Sha> := [];
      var next := 0;
      while next < |shas|
        invariant next <= |shas| && |window| < downloadWorkers
        invariant |out| <= next && window == shas[|out|..next]
        invariant forall k :: 0 <= k < |out| ==> out[k] == Pre(shas[k])
      {
        WindowGrows(shas, |out|, next);
        window := window + [shas[next]];
        next := next + 1;
        if |window| >= downloadWorkers {
          WindowSlides(shas, |out|, next);
          var data := ReadWhole(window[0]);
          out := out + [data];
          window := window[1..];
        }
      }
      while window != []
        invariant |out| <= |shas| && window == shas[|out|..|shas|]
        invariant forall k :: 0 <= k < |out| ==> out[k] == Pre(shas[k])
        decreases |window|
      {
        WindowSlides(shas, |out|, |shas|);
        var data := ReadWhole(window[0]);
        out := out + [data];
        window := window[1..];
      }
    }

    /** A whole chunk, as the download workers read it. */
    method ReadWhole(sha: Sha) returns (data: Data)
      requires Linked() && sha in meta.blobs
      ensures data == Pre(sha)
    {
      var read := ReadChunk(sha, 0, |Pre(sha)|);
      data := read.value;
    }

    /** The bytes of a chunk that lie in [offset, end). */
    method ReadPart(ch: Row, offset: nat, end: nat) returns (part: Data)
      requires Linked() && ch.sha in meta.blobs && ch.off + ch.len > offset && ch.off < end
      ensures part == Part(ch, offset, end)
    {
      var lo := Max(offset, ch.off) - ch.off;
      var hi := Min(end, ch.off + ch.len) - ch.off;
      var read := ReadChunk(ch.sha, lo, hi);
      part := read.value;
    }

    /** Assembles a byte range from the parts of the chunks that overlap it. */
    method ReadRange(ino: Ino, offset: nat, length: int) returns (out: Data)
      requires Valid()
      ensures out == Slice(Stored(ino), offset, offset + length)
    {
      if length <= 0 {
        return [];
      }
      Offers(ino);
      out := ReadParts(RowsOf(meta.chunks, ino), offset, offset + length);
    }

    method ReadParts(chunks: seq<Row>, offset: nat, end: nat) returns (out: Data)
      requires Linked() && Tiles(chunks) && offset < end && forall r :: r in chunks ==> r.sha in meta.blobs
      ensures out == Slice(Content(chunks), offset, end)
    {
      out := [];
      for k := 0 to |chunks|
        invariant out == Slice(Upto(chunks, k), offset, end)
      {
        assert chunks[k] in chunks;
        SliceStep(chunks, k, offset, end);
        out := AppendPart(out, chunks[k], offset, end);
      }
    }

    /** A chunk outside the range is no hit. */
    method AppendPart(out: Data, ch: Row, offset: nat, end: nat) returns (out': Data)
      requires Linked() && ch.sha in meta.blobs
      ensures out' == out + Part(ch, offset, end)
    {
      out' := out;
      if ch.off + ch.len > offset && ch.off < end {
        var part := ReadPart(ch, offset, end);
        out' := out + part;
      }
    }
  }

  lemma WindowGrows(shas: seq<Sha>, done: nat, next: nat)
    requires done <= next < |shas|
    ensures shas[done..next] + [shas[next]] == shas[done..next + 1]
  {
  }

  lemma WindowSlides(shas: seq<Sha>, done: nat, next: nat)
    requires done < next <= |shas|
    ensures shas[done..next][0] == shas[done] && shas[done..next][1..] == shas[done + 1..next] && shas[done] in shas
  {
  }

  /** Digests of a chunk list that a blob table does not know yet. */
  function NewShas(rows: seq<Row>, blobs: BlobTable): set<Sha> {
    set r | r in rows && r.sha !in blobs :: r.sha
  }

  lemma RowsKnown(chunks: ChunkTable, blobs: BlobTable, ino: Ino)
    requires Counted(chunks, blobs)
    ensures forall r :: r in RowsOf(chunks, ino) ==> r.sha in blobs
  {
    var rows := RowsOf(chunks, ino);
    forall r | r in rows
      ensures r.sha in blobs
    {
      var k :| 0 <= k < |rows| && rows[k] == r;
      assert Shas(rows)[k] == r.sha;
      RowRefsHas(chunks, ino, r.sha);
    }
  }

  /** Replacing one list moves its references; the old list never claims more than there are. */
  lemma RowRefsReplace(chunks: ChunkTable, chunks': ChunkTable, ino: Ino, rows: seq<Row>, s: Sha)
    requires chunks' == SetRows(chunks, ino, rows)
    ensures RowRefs(chunks')[s] + Takes(Shas(RowsOf(chunks, ino)), {}, s) == RowRefs(chunks)[s] + Bag(rows)[s]
    ensures Takes(Shas(RowsOf(chunks, ino)), {}, s) <= RowRefs(chunks)[s]
  {
    var was := Bag(RowsOf(chunks, ino));
    TakesIsCount(Shas(RowsOf(chunks, ino)), {}, s);
    RowRefsHas(chunks, ino, s);
    if rows == [] {
      RowRefsDrop(chunks, ino);
      assert Bag(rows)[s] == 0;
    } else {
      RowRefsSet(chunks, ino, rows);
      assert (RowRefs(chunks) + Bag(rows))[s] == RowRefs(chunks)[s] + Bag(rows)[s];
    }
    assert (RowRefs(chunks') + was)[s] == RowRefs(chunks')[s] + was[s];
  }

  lemma OldRefsHeld(chunks: ChunkTable, blobs: BlobTable, ino: Ino, rows: seq<Row>)
    requires forall s :: Ref(blobs, s) == RowRefs(chunks)[s] + Bag(rows)[s]
    ensures forall s :: Takes(Shas(RowsOf(chunks, ino)), {}, s) <= Ref(blobs, s)
  {
    forall s
      ensures Takes(Shas(RowsOf(chunks, ino)), {}, s) <= Ref(blobs, s)
    {
      TakesIsCount(Shas(RowsOf(chunks, ino)), {}, s);
      RowRefsHas(chunks, ino, s);
    }
  }

  lemma CountedReplace(chunks: ChunkTable, chunks': ChunkTable, blobs: BlobTable, blobs': BlobTable, ino: Ino, rows: seq<Row>)
    requires chunks' == SetRows(chunks, ino, rows)
    requires forall s :: Ref(blobs, s) == RowRefs(chunks)[s] + Bag(rows)[s]
    requires forall s :: Ref(blobs', s) == Ref(blobs, s) - Takes(Shas(RowsOf(chunks, ino)), {}, s)
    ensures Counted(chunks', blobs')
  {
    forall s
      ensures Ref(blobs', s) == RowRefs(chunks')[s]
    {
      RowRefsReplace(chunks, chunks', ino, rows, s);
    }
  }

  lemma TiledReplace(chunks: ChunkTable, sizes: map<Ino, nat>, chunks': ChunkTable, sizes': map<Ino, nat>, ino: Ino, rows: seq<Row>)
    requires Tiled(chunks, sizes) && Tiles(rows)
    requires chunks' == SetRows(chunks, ino, rows)
    requires sizes' == SetSizeOf(sizes, ino, |Content(rows)|)
    ensures Tiled(chunks', sizes')
  {
    forall j | j in sizes'
      ensures sizes'[j] == |Content(RowsOf(chunks', j))|
    {
      assert j != ino ==> RowsOf(chunks', j) == RowsOf(chunks, j);
    }
  }

  lemma SliceLeft(a: Data, b: Data, lo: nat, hi: nat)
    requires lo < hi <= |a|
    ensures Slice(a + b, lo, hi) == Slice(a, lo, hi)
  {
    assert (a + b)[lo..hi] == a[lo..hi];
  }

  lemma SliceRight(a: Data, b: Data, lo: nat, hi: nat)
    requires |a| <= lo < hi
    ensures Slice(a + b, lo, hi) == Slice(b, lo - |a|, hi - |a|)
  {
    var m := Min(hi, |a| + |b|);
    if lo < m {
      assert (a + b)[lo..m] == b[lo - |a|..m - |a|];
    }
  }

  lemma SliceAcross(a: Data, b: Data, lo: nat, hi: nat, m: nat)
    requires lo < |a| < hi && m == Min(hi, |a| + |b|)
    ensures Slice(a + b, lo, hi) == Slice(a, lo, hi) + Slice(b, 0, m - |a|)
  {
    assert (a + b)[lo..m] == a[lo..] + b[..m - |a|];
    assert Slice(b, 0, m - |a|) == b[..m - |a|];
  }

  lemma SliceConcat(a: Data, b: Data, off: nat, len: nat, lo: nat, hi: nat)
    requires lo < hi && off == |a| && len == |b|
    ensures Slice(a + b, lo, hi) ==
            Slice(a, lo, hi) + if off + len > lo && off < hi then Slice(b, Max(lo, off) - off, Min(hi, off + len) - off) else []
  {
    if hi <= off {
      SliceLeft(a, b, lo, hi);
    } else if lo >= off {
      SliceRight(a, b, lo, hi);
    } else {
      SliceAcross(a, b, lo, hi, Min(hi, off + len));
    }
  }

  /** Local variables of put_file: refs taken, digests uploaded by this call, those that failed, and repeats to take later. */
  datatype Ledger = Ledger(acquired: seq<Sha>, pending: set<Sha>, failed: set<Sha>, dups: seq<Sha>)

  /** What the scan has done to the blob table: one reference per acquired sha, new blobs only for pending ones. */
  ghost predicate Scanned(blobs0: BlobTable, blobs: BlobTable, rows: seq<Row>, l: Ledger) {
    && (forall s :: Ref(blobs, s) == Ref(blobs0, s) + Takes(l.acquired, l.failed, s))
    && (forall s :: s in blobs0 ==> s in blobs && blobs[s].handle == blobs0[s].handle)
    && Bag(rows) == multiset(l.acquired) + multiset(l.dups)
    && l.failed <= l.pending && (forall s :: s in l.dups ==> s in l.pending)
    && (forall s :: s in l.pending ==> s !in blobs0 && multiset(l.acquired)[s] == 1 && (s in blobs <==> s !in l.failed))
    && (forall s :: s in l.acquired && s !in blobs0 ==> s in l.pending)
    && (forall s :: s in blobs && s !in blobs0 ==> s in l.pending)
  }

  lemma BagAppend(rows: seq<Row>, row: Row)
    ensures Bag(rows + [row]) == Bag(rows) + multiset{row.sha}
  {
    assert Shas(rows + [row]) == Shas(rows) + [row.sha];
  }

  lemma ScannedKnown(blobs0: BlobTable, was: BlobTable, blobs: BlobTable, rows: seq<Row>, l: Ledger, row: Row)
    requires Scanned(blobs0, was, rows, l)
    requires row.sha in was && (row.sha in blobs0 || row.sha !in l.pending)
    requires blobs.Keys == was.Keys && forall s :: s in blobs ==> blobs[s].handle == was[s].handle
    requires forall s :: Ref(blobs, s) == Ref(was, s) + if s == row.sha then 1 else 0
    ensures Scanned(blobs0, blobs, rows + [row], l.(acquired := l.acquired + [row.sha]))
  {
    BagAppend(rows, row);
    forall s {
      TakesAppend(l.acquired, l.failed, row.sha, s);
    }
  }

  lemma ScannedDup(blobs0: BlobTable, blobs: BlobTable, rows: seq<Row>, l: Ledger, row: Row)
    requires Scanned(blobs0, blobs, rows, l) && row.sha in l.pending
    ensures Scanned(blobs0, blobs, rows + [row], l.(dups := l.dups + [row.sha]))
  {
    BagAppend(rows, row);
  }

  lemma UploadTakes(blobs0: BlobTable, was: BlobTable, blobs: BlobTable, l: Ledger, sha: Sha, failed': set<Sha>, s: Sha)
    requires Ref(was, s) == Ref(blobs0, s) + Takes(l.acquired, l.failed, s)
    requires failed' == l.failed || failed' == l.failed + {sha}
    requires sha !in l.acquired && sha !in l.failed
    requires Ref(blobs, s) == if s == sha then Ref(was, s) + (if sha in failed' then 0 else 1) else Ref(was, s)
    ensures Ref(blobs, s) == Ref(blobs0, s) + Takes(l.acquired + [sha], failed', s)
  {
    TakesAppend(l.acquired, failed', sha, s);
    if s == sha {
      TakesIsCount(l.acquired, failed', s);
      TakesIsCount(l.acquired, l.failed, s);
    } else {
      TallySame(l.acquired, l.acquired, |l.acquired|, l.failed, failed', s);
    }
  }

  lemma ScannedUpload(blobs0: BlobTable, was: BlobTable, blobs: BlobTable, rows: seq<Row>, l: Ledger, row: Row, ok: bool)
    requires Scanned(blobs0, was, rows, l)
    requires row.sha !in was && row.sha !in l.pending
    requires blobs.Keys == if ok then was.Keys + {row.sha} else was.Keys
    requires forall s :: s in was ==> s in blobs && blobs[s] == was[s]
    requires ok ==> blobs[row.sha].refcount == 1
    ensures Scanned(blobs0, blobs, rows + [row],
                    l.(acquired := l.acquired + [row.sha], pending := l.pending + {row.sha},
                       failed := if ok then l.failed else l.failed + {row.sha}))
  {
    var failed' := if ok then l.failed else l.failed + {row.sha};
    BagAppend(rows, row);
    TakesIsCount(l.acquired, l.failed, row.sha);
    assert Ref(was, row.sha) == Ref(blobs0, row.sha) + Takes(l.acquired, l.failed, row.sha);
    assert row.sha !in l.acquired;
    forall s
      ensures Ref(blobs, s) == Ref(blobs0, s) + Takes(l.acquired + [row.sha], failed', s)
    {
      UploadTakes(blobs0, was, blobs, l, row.sha, failed', s);
    }
    assert multiset(l.acquired + [row.sha]) == multiset(l.acquired) + multiset{row.sha};
  }

  /** Once repeats have their references too, the call holds one reference per row of the list it built. */
  lemma AllHeld(chunks0: ChunkTable, blobs0: BlobTable, scanned: BlobTable, blobs: BlobTable, rows: seq<Row>, l: Ledger)
    requires Counted(chunks0, blobs0) && Scanned(blobs0, scanned, rows, l) && l.failed == {}
    requires forall s :: Ref(blobs, s) == Ref(scanned, s) + Takes(l.dups, {}, s)
    ensures forall s :: Ref(blobs, s) == RowRefs(chunks0)[s] + Bag(rows)[s]
    ensures l.pending == NewShas(rows, blobs0)
  {
    forall s
      ensures Ref(blobs, s) == RowRefs(chunks0)[s] + Bag(rows)[s]
    {
      TakesIsCount(l.acquired, {}, s);
      TakesIsCount(l.dups, {}, s);
      assert Bag(rows)[s] == (multiset(l.acquired) + multiset(l.dups))[s];
    }
    PendingAreNew(blobs0, scanned, rows, l);
  }

  /** With no failure, the digests uploaded are exactly the new ones of the list built. */
  lemma PendingAreNew(blobs0: BlobTable, blobs: BlobTable, rows: seq<Row>, l: Ledger)
    requires Scanned(blobs0, blobs, rows, l)
    ensures l.pending == NewShas(rows, blobs0)
  {
    forall s
      ensures s in l.pending <==> s in NewShas(rows, blobs0)
    {
      InBag(rows, s);
    }
  }

  lemma InBag(rows: seq<Row>, s: Sha)
    ensures Bag(rows)[s] > 0 <==> exists r :: r in rows && r.sha == s
  {
    if Bag(rows)[s] > 0 {
      assert s in Shas(rows);
      var k :| 0 <= k < |rows| && Shas(rows)[k] == s;
      assert rows[k] in rows;
    }
    if r :| r in rows && r.sha == s {
      var k :| 0 <= k < |rows| && rows[k] == r;
      assert Shas(rows)[k] == s;
    }
  }

  /** What a chunk contributes to the byte range [lo, hi). */
  ghost function Part(row: Row, lo: nat, hi: int): Data {
    if row.off + row.len > lo && row.off < hi
    then Slice(Pre(row.sha), Max(lo, row.off) - row.off, Min(hi, row.off + row.len) - row.off)
    else []
  }

  /** Appending the part of one more chunk extends the slice. */
  lemma SliceStep(rows: seq<Row>, k: nat, lo: nat, hi: nat)
    requires Tiles(rows) && k < |rows| && lo < hi
    ensures Slice(Upto(rows, k + 1), lo, hi) == Slice(Upto(rows, k), lo, hi) + Part(rows[k], lo, hi)
  {
    SliceConcat(Upto(rows, k), Pre(rows[k].sha), rows[k].off, rows[k].len, lo, hi);
  }

  lemma NextChunk(i: nat, size: nat, cs: nat)
    requires cs > 0 && i < Chunks(size, cs)
    ensures Off(i, cs) + Want(i, size, cs) == if i + 1 < Chunks(size, cs) then Off(i + 1, cs) else size
    ensures i + 1 < Chunks(size, cs) ==> Off(i + 1, cs) < size
  {
    if i + 1 < Chunks(size, cs) {
      ChunkInside(i + 1, size, cs);
    }
  }
}
