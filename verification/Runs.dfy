/** Whole runs of operations on one write-mode state against the same operations on a plain byte array. */
module Runs {
  import opened Bytes
  import opened Blobs
  import opened Plan
  import opened SparseFile
  import opened FlushFile
  import opened Exposure

  datatype Op = Write(data: Data, off: nat) | Truncate(length: nat) | Read(offset: nat, n: nat) | Sync

  /** A write-mode state with its dirty flag, and the inode's stored rows. */
  datatype World = World(c: Core, dirty: bool, rows: seq<Row>)

  ghost function Step(cs: nat, w: World, op: Op): World
    requires cs > 0
  {
    match op
    case Write(data, off) => w.(c := SparseFile.Write(w.c, cs, data, off), dirty := true)
    case Truncate(length) => w.(c := SparseFile.Truncate(w.c, cs, length), dirty := true)
    case Read(offset, n) => w.(c := Prepare(w.c, cs, offset, Min(offset + n, w.c.size), false))
    case Sync => if w.dirty then World(Flushed(w.c, cs, w.rows), false, FlushRows(w.c, cs, w.rows)) else w
  }

  lemma WriteStep(cs: nat, w: World, op: Op, data: Data, off: nat)
    requires cs > 0 && op == Write(data, off)
    ensures Step(cs, w, op).c == SparseFile.Write(w.c, cs, data, off)
  {
  }

  /** The state after the first k operations. */
  ghost function Run(cs: nat, w: World, ops: seq<Op>, k: nat): World
    requires cs > 0 && k <= |ops|
  {
    if k == 0 then w else Step(cs, Run(cs, w, ops, k - 1), ops[k - 1])
  }

  /** What operation k returns. */
  ghost function Output(cs: nat, w: World, ops: seq<Op>, k: nat): Data
    requires cs > 0 && k < |ops|
  {
    match ops[k]
    case Read(offset, n) => ReadBytes(Run(cs, w, ops, k).c, cs, offset, n)
    case _ => []
  }

  // ----- the same operations on a plain byte array -----------------------------------------

  function PlainStep(v: Data, op: Op): Data {
    match op
    case Write(data, off) => Overwrite(v, off, data)
    case Truncate(length) => Resize(v, length)
    case Read(_, _) => v
    case Sync => v
  }

  function Plain(v: Data, ops: seq<Op>, k: nat): Data
    requires k <= |ops|
  {
    if k == 0 then v else PlainStep(Plain(v, ops, k - 1), ops[k - 1])
  }

  function PlainOutput(v: Data, ops: seq<Op>, k: nat): Data
    requires k < |ops|
  {
    match ops[k]
    case Read(offset, n) => Slice(Plain(v, ops, k), offset, offset + n)
    case _ => []
  }

  /** No empty write past the end of the file; a kernel never issues one. */
  predicate Ordinary(v: Data, ops: seq<Op>) {
    forall k :: 0 <= k < |ops| && ops[k].Write? && ops[k].data == [] ==> ops[k].off <= |Plain(v, ops, k)|
  }

  /** No truncate makes the file shorter. */
  predicate NeverShrinks(v: Data, ops: seq<Op>) {
    forall k :: 0 <= k < |ops| && ops[k].Truncate? ==> |Plain(v, ops, k)| <= ops[k].length
  }

  ghost predicate Sound(cs: nat, w: World)
    requires cs > 0
  {
    Tiles(w.rows) && Inv(w.c, cs, w.rows)
  }

  lemma StepRefines(cs: nat, w: World, op: Op)
    requires cs > 0 && Sound(cs, w)
    ensures Sound(cs, Step(cs, w, op))
    ensures View(Step(cs, w, op).c, cs) == PlainStep(View(w.c, cs), op)
    ensures Backed(w.c, cs) && (op.Write? && op.data == [] ==> op.off <= w.c.size) ==> Backed(Step(cs, w, op).c, cs)
  {
    match op
    case Write(data, off) =>
      WriteRefines(w.c, cs, w.rows, data, off);
      if Backed(w.c, cs) && (data == [] ==> off <= w.c.size) {
        WriteBacked(w.c, cs, w.rows, data, off);
      }
      assert Step(cs, w, op).c == SparseFile.Write(w.c, cs, data, off);
    case Truncate(length) =>
      TruncateRefines(w.c, cs, w.rows, length);
      assert Step(cs, w, op).c == SparseFile.Truncate(w.c, cs, length);
    case Read(offset, n) =>
      ReadStepRefines(cs, w, offset, n);
    case Sync =>
      SyncRefines(cs, w);
  }

  lemma ReadStepRefines(cs: nat, w: World, offset: nat, n: nat)
    requires cs > 0 && Sound(cs, w)
    ensures Sound(cs, Step(cs, w, Read(offset, n)))
    ensures View(Step(cs, w, Read(offset, n)).c, cs) == View(w.c, cs)
    ensures Backed(w.c, cs) ==> Backed(Step(cs, w, Read(offset, n)).c, cs)
  {
    var end := Min(offset + n, w.c.size);
    ReadRefines(w.c, cs, w.rows, offset, n);
    PrepareKeeps(w.c, cs, w.rows, offset, end, false);
    if Backed(w.c, cs) {
      PrepareBacked(w.c, cs, w.rows, offset, end);
    }
    assert Step(cs, w, Read(offset, n)) == w.(c := Prepare(w.c, cs, offset, end, false));
  }

  lemma SyncRefines(cs: nat, w: World)
    requires cs > 0 && Sound(cs, w)
    ensures Sound(cs, Step(cs, w, Sync))
    ensures View(Step(cs, w, Sync).c, cs) == View(w.c, cs)
    ensures Backed(w.c, cs) ==> Backed(Step(cs, w, Sync).c, cs)
  {
    if w.dirty {
      FlushKeepsView(w.c, cs, w.rows);
      FlushLaidOut(w.c, cs, w.rows);
      assert Step(cs, w, Sync) == World(Flushed(w.c, cs, w.rows), false, FlushRows(w.c, cs, w.rows));
    }
  }

  /** The k-th operation, on both sides. */
  lemma RunNext(cs: nat, w: World, ops: seq<Op>, k: nat, u: World, u': World)
    requires cs > 0 && 0 < k <= |ops| && u == Run(cs, w, ops, k - 1) && u' == Run(cs, w, ops, k)
    ensures u' == Step(cs, u, ops[k - 1])
  {
  }

  lemma PlainNext(v0: Data, ops: seq<Op>, k: nat, v: Data, v': Data)
    requires 0 < k <= |ops| && v == Plain(v0, ops, k - 1) && v' == Plain(v0, ops, k)
    ensures v' == PlainStep(v, ops[k - 1])
  {
  }

  lemma RefinesNext(cs: nat, w: World, ops: seq<Op>, k: nat, u: World, u': World, v: Data, v': Data)
    requires cs > 0 && 0 < k <= |ops| && u == Run(cs, w, ops, k - 1) && u' == Run(cs, w, ops, k)
    requires v == Plain(View(w.c, cs), ops, k - 1) && v' == Plain(View(w.c, cs), ops, k)
    requires Sound(cs, u) && View(u.c, cs) == v
    ensures Sound(cs, u') && View(u'.c, cs) == v'
    ensures Backed(u.c, cs) && Ordinary(View(w.c, cs), ops) ==> Backed(u'.c, cs)
  {
    RunNext(cs, w, ops, k, u, u');
    PlainNext(View(w.c, cs), ops, k, v, v');
    StepRefines(cs, u, ops[k - 1]);
    assert Ordinary(View(w.c, cs), ops) && ops[k - 1].Write? && ops[k - 1].data == [] ==> ops[k - 1].off <= |v|;
  }

  lemma {:induction false} RunAt(cs: nat, w: World, ops: seq<Op>, k: nat, u: World, v: Data)
    requires cs > 0 && Sound(cs, w) && k <= |ops| && u == Run(cs, w, ops, k) && v == Plain(View(w.c, cs), ops, k)
    ensures Sound(cs, u) && View(u.c, cs) == v
    ensures Backed(w.c, cs) && Ordinary(View(w.c, cs), ops) ==> Backed(u.c, cs)
    decreases k
  {
    if k > 0 {
      var u0, v0 := Run(cs, w, ops, k - 1), Plain(View(w.c, cs), ops, k - 1);
      RunAt(cs, w, ops, k - 1, u0, v0);
      RefinesNext(cs, w, ops, k, u0, u, v0, v);
    }
  }

  /** After any run the state stands for what the same operations make of a plain byte array. */
  lemma RunRefines(cs: nat, w: World, ops: seq<Op>, k: nat)
    requires cs > 0 && Sound(cs, w) && k <= |ops|
    ensures Sound(cs, Run(cs, w, ops, k))
    ensures View(Run(cs, w, ops, k).c, cs) == Plain(View(w.c, cs), ops, k)
    ensures Backed(w.c, cs) && Ordinary(View(w.c, cs), ops) ==> Backed(Run(cs, w, ops, k).c, cs)
  {
    RunAt(cs, w, ops, k, Run(cs, w, ops, k), Plain(View(w.c, cs), ops, k));
  }

  /** And every read of the run returns exactly that array's slice, clamped at its end. */
  lemma ReadsAreExact(cs: nat, w: World, ops: seq<Op>, k: nat)
    requires cs > 0 && Sound(cs, w) && Backed(w.c, cs) && Ordinary(View(w.c, cs), ops) && k < |ops|
    ensures Output(cs, w, ops, k) == PlainOutput(View(w.c, cs), ops, k)
  {
    RunRefines(cs, w, ops, k);
    if ops[k].Read? {
      ReadRefines(Run(cs, w, ops, k).c, cs, Run(cs, w, ops, k).rows, ops[k].offset, ops[k].n);
    }
  }

  /** After any run, every read that could follow is exact if and only if the temp file reaches far enough. */
  lemma ReadsExactAt(cs: nat, w: World, ops: seq<Op>, k: nat, u: World, v: Data)
    requires cs > 0 && Sound(cs, w) && k <= |ops| && u == Run(cs, w, ops, k) && v == Plain(View(w.c, cs), ops, k)
    ensures Backed(u.c, cs) <==> forall offset: nat, n: nat :: ReadBytes(u.c, cs, offset, n) == Slice(v, offset, offset + n)
  {
    RunRefines(cs, w, ops, k);
    ReadsExactIff(u.c, cs, u.rows);
    assert forall offset: nat, n: nat :: ExactRead(u.c, cs, offset, n) <==> ReadBytes(u.c, cs, offset, n) == Slice(v, offset, offset + n);
  }

  /** An empty write past the end is what breaks it: the byte it adds just before `off` reads as nothing, not as a zero. */
  lemma EmptyWriteReadsShort(cs: nat, w: World, off: nat, ops: seq<Op>)
    requires cs > 0 && Sound(cs, w) && w.c.size < off && ops == [Write([], off), Read(off - 1, 1)]
    ensures Output(cs, w, ops, 1) == [] && PlainOutput(View(w.c, cs), ops, 1) == [0]
  {
    var data: Data := [];
    var c1 := SparseFile.Write(w.c, cs, data, off);
    EmptyWriteTail(w.c, cs, w.rows, off);
    ShortRead(c1, cs, off - 1);
    WriteStep(cs, w, ops[0], data, off);
    assert Run(cs, w, ops, 0) == w && Run(cs, w, ops, 1).c == c1;
    var v := View(w.c, cs);
    assert Plain(v, ops, 0) == v && Plain(v, ops, 1) == Overwrite(v, off, data);
    assert Slice(Overwrite(v, off, data), off - 1, off) == [0];
  }

  // ----- what is stored --------------------------------------------------------------------

  /** No sync of the run meets a stale chunk. */
  ghost predicate SyncsClean(cs: nat, w: World, ops: seq<Op>)
    requires cs > 0
  {
    forall k :: 0 <= k < |ops| && ops[k].Sync? && Run(cs, w, ops, k).dirty
      ==> !Stale(Run(cs, w, ops, k).c, cs, Run(cs, w, ops, k).rows)
  }

  /** Clean chunks agree with the store, and with nothing pending so does the whole file. */
  ghost predicate Agrees(cs: nat, w: World)
    requires cs > 0
  {
    Coherent(w.c, cs) && (!w.dirty ==> Content(w.rows) == View(w.c, cs))
  }

  lemma WriteAgrees(cs: nat, w: World, op: Op, data: Data, off: nat)
    requires cs > 0 && Sound(cs, w) && Agrees(cs, w) && op == Write(data, off)
    ensures Agrees(cs, Step(cs, w, op))
  {
    WriteCoherent(w.c, cs, w.rows, data, off);
    WriteStep(cs, w, op, data, off);
    assert Step(cs, w, op).dirty;
  }

  lemma TruncateAgrees(cs: nat, w: World, op: Op, length: nat)
    requires cs > 0 && Sound(cs, w) && Agrees(cs, w) && op == Truncate(length)
    ensures Agrees(cs, Step(cs, w, op))
  {
    TruncateRefines(w.c, cs, w.rows, length);
    assert Step(cs, w, op) == w.(c := SparseFile.Truncate(w.c, cs, length), dirty := true);
  }

  lemma ReadAgrees(cs: nat, w: World, op: Op, offset: nat, n: nat, end: int)
    requires cs > 0 && Sound(cs, w) && Agrees(cs, w) && op == Read(offset, n) && end == Min(offset + n, w.c.size) && end >= 0
    ensures Agrees(cs, Step(cs, w, op))
  {
    PrepareReadCoherent(w.c, cs, w.rows, offset, end);
    ReadRefines(w.c, cs, w.rows, offset, n);
    assert Step(cs, w, op) == w.(c := Prepare(w.c, cs, offset, end, false));
  }

  lemma StepAgrees(cs: nat, w: World, op: Op)
    requires cs > 0 && Sound(cs, w) && Agrees(cs, w)
    requires op.Sync? && w.dirty ==> !Stale(w.c, cs, w.rows)
    ensures Agrees(cs, Step(cs, w, op))
  {
    match op
    case Write(data, off) =>
      WriteAgrees(cs, w, op, data, off);
    case Truncate(length) =>
      TruncateAgrees(cs, w, op, length);
    case Read(offset, n) =>
      ReadAgrees(cs, w, op, offset, n, Min(offset + n, w.c.size));
    case Sync =>
      SyncAgrees(cs, w);
  }

  lemma SyncAgrees(cs: nat, w: World)
    requires cs > 0 && Sound(cs, w) && Agrees(cs, w) && (w.dirty ==> !Stale(w.c, cs, w.rows))
    ensures Agrees(cs, Step(cs, w, Sync))
  {
    if w.dirty {
      FlushKeepsView(w.c, cs, w.rows);
      FlushStoresView(w.c, cs, w.rows);
      FlushCoherent(w.c, cs, w.rows);
      assert Step(cs, w, Sync) == World(Flushed(w.c, cs, w.rows), false, FlushRows(w.c, cs, w.rows));
    }
  }

  /** As long as no sync meets a stale chunk, whenever nothing is pending the store holds the plain array. */
  lemma {:induction false} RunStores(cs: nat, w: World, ops: seq<Op>, k: nat)
    requires cs > 0 && Sound(cs, w) && Agrees(cs, w) && k <= |ops| && SyncsClean(cs, w, ops)
    ensures Agrees(cs, Run(cs, w, ops, k))
    ensures !Run(cs, w, ops, k).dirty ==> Content(Run(cs, w, ops, k).rows) == Plain(View(w.c, cs), ops, k)
    decreases k
  {
    if k > 0 {
      RunStores(cs, w, ops, k - 1);
      AgreesNext(cs, w, ops, k, Run(cs, w, ops, k - 1), Run(cs, w, ops, k));
    }
    RunAt(cs, w, ops, k, Run(cs, w, ops, k), Plain(View(w.c, cs), ops, k));
  }

  lemma AgreesNext(cs: nat, w: World, ops: seq<Op>, k: nat, u: World, u': World)
    requires cs > 0 && Sound(cs, w) && 0 < k <= |ops| && Agrees(cs, u) && SyncsClean(cs, w, ops)
    requires u == Run(cs, w, ops, k - 1) && u' == Run(cs, w, ops, k)
    ensures Agrees(cs, u')
  {
    RunRefines(cs, w, ops, k - 1);
    RunNext(cs, w, ops, k, u, u');
    StepAgrees(cs, u, ops[k - 1]);
  }

  lemma DirtySync(cs: nat, u: World, op: Op, u': World, v: Data)
    requires cs > 0 && Sound(cs, u) && u.dirty && op.Sync? && u' == Step(cs, u, op) && View(u.c, cs) == v
    ensures Content(u'.rows) == v <==> Storable(u.c, cs, u.rows)
  {
    assert u'.rows == FlushRows(u.c, cs, u.rows);
    FlushStoresView(u.c, cs, u.rows);
  }

  lemma SyncNext(cs: nat, w: World, ops: seq<Op>, k: nat, u: World, u': World, v: Data, v': Data)
    requires cs > 0 && 0 < k <= |ops| && ops[k - 1].Sync? && u == Run(cs, w, ops, k - 1) && u' == Run(cs, w, ops, k)
    requires v == Plain(View(w.c, cs), ops, k - 1) && v' == Plain(View(w.c, cs), ops, k)
    requires Sound(cs, u) && View(u.c, cs) == v && u.dirty
    ensures Content(u'.rows) == v' <==> Storable(u.c, cs, u.rows)
  {
    RunNext(cs, w, ops, k, u, u');
    PlainNext(View(w.c, cs), ops, k, v, v');
    DirtySync(cs, u, ops[k - 1], u', v');
  }

  /** The sync that is operation k - 1, with something pending, stores the plain array if and only if the file was storable. */
  lemma SyncStoresIff(cs: nat, w: World, ops: seq<Op>, k: nat, u: World, u': World, v: Data)
    requires cs > 0 && Sound(cs, w) && 0 < k <= |ops| && ops[k - 1].Sync?
    requires u == Run(cs, w, ops, k - 1) && u.dirty && u' == Run(cs, w, ops, k) && v == Plain(View(w.c, cs), ops, k)
    ensures Content(u'.rows) == v <==> Storable(u.c, cs, u.rows)
  {
    var v0 := Plain(View(w.c, cs), ops, k - 1);
    RunAt(cs, w, ops, k - 1, u, v0);
    SyncNext(cs, w, ops, k, u, u', v0, v);
  }

  /** Every sync of the run that has something pending stores the plain array. */
  ghost predicate SyncsExact(cs: nat, w: World, ops: seq<Op>)
    requires cs > 0
  {
    forall k :: 0 <= k < |ops| && ops[k].Sync? && Run(cs, w, ops, k).dirty
      ==> Content(Run(cs, w, ops, k + 1).rows) == Plain(View(w.c, cs), ops, k + 1)
  }

  lemma CleanSyncExact(cs: nat, w: World, ops: seq<Op>, k: nat, u: World, u': World)
    requires cs > 0 && Sound(cs, w) && Agrees(cs, w) && SyncsClean(cs, w, ops) && k < |ops| && ops[k].Sync?
    requires u == Run(cs, w, ops, k) && u.dirty && u' == Run(cs, w, ops, k + 1)
    ensures Content(u'.rows) == Plain(View(w.c, cs), ops, k + 1)
  {
    RunNext(cs, w, ops, k + 1, u, u');
    assert !u'.dirty;
    RunStores(cs, w, ops, k + 1);
  }

  lemma ExactSyncClean(cs: nat, w: World, ops: seq<Op>, k: nat, u: World, u': World)
    requires cs > 0 && Sound(cs, w) && SyncsExact(cs, w, ops) && k < |ops| && ops[k].Sync?
    requires u == Run(cs, w, ops, k) && u.dirty && u' == Run(cs, w, ops, k + 1)
    ensures !Stale(u.c, cs, u.rows)
  {
    SyncStoresIff(cs, w, ops, k + 1, u, u', Plain(View(w.c, cs), ops, k + 1));
  }

  /** From a state that agrees with the store, all syncs of a run are exact if and only if none meets a stale chunk. */
  lemma RunStoresIff(cs: nat, w: World, ops: seq<Op>)
    requires cs > 0 && Sound(cs, w) && Agrees(cs, w)
    ensures SyncsClean(cs, w, ops) <==> SyncsExact(cs, w, ops)
  {
    if SyncsClean(cs, w, ops) {
      forall k | 0 <= k < |ops| && ops[k].Sync? && Run(cs, w, ops, k).dirty
        ensures Content(Run(cs, w, ops, k + 1).rows) == Plain(View(w.c, cs), ops, k + 1)
      {
        CleanSyncExact(cs, w, ops, k, Run(cs, w, ops, k), Run(cs, w, ops, k + 1));
      }
    }
    if SyncsExact(cs, w, ops) {
      forall k | 0 <= k < |ops| && ops[k].Sync? && Run(cs, w, ops, k).dirty
        ensures !Stale(Run(cs, w, ops, k).c, cs, Run(cs, w, ops, k).rows)
      {
        ExactSyncClean(cs, w, ops, k, Run(cs, w, ops, k), Run(cs, w, ops, k + 1));
      }
    }
  }

  /** Nothing is exposed, and the file is at least as long as what is stored. */
  ghost predicate Ahead(cs: nat, w: World)
    requires cs > 0
  {
    Tight(w.c, cs, w.rows) && |Content(w.rows)| <= w.c.size
  }

  lemma StepAhead(cs: nat, w: World, op: Op)
    requires cs > 0 && Sound(cs, w) && Ahead(cs, w)
    requires op.Truncate? ==> w.c.size <= op.length
    ensures Ahead(cs, Step(cs, w, op))
  {
    match op
    case Write(data, off) =>
      WriteStep(cs, w, op, data, off);
      WriteTight(w.c, cs, w.rows, data, off);
      ReadyInv(w.c, cs, w.rows, data, off);
    case Truncate(length) =>
      TruncateTight(w.c, cs, w.rows, length);
    case Read(offset, n) =>
      PrepareKeeps(w.c, cs, w.rows, offset, Min(offset + n, w.c.size), false);
      TightSame(w.c, Step(cs, w, op).c, cs, w.rows);
    case Sync =>
      if w.dirty {
        FlushLaidOut(w.c, cs, w.rows);
        AlignedTiles(FlushRows(w.c, cs, w.rows), w.c.size, cs);
      }
  }

  /** A run that never shrinks the file exposes nothing. */
  lemma {:induction false} RunAhead(cs: nat, w: World, ops: seq<Op>, k: nat, u: World)
    requires cs > 0 && Sound(cs, w) && Ahead(cs, w) && k <= |ops| && NeverShrinks(View(w.c, cs), ops) && u == Run(cs, w, ops, k)
    ensures Ahead(cs, u)
    decreases k
  {
    if k > 0 {
      var u0, v0 := Run(cs, w, ops, k - 1), Plain(View(w.c, cs), ops, k - 1);
      RunAhead(cs, w, ops, k - 1, u0);
      RunAt(cs, w, ops, k - 1, u0, v0);
      RunNext(cs, w, ops, k, u0, u);
      assert ops[k - 1].Truncate? ==> |v0| <= ops[k - 1].length;
      StepAhead(cs, u0, ops[k - 1]);
    }
  }

  lemma RowsLaidOut(cs: nat, u: World, u': World)
    requires cs > 0 && Sound(cs, u) && u.dirty && u' == Step(cs, u, Sync)
    ensures Aligned(u'.rows, u'.c.size, cs) && !u'.dirty
  {
    assert u' == World(Flushed(u.c, cs, u.rows), false, FlushRows(u.c, cs, u.rows));
    FlushLaidOut(u.c, cs, u.rows);
  }

  lemma FlushLaidOut(c: Core, cs: nat, rows: seq<Row>)
    requires cs > 0 && Tiles(rows)
    ensures Aligned(FlushRows(c, cs, rows), c.size, cs) && Tiles(FlushRows(c, cs, rows))
  {
    PutRowsAligned(Resize(c.temp, c.size), cs, rows, Some(c.dirtyIdx));
  }

  /**
    Remounting with any chunk size: from a file stored in any layout (but a single chunk longer than the new size), any run
    that never shrinks it, ended by a sync with something pending, stores the plain array, laid out at the new size.
   */
  lemma RechunkKeepsContent(cs: nat, rows: seq<Row>, ops: seq<Op>, k: nat, w: World, u: World, u': World)
    requires cs > 0 && Tiles(rows) && !LongTail(rows, cs) && 0 < k <= |ops| && NeverShrinks(Content(rows), ops)
    requires w == World(Materialized(rows, |Content(rows)|, cs), false, rows)
    requires u == Run(cs, w, ops, k - 1) && u.dirty && ops[k - 1].Sync? && u' == Run(cs, w, ops, k)
    ensures Content(u'.rows) == Plain(Content(rows), ops, k)
    ensures Aligned(u'.rows, |Plain(Content(rows), ops, k)|, cs)
  {
    MaterializeKeeps(rows, |Content(rows)|, cs);
    MaterializedTight(rows, |Content(rows)|, cs);
    assert Ahead(cs, w) && Sound(cs, w) && Agrees(cs, w);
    AheadIsClean(cs, w, ops);
    SyncStores(cs, w, ops, k, u, u', Plain(Content(rows), ops, k));
  }

  /** So it meets no stale chunk. */
  lemma AheadIsClean(cs: nat, w: World, ops: seq<Op>)
    requires cs > 0 && Sound(cs, w) && Ahead(cs, w) && NeverShrinks(View(w.c, cs), ops)
    ensures SyncsClean(cs, w, ops)
  {
    forall j | 0 <= j < |ops| && ops[j].Sync? && Run(cs, w, ops, j).dirty
      ensures !Stale(Run(cs, w, ops, j).c, cs, Run(cs, w, ops, j).rows)
    {
      var u := Run(cs, w, ops, j);
      RunAhead(cs, w, ops, j, u);
      TightNotStale(u.c, cs, u.rows);
    }
  }

  lemma StoredAt(cs: nat, w: World, ops: seq<Op>, k: nat, u: World, v: Data)
    requires cs > 0 && Sound(cs, w) && Agrees(cs, w) && k <= |ops| && SyncsClean(cs, w, ops)
    requires u == Run(cs, w, ops, k) && v == Plain(View(w.c, cs), ops, k) && !u.dirty
    ensures Content(u.rows) == v
  {
    RunStores(cs, w, ops, k);
  }

  /** What a sync with something pending leaves in the store. */
  lemma SyncStores(cs: nat, w: World, ops: seq<Op>, k: nat, u: World, u': World, v: Data)
    requires cs > 0 && Sound(cs, w) && Agrees(cs, w) && 0 < k <= |ops| && SyncsClean(cs, w, ops)
    requires u == Run(cs, w, ops, k - 1) && u.dirty && ops[k - 1].Sync? && u' == Run(cs, w, ops, k)
    requires v == Plain(View(w.c, cs), ops, k)
    ensures Content(u'.rows) == v && Aligned(u'.rows, |v|, cs)
  {
    RunAt(cs, w, ops, k - 1, u, Plain(View(w.c, cs), ops, k - 1));
    RunAt(cs, w, ops, k, u', v);
    RunNext(cs, w, ops, k, u, u');
    RowsLaidOut(cs, u, u');
    StoredAt(cs, w, ops, k, u', v);
  }

  /** A two-chunk file of one byte each, cut to its first byte ... */
  lemma CutOff(cs: nat, rows: seq<Row>, c: Core)
    requires cs == 1 && |rows| == 2 && c == Core(2, rows, {}, {}, [])
    ensures SparseFile.Truncate(c, cs, 1) == Core(1, [rows[0]], {}, {}, Resize([], 1))
  {
    assert Idx(1, cs) == 1 && Chunks(1, cs) == 1;
    assert Cut(c, cs, 1) == c;
    assert rows[..1] == [rows[0]];
  }

  /** ... and regrown. */
  lemma Regrown(cs: nat, row: Row, c: Core)
    requires cs == 1 && c == Core(1, [row], {}, {}, Resize([], 1))
    ensures SparseFile.Truncate(c, cs, 2) == Core(2, [row], {}, {}, Resize(c.temp, 2))
  {
    assert Grow(c, cs, 2) == c.(size := 2);
  }

  lemma RegrownView(cs: nat, c: Core, row: Row, x: Byte)
    requires cs == 1 && c.size == 2 && c.base == [row] && c.loaded == {} && Pre(row.sha) == [x] && At(c.temp, 1) == 0
    ensures View(c, cs) == [x, 0]
  {
    IdxIs(0, cs, 0);
    IdxIs(1, cs, 1);
    assert ViewAt(c, cs, 0) == x && ViewAt(c, cs, 1) == 0;
  }

  lemma RegrownRows(cs: nat, c: Core, rows: seq<Row>)
    requires cs == 1 && c.size == 2 && c.dirtyIdx == {} && |rows| == 2
    requires rows[0].off == 0 && rows[1].off == 1 && rows[0].len == rows[1].len == 1
    ensures FlushRows(c, cs, rows) == rows
  {
    ChunksIs(2, cs, 2);
    var out := FlushRows(c, cs, rows);
    assert Reused(0, 2, cs, rows, Some(c.dirtyIdx)) && Reused(1, 2, cs, rows, Some(c.dirtyIdx));
    assert out[0] == rows[0] && out[1] == rows[1];
  }

  /**
    Two bytes stored one to a chunk, cut to one and regrown to two: the file reads [x, 0], but a flush stores the
    old second byte again.
   */
  lemma RegrowStoresOldByte(x: Byte, rows: seq<Row>, c: Core)
    requires x != 0 && rows == [Row(0, 1, Hash([x])), Row(1, 1, Hash([x]))]
    requires c == SparseFile.Truncate(SparseFile.Truncate(Materialized(rows, 2, 1), 1, 1), 1, 2)
    ensures View(c, 1) == [x, 0] && Content(FlushRows(c, 1, rows)) == [x, x] && Content(FlushRows(c, 1, rows)) != View(c, 1)
  {
    MaterializedPair(1, rows, 2);
    CutOff(1, rows, Materialized(rows, 2, 1));
    Regrown(1, rows[0], SparseFile.Truncate(Materialized(rows, 2, 1), 1, 1));
    RegrownView(1, c, rows[0], x);
    RegrownRows(1, c, rows);
    PairContent(rows, x);
    PairDiffers(x, View(c, 1), Content(FlushRows(c, 1, rows)));
  }

  lemma PairDiffers(x: Byte, a: Data, b: Data)
    requires x != 0 && a == [x, 0] && b == [x, x]
    ensures a != b
  {
    assert a[1] != b[1];
  }

  lemma MaterializedPair(cs: nat, rows: seq<Row>, size: nat)
    requires cs == 1 && |rows| == 2 && rows[0].off == 0 && rows[1].off == 1 && rows[0].len == rows[1].len == 1
    ensures Materialized(rows, size, cs) == Core(size, rows, {}, {}, [])
  {
    assert LooksAligned(rows, cs);
  }

  lemma PairContent(rows: seq<Row>, x: Byte)
    requires |rows| == 2 && Pre(rows[0].sha) == [x] && Pre(rows[1].sha) == [x]
    ensures Content(rows) == [x, x]
  {
    assert Upto(rows, 0) == [] && Upto(rows, 1) == [x] && Upto(rows, 2) == [x, x];
  }
}
