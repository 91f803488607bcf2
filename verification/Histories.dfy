/** When the flushes of a run are right, told from its operations and what is stored alone. */
module Histories {
  import opened Bytes
  import opened Blobs
  import opened Plan
  import opened SparseFile
  import opened FlushFile
  import opened Exposure
  import opened Runs

  predicate Rewrites(op: Op, cs: nat, i: nat)
    requires cs > 0
  {
    op.Write? && i in Dirtied(cs, op.off, op.data)
  }

  /** Among the first k operations something cut chunk i off, and since then nothing rewrote it and no sync came. */
  predicate Lost(v: Data, ops: seq<Op>, cs: nat, k: nat, i: nat)
    requires cs > 0 && k <= |ops|
  {
    k > 0 && !ops[k - 1].Sync? && !Rewrites(ops[k - 1], cs, i)
    && (|Plain(v, ops, k)| <= Off(i, cs) || Lost(v, ops, cs, k - 1, i))
  }

  /** Chunk i is still, or again, the state's own business. */
  predicate Kept(c: Core, i: nat) {
    i < |c.base| || i in c.dirtyIdx
  }

  /** Row i sits at the place of chunk i. */
  predicate InPlace(rows: seq<Row>, cs: nat, i: nat) {
    i < |rows| && rows[i].off == Off(i, cs)
  }

  /** Nothing is pending, and every chunk with a row at its place is kept and inside the file. */
  ghost predicate Start(cs: nat, w: World) {
    !w.dirty && forall i :: 0 <= i < |w.rows| && InPlace(w.rows, cs, i) ==> Kept(w.c, i) && Off(i, cs) < w.c.size
  }

  lemma WriteKept(cs: nat, u: World, op: Op, i: nat, data: Data, off: nat)
    requires cs > 0 && Sound(cs, u) && op == Op.Write(data, off)
    ensures var c' := Step(cs, u, op).c;
            && c'.size == Max(u.c.size, off + |data|)
            && (Kept(c', i) <==> Rewrites(op, cs, i) || Kept(u.c, i))
  {
    WriteStep(cs, u, op, data, off);
    ReadyInv(u.c, cs, u.rows, data, off);
    ReadyDirties(u.c, cs, u.rows, data, off);
  }

  lemma ReadyDirties(c: Core, cs: nat, rows: seq<Row>, data: Data, off: nat)
    requires cs > 0 && Inv(c, cs, rows)
    ensures forall i :: i in Ready(c, cs, data, off).dirtyIdx ==> i in c.dirtyIdx || i < |c.base|
  {
    var end := off + |data|;
    PrepareKeeps(c, cs, rows, off, end, true);
    var p := Prepare(c, cs, off, end, true);
    if p.size < end {
      GrowKeeps(p, cs, rows, end);
    }
  }

  lemma TruncateKept(cs: nat, u: World, op: Op, i: nat, length: nat)
    requires cs > 0 && Sound(cs, u) && op == Truncate(length) && (Kept(u.c, i) ==> Off(i, cs) < u.c.size)
    ensures var c' := Step(cs, u, op).c;
            c'.size == length && (Kept(c', i) <==> Kept(u.c, i) && Off(i, cs) < length)
  {
    assert Step(cs, u, op).c == SparseFile.Truncate(u.c, cs, length);
    if length < u.c.size {
      CutDirties(u.c, cs, length);
      KeptChunks(length, cs, i);
    } else if u.c.size < length {
      GrowKeeps(u.c, cs, u.rows, length);
    }
  }

  /** What an operation other than a sync does to a chunk. */
  lemma StepKept(cs: nat, u: World, op: Op, i: nat)
    requires cs > 0 && Sound(cs, u) && !op.Sync? && (Kept(u.c, i) ==> Off(i, cs) < u.c.size)
    ensures var u' := Step(cs, u, op);
            && u'.rows == u.rows && (!u'.dirty ==> !u.dirty && op.Read?) && (op.Read? ==> u'.c.size == u.c.size)
            && (Kept(u'.c, i) <==> Rewrites(op, cs, i) || (Kept(u.c, i) && Off(i, cs) < u'.c.size))
  {
    match op
    case Write(data, off) => WriteKept(cs, u, op, i, data, off);
    case Truncate(length) => TruncateKept(cs, u, op, i, length);
    case Read(offset, n) => PrepareKeeps(u.c, cs, u.rows, offset, Min(offset + n, u.c.size), false);
  }

  lemma SyncKept(cs: nat, u: World, op: Op, i: nat, u': World)
    requires cs > 0 && Sound(cs, u) && op.Sync? && u.dirty && u' == Step(cs, u, op) && i < |u'.rows|
    ensures Kept(u'.c, i) && Off(i, cs) < u'.c.size && !u'.dirty
  {
    assert u'.c.base == u'.rows == FlushRows(u.c, cs, u.rows);
    KeptChunks(u.c.size, cs, i);
  }

  lemma LostNext(v0: Data, ops: seq<Op>, cs: nat, k: nat, i: nat, v: Data)
    requires cs > 0 && 0 < k <= |ops| && v == Plain(v0, ops, k)
    ensures Lost(v0, ops, cs, k, i) <==>
            !ops[k - 1].Sync? && !Rewrites(ops[k - 1], cs, i) && (|v| <= Off(i, cs) || Lost(v0, ops, cs, k - 1, i))
  {
  }

  lemma LostStep(cs: nat, u0: World, op: Op, i: nat, u: World, lost: bool)
    requires cs > 0 && Sound(cs, u0) && u == Step(cs, u0, op) && InPlace(u.rows, cs, i)
    requires InPlace(u0.rows, cs, i) ==>
               (Kept(u0.c, i) <==> !lost) && (Kept(u0.c, i) ==> Off(i, cs) < u0.c.size) && (!u0.dirty ==> Kept(u0.c, i))
    ensures Kept(u.c, i) <==> !(!op.Sync? && !Rewrites(op, cs, i) && (u.c.size <= Off(i, cs) || lost))
    ensures (Kept(u.c, i) ==> Off(i, cs) < u.c.size) && (!u.dirty ==> Kept(u.c, i))
  {
    if op.Sync? {
      if u0.dirty {
        SyncKept(cs, u0, op, i, u);
      }
    } else {
      StepRows(cs, u0, op);
      StepKept(cs, u0, op, i);
      if Rewrites(op, cs, i) {
        RewrittenInside(cs, u0, op, i, u);
      }
    }
  }

  lemma StepRows(cs: nat, u: World, op: Op)
    requires cs > 0 && !op.Sync?
    ensures Step(cs, u, op).rows == u.rows
  {
  }

  /** What a write rewrites starts before its end. */
  lemma DirtiedInside(cs: nat, off: nat, data: Data, i: nat)
    requires cs > 0 && i in Dirtied(cs, off, data)
    ensures Off(i, cs) < off + |data|
  {
    var last := Idx(off + |data| - 1, cs);
    if i < last {
      OffGap(i, last, cs);
    }
  }

  lemma RewrittenInside(cs: nat, u: World, op: Op, i: nat, u': World)
    requires cs > 0 && Sound(cs, u) && Rewrites(op, cs, i) && u' == Step(cs, u, op)
    ensures Off(i, cs) < u'.c.size
  {
    WriteKept(cs, u, op, i, op.data, op.off);
    DirtiedInside(cs, op.off, op.data, i);
  }

  /** The history says exactly which chunks the state has given up. */
  lemma {:induction false} LostIff(cs: nat, w: World, ops: seq<Op>, k: nat, i: nat, u: World)
    requires cs > 0 && Sound(cs, w) && Start(cs, w) && k <= |ops| && u == Run(cs, w, ops, k) && InPlace(u.rows, cs, i)
    ensures Kept(u.c, i) <==> !Lost(View(w.c, cs), ops, cs, k, i)
    ensures (Kept(u.c, i) ==> Off(i, cs) < u.c.size) && (!u.dirty ==> Kept(u.c, i))
    decreases k
  {
    if k > 0 {
      var u0, v0, v := Run(cs, w, ops, k - 1), Plain(View(w.c, cs), ops, k - 1), Plain(View(w.c, cs), ops, k);
      RunAt(cs, w, ops, k - 1, u0, v0);
      RunAt(cs, w, ops, k, u, v);
      RunNext(cs, w, ops, k, u0, u);
      LostNext(View(w.c, cs), ops, cs, k, i, v);
      if InPlace(u0.rows, cs, i) {
        LostIff(cs, w, ops, k - 1, i, u0);
      }
      LostStep(cs, u0, ops[k - 1], i, u, Lost(View(w.c, cs), ops, cs, k - 1, i));
    }
  }

  /** After k operations some chunk that was lost is back, and a row passes for it that is not all zeros. */
  ghost predicate Resurfaces(cs: nat, w: World, ops: seq<Op>, k: nat)
    requires cs > 0 && k <= |ops|
  {
    var rows, v := Run(cs, w, ops, k).rows, View(w.c, cs);
    exists i :: 0 <= i < |rows| && Lost(v, ops, cs, k, i) && Reverts(rows[i], i, |Plain(v, ops, k)|, cs)
  }

  lemma StaleAtIff(cs: nat, w: World, ops: seq<Op>, k: nat, u: World, n: nat, i: nat)
    requires cs > 0 && Sound(cs, w) && Start(cs, w) && k <= |ops| && u == Run(cs, w, ops, k) && n == |Plain(View(w.c, cs), ops, k)|
    requires i < |u.rows|
    ensures StaleAt(u.c, cs, u.rows, i) <==> Lost(View(w.c, cs), ops, cs, k, i) && Reverts(u.rows[i], i, n, cs)
  {
    RunAt(cs, w, ops, k, u, Plain(View(w.c, cs), ops, k));
    StaleIsExposed(u.c, cs, u.rows, i);
    if InPlace(u.rows, cs, i) {
      LostIff(cs, w, ops, k, i, u);
    }
  }

  /** A flush after k operations meets a stale chunk if and only if a lost one resurfaces over a stored row. */
  lemma StaleIff(cs: nat, w: World, ops: seq<Op>, k: nat, u: World)
    requires cs > 0 && Sound(cs, w) && Start(cs, w) && k <= |ops| && u == Run(cs, w, ops, k)
    ensures Stale(u.c, cs, u.rows) <==> Resurfaces(cs, w, ops, k)
  {
    var v := View(w.c, cs);
    forall i | 0 <= i < |u.rows|
      ensures StaleAt(u.c, cs, u.rows, i) <==> Lost(v, ops, cs, k, i) && Reverts(u.rows[i], i, |Plain(v, ops, k)|, cs)
    {
      StaleAtIff(cs, w, ops, k, u, |Plain(v, ops, k)|, i);
    }
  }

  ghost predicate NothingResurfaces(cs: nat, w: World, ops: seq<Op>)
    requires cs > 0
  {
    forall k :: 0 <= k < |ops| && ops[k].Sync? && Run(cs, w, ops, k).dirty ==> !Resurfaces(cs, w, ops, k)
  }

  /**
    Every sync of a run stores what the same operations make of a plain byte array if and only if at none of them a chunk
    is back that had been cut off and not rewritten, with a stored row of its place and length that is not all zeros.
   */
  lemma HistoryDecides(cs: nat, w: World, ops: seq<Op>)
    requires cs > 0 && Sound(cs, w) && Start(cs, w) && Agrees(cs, w)
    ensures SyncsExact(cs, w, ops) <==> NothingResurfaces(cs, w, ops)
  {
    RunStoresIff(cs, w, ops);
    forall k | 0 <= k < |ops|
      ensures Stale(Run(cs, w, ops, k).c, cs, Run(cs, w, ops, k).rows) <==> Resurfaces(cs, w, ops, k)
    {
      StaleIff(cs, w, ops, k, Run(cs, w, ops, k));
    }
  }

  /** Every file as stored, in whatever layout but the over-long single row, is such a start. */
  lemma MountStarts(rows: seq<Row>, size: nat, cs: nat, w: World)
    requires cs > 0 && Tiles(rows) && size == |Content(rows)| && !LongTail(rows, cs)
    requires w == World(Materialized(rows, size, cs), false, rows)
    ensures Sound(cs, w) && Start(cs, w) && Agrees(cs, w) && View(w.c, cs) == Content(rows)
  {
    MaterializeKeeps(rows, size, cs);
    forall i | 0 <= i < |rows| && InPlace(rows, cs, i)
      ensures Kept(w.c, i) && Off(i, cs) < w.c.size
    {
      RowInside(rows, i);
    }
  }
}
