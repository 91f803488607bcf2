/** Copy-on-write is lazy: what a state downloads during its life, and what a flush uploads. */
module Laziness {
  import opened Bytes
  import opened Blobs
  import opened Plan
  import opened Tables
  import opened Store
  import opened SparseFile
  import opened FlushFile
  import opened Fetches
  import opened Runs

  lemma {:induction false} LoadLoads(c: Core, lo: nat, hi: nat, skip: set<nat>)
    ensures Load(c, lo, hi, skip).loaded == c.loaded + Fetch(c, lo, hi, skip)
    ensures Load(c, lo, hi, skip).size == c.size && Load(c, lo, hi, skip).dirtyIdx == c.dirtyIdx
    decreases hi
  {
    if lo < hi {
      LoadLoads(c, lo, hi - 1, skip);
      assert forall i :: i in Fetch(c, lo, hi, skip) <==>
                         i in Fetch(c, lo, hi - 1, skip) || (i == hi - 1 && Needed(c, hi - 1, skip));
    } else {
      assert Fetch(c, lo, hi, skip) == {};
    }
  }

  // ----- what each operation downloads -----------------------------------------------------

  /** Base chunks that a write flags as loaded because it replaces them whole. */
  ghost function Replaced(c: Core, cs: nat, start: nat, end: nat): set<nat>
    requires cs > 0
  {
    var end' := Min(end, c.size);
    if end' <= start || c.base == [] then {} else Covered(c.base, Idx(start, cs), Idx(end' - 1, cs) + 1, start, end')
  }

  /** Base indexes that an operation downloads. */
  ghost function Downloads(cs: nat, w: World, op: Op): set<nat>
    requires cs > 0
  {
    match op
    case Write(data, off) => WriteFetch(w.c, cs, off, off + |data|)
    case Truncate(length) => TruncateFetch(w.c, cs, length)
    case Read(offset, n) => PrepareFetch(w.c, cs, offset, Min(offset + n, w.c.size), false)
    case Sync => {}
  }

  /** Base indexes that an operation replaces whole. */
  ghost function Overwrites(cs: nat, w: World, op: Op): set<nat>
    requires cs > 0
  {
    match op
    case Write(data, off) => Replaced(w.c, cs, off, off + |data|)
    case _ => {}
  }

  /** Indexes that are done with: as far as they are in the base list, they are loaded. */
  ghost predicate Spent(c: Core, done: set<nat>) {
    forall i :: i in done && i < |c.base| ==> i in c.loaded
  }

  lemma PrepareSpends(c: Core, cs: nat, start: nat, end: nat, overwrite: bool, done: set<nat>)
    requires cs > 0 && Spent(c, done)
    ensures var more := PrepareFetch(c, cs, start, end, overwrite) + if overwrite then Replaced(c, cs, start, end) else {};
            Spent(Prepare(c, cs, start, end, overwrite), done + more)
    ensures PrepareFetch(c, cs, start, end, overwrite) !! done
    ensures overwrite ==> PrepareFetch(c, cs, start, end, overwrite) !! Replaced(c, cs, start, end)
  {
    var end' := Min(end, c.size);
    if end' > start && c.base != [] {
      var lo, hi := Idx(start, cs), Idx(end' - 1, cs) + 1;
      var skip := if overwrite then Covered(c.base, lo, hi, start, end') else {};
      LoadLoads(c.(loaded := c.loaded + skip), lo, hi, skip);
    }
  }

  lemma GrowSpends(c: Core, cs: nat, newSize: nat, done: set<nat>)
    requires cs > 0 && Spent(c, done)
    ensures Spent(Grow(c, cs, newSize), done + GrowFetch(c, cs, newSize))
    ensures GrowFetch(c, cs, newSize) !! done
  {
    if newSize > c.size && PartialTail(c, cs) {
      LoadLoads(c, |c.base| - 1, |c.base|, {});
    }
  }

  lemma ShrinkSpends(c: Core, cs: nat, length: nat, done: set<nat>)
    requires cs > 0 && Spent(c, done)
    ensures Spent(Shrink(c, cs, length), done + CutFetch(c, cs, length))
    ensures CutFetch(c, cs, length) !! done
  {
    var b := Idx(length, cs);
    if length % cs != 0 && b < |c.base| {
      LoadLoads(c, b, b + 1, {});
    }
  }

  lemma FlushSpends(c: Core, cs: nat, rows: seq<Row>, done: set<nat>)
    requires cs > 0 && Spent(c, done)
    ensures Spent(Flushed(c, cs, rows), done)
  {
  }

  /** What one operation downloads is not done with; what it downloads or replaces is done with from then on. */
  ghost predicate Spends(cs: nat, w: World, op: Op, done: set<nat>)
    requires cs > 0
  {
    && Spent(Step(cs, w, op).c, done + Downloads(cs, w, op) + Overwrites(cs, w, op))
    && Downloads(cs, w, op) !! done && Downloads(cs, w, op) !! Overwrites(cs, w, op)
  }

  lemma WriteLoads(cs: nat, w: World, op: Op, data: Data, off: nat, end: nat)
    requires cs > 0 && op == Op.Write(data, off) && end == off + |data|
    ensures Downloads(cs, w, op) == WriteFetch(w.c, cs, off, end)
    ensures Overwrites(cs, w, op) == Replaced(w.c, cs, off, end)
  {
  }

  lemma WriteCase(cs: nat, w: World, op: Op, data: Data, off: nat, end: nat, done: set<nat>)
    requires cs > 0 && Spent(w.c, done) && op == Op.Write(data, off) && end == off + |data|
    ensures Spends(cs, w, op, done)
  {
    WriteSpends(w.c, cs, data, off, end, done);
    WriteStep(cs, w, op, data, off);
    WriteLoads(cs, w, op, data, off, end);
  }

  lemma TruncateCase(cs: nat, w: World, op: Op, done: set<nat>)
    requires cs > 0 && Spent(w.c, done) && op.Truncate?
    ensures Spends(cs, w, op, done)
  {
    if op.length < w.c.size {
      ShrinkSpends(w.c, cs, op.length, done);
    } else {
      GrowSpends(w.c, cs, op.length, done);
    }
  }

  lemma ReadCase(cs: nat, w: World, op: Op, done: set<nat>)
    requires cs > 0 && Spent(w.c, done) && op.Read?
    ensures Spends(cs, w, op, done)
  {
    PrepareSpends(w.c, cs, op.offset, Min(op.offset + op.n, w.c.size), false, done);
  }

  lemma SyncCase(cs: nat, w: World, op: Op, done: set<nat>)
    requires cs > 0 && Spent(w.c, done) && op.Sync?
    ensures Spends(cs, w, op, done)
  {
    FlushSpends(w.c, cs, w.rows, done);
  }

  lemma StepSpends(cs: nat, w: World, op: Op, done: set<nat>)
    requires cs > 0 && Spent(w.c, done)
    ensures Spends(cs, w, op, done)
  {
    match op
    case Write(data, off) =>
      WriteCase(cs, w, op, data, off, off + |data|, done);
    case Truncate(_) =>
      TruncateCase(cs, w, op, done);
    case Read(_, _) =>
      ReadCase(cs, w, op, done);
    case Sync =>
      SyncCase(cs, w, op, done);
  }

  lemma ReadySpends(c: Core, cs: nat, start: nat, end: nat, done: set<nat>)
    requires cs > 0 && Spent(c, done)
    ensures Spent(Grow(Prepare(c, cs, start, end, true), cs, end), done + WriteFetch(c, cs, start, end) + Replaced(c, cs, start, end))
    ensures WriteFetch(c, cs, start, end) !! done && WriteFetch(c, cs, start, end) !! Replaced(c, cs, start, end)
  {
    var p, grown := Prepare(c, cs, start, end, true), Grow(Prepare(c, cs, start, end, true), cs, end);
    var fetch, over := PrepareFetch(c, cs, start, end, true), Replaced(c, cs, start, end);
    PrepareSpends(c, cs, start, end, true, done);
    GrowSpends(p, cs, end, done + (fetch + over));
    SpentSame(grown, done + (fetch + over) + GrowFetch(p, cs, end), done + (fetch + GrowFetch(p, cs, end)) + over);
  }

  lemma SpentSame(c: Core, a: set<nat>, b: set<nat>)
    requires Spent(c, a) && a == b
    ensures Spent(c, b)
  {
  }

  lemma WriteSpends(c: Core, cs: nat, data: Data, off: nat, end: nat, done: set<nat>)
    requires cs > 0 && Spent(c, done) && end == off + |data|
    ensures Spent(SparseFile.Write(c, cs, data, off), done + WriteFetch(c, cs, off, end) + Replaced(c, cs, off, end))
    ensures WriteFetch(c, cs, off, end) !! done && WriteFetch(c, cs, off, end) !! Replaced(c, cs, off, end)
  {
    ReadySpends(c, cs, off, end, done);
    PutSpent(Ready(c, cs, data, off), cs, data, off, done + WriteFetch(c, cs, off, end) + Replaced(c, cs, off, end));
  }

  lemma PutSpent(c: Core, cs: nat, data: Data, off: nat, done: set<nat>)
    requires cs > 0 && Spent(c, done)
    ensures Spent(Put(c, cs, data, off), done)
  {
  }

  lemma StepDone(cs: nat, u: World, op: Op, u': World, done: set<nat>)
    requires cs > 0 && u' == Step(cs, u, op) && done == Downloads(cs, u, op) + Overwrites(cs, u, op)
    ensures Spent(u'.c, done)
  {
    StepSpends(cs, u, op, {});
    SpentSame(u'.c, {} + Downloads(cs, u, op) + Overwrites(cs, u, op), done);
  }

  lemma StepStays(cs: nat, u: World, op: Op, u': World, done: set<nat>)
    requires cs > 0 && u' == Step(cs, u, op) && Spent(u.c, done)
    ensures Spent(u'.c, done)
  {
    StepSpends(cs, u, op, done);
  }

  /** What an operation downloads or replaces stays done with. */
  lemma {:induction false} StaysSpent(cs: nat, w: World, ops: seq<Op>, j: nat, k: nat, wj: World, wk: World, done: set<nat>)
    requires cs > 0 && j < k <= |ops| && wj == Run(cs, w, ops, j) && wk == Run(cs, w, ops, k)
    requires done == Downloads(cs, wj, ops[j]) + Overwrites(cs, wj, ops[j])
    ensures Spent(wk.c, done)
    decreases k
  {
    var u := Run(cs, w, ops, k - 1);
    RunNext(cs, w, ops, k, u, wk);
    if j == k - 1 {
      StepDone(cs, u, ops[j], wk, done);
    } else {
      StaysSpent(cs, w, ops, j, k - 1, wj, u, done);
      StepStays(cs, u, ops[k - 1], wk, done);
    }
  }

  /**
    In any run of one state each base chunk index is downloaded at most once, syncs and truncates included, and one that
    was overwritten whole before that is never downloaded.
   */
  lemma DownloadsOnce(cs: nat, w: World, ops: seq<Op>, j: nat, k: nat, wj: World, wk: World)
    requires cs > 0 && j < k < |ops| && wj == Run(cs, w, ops, j) && wk == Run(cs, w, ops, k)
    ensures Downloads(cs, wj, ops[j]) !! Downloads(cs, wk, ops[k])
    ensures Overwrites(cs, wj, ops[j]) !! Downloads(cs, wk, ops[k])
    ensures Overwrites(cs, wk, ops[k]) !! Downloads(cs, wk, ops[k])
  {
    var before, over := Downloads(cs, wj, ops[j]), Overwrites(cs, wj, ops[j]);
    StaysSpent(cs, w, ops, j, k, wj, wk, before + over);
    StepSpends(cs, wk, ops[k], before + over);
    UnionApart(before, over, Downloads(cs, wk, ops[k]));
  }

  lemma UnionApart(a: set<nat>, b: set<nat>, c: set<nat>)
    requires c !! a + b
    ensures a !! c && b !! c
  {
  }

  /** A digest that a flush has to upload is that of a chunk which is dirty or has no matching stored row. */
  lemma UploadsAreDirty(src: Data, cs: nat, was: seq<Row>, dirty: Option<set<nat>>, blobs: BlobTable, s: Sha) returns (i: nat)
    requires cs > 0 && (forall r :: r in was ==> r.sha in blobs)
    requires s in NewShas(PutRows(src, cs, was, dirty), blobs)
    ensures i < Chunks(|src|, cs) && !Reused(i, |src|, cs, was, dirty) && s == Hash(Chunk(src, i, cs))
  {
    var rows := PutRows(src, cs, was, dirty);
    var r :| r in rows && r.sha !in blobs && r.sha == s;
    i :| 0 <= i < |rows| && rows[i] == r;
    assert i < |was| ==> was[i] in was;
  }
}
