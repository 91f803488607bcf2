/** What the conservation law gives over whole interleaved runs of put_file and free_file. */
module PutRuns {
  import opened Bytes
  import opened Blobs
  import opened Plan
  import opened Tables
  import opened Sums
  import opened PutProtocol

  datatype Move = Move(ino: Ino, act: Act)

  /** ws[k + 1] is ws[k] after the k-th move. */
  ghost predicate IsRun(cs: nat, workers: nat, ws: seq<World>, moves: seq<Move>)
    requires cs > 0
  {
    |ws| == |moves| + 1 &&
    forall k :: 0 <= k < |moves| ==> Step(cs, workers, ws[k], moves[k].ino, moves[k].act, ws[k + 1])
  }

  /** No call is under way. */
  ghost predicate Quiet(w: World) {
    forall i :: i in w.files ==> w.files[i].proc.Idle?
  }

  lemma {:induction false} RunKeeps(cs: nat, workers: nat, ws: seq<World>, moves: seq<Move>, k: nat)
    requires cs > 0 && IsRun(cs, workers, ws, moves) && Inv(cs, ws[0]) && k <= |moves|
    ensures Inv(cs, ws[k])
    decreases k
  {
    if k > 0 {
      RunKeeps(cs, workers, ws, moves, k - 1);
      StepKeeps(cs, workers, ws[k - 1], moves[k - 1].ino, moves[k - 1].act, ws[k]);
    }
  }

  /**
    At every moment of every run, every chunk row of every inode that is not itself being freed names a blob row whose
    handle is live and yields exactly the bytes of that sha.
   */
  lemma RowsResolve(cs: nat, workers: nat, ws: seq<World>, moves: seq<Move>, k: nat, ino: Ino, r: Row)
    requires cs > 0 && IsRun(cs, workers, ws, moves) && Inv(cs, ws[0]) && k <= |moves|
    requires ino in ws[k].files && r in ws[k].files[ino].rows
    requires var proc := ws[k].files[ino].proc; !(proc.Dropping? && proc.why.Freed?)
    ensures var g := ws[k].shared;
            r.sha in g.blobs && g.blobs[r.sha].handle in g.live && Hash(g.live[g.blobs[r.sha].handle]) == r.sha
  {
    RunKeeps(cs, workers, ws, moves, k);
    var f := ws[k].files[ino];
    InRows(f.rows, r);
    assert Claim(f)[r.sha] > 0;
    GatherHas(Claims(ws[k].files), ino, r.sha);
  }

  lemma InRows(rows: seq<Row>, r: Row)
    requires r in rows
    ensures Bag(rows)[r.sha] > 0
  {
    var k :| 0 <= k < |rows| && rows[k] == r;
    assert Shas(rows)[k] == r.sha;
  }

  ghost function RowTable(w: World): ChunkTable {
    map i | i in w.files :: w.files[i].rows
  }

  /** When no call is under way, refcounts are exactly row occurrences and blob rows match live handles one to one. */
  lemma QuietIsExact(cs: nat, w: World)
    requires cs > 0 && Inv(cs, w) && Quiet(w)
    ensures Counted(RowTable(w), w.shared.blobs)
    ensures Linked(w.shared.blobs, w.shared.live)
  {
    assert Bags(RowTable(w)) == Claims(w.files);
    assert forall i :: i in w.files ==> Carried(w.files[i]) == {};
    assert forall h :: h in w.shared.live ==> Named(w.shared, h);
  }

  /** Every state of that kind with unused handles ahead is one that runs can start from, and no other quiet one is. */
  lemma QuietStart(cs: nat, w: World)
    requires cs > 0 && Quiet(w)
    ensures Inv(cs, w) <==>
            Counted(RowTable(w), w.shared.blobs) && Linked(w.shared.blobs, w.shared.live)
            && forall h :: h in w.shared.live ==> h < w.shared.next
  {
    if Inv(cs, w) {
      QuietIsExact(cs, w);
    }
    assert Bags(RowTable(w)) == Claims(w.files);
    assert forall i :: i in w.files ==> Carried(w.files[i]) == {};
  }

  /** A call publishes exactly the planned list for the source it was given, over the rows it found. */
  lemma PublishesPlan(cs: nat, workers: nat, w: World, ino: Ino, w': World)
    requires cs > 0 && Inv(cs, w) && Step(cs, workers, w, ino, Publish, w')
    ensures var p := w.files[ino].proc.p;
            p.was == w.files[ino].rows && w'.files[ino].rows == PutRows(p.src, cs, p.was, p.dirty)
  {
    StepKeeps(cs, workers, w, ino, Publish, w');
  }

  /** The "blob missing" error never arises: a clean chunk's blob is known whenever its turn comes. */
  lemma CleanChunkKnown(cs: nat, w: World, ino: Ino)
    requires cs > 0 && Inv(cs, w) && ino in w.files && w.files[ino].proc.Working?
    requires Scanning(cs, w.files[ino].proc.p) && Clean(cs, w.files[ino].proc.p)
    ensures NextRow(cs, w.files[ino].proc.p).sha in w.shared.blobs
  {
    SolventHere(cs, w, ino);
    CleanKnown(cs, w.files[ino], w.shared);
  }

  // ----- rollback --------------------------------------------------------------------------

  /** A blob that exists before and after a step keeps its handle. */
  lemma HandleStable(cs: nat, workers: nat, act: Act, f: File, g: Shared, f': File, g': Shared, s: Sha)
    requires cs > 0 && Does(cs, workers, act, f, g, f', g') && s in g.blobs && s in g'.blobs
    ensures g'.blobs[s].handle == g.blobs[s].handle
  {
  }

  /** Relative to a quiet start, the file is as it was but for a call that has not published. */
  ghost predicate Untouched(f0: File, f: File) {
    && f.rows == f0.rows && f.size == f0.size
    && (f.proc.Idle? || f.proc.Working? || f.proc.Stopping? || (f.proc.Dropping? && f.proc.why.RolledBack?))
  }

  ghost predicate Restorable(w0: World, w: World) {
    && w.files.Keys == w0.files.Keys
    && (forall i :: i in w0.files ==> Untouched(w0.files[i], w.files[i]))
    && (forall s :: s in w0.shared.blobs ==> s in w.shared.blobs && w.shared.blobs[s].handle == w0.shared.blobs[s].handle)
  }

  lemma ClaimsRows(f0: File, f: File, s: Sha)
    requires f0.proc.Idle? && Untouched(f0, f)
    ensures Claim(f)[s] >= Claim(f0)[s]
  {
  }

  /** Rows that stay keep their blobs, whatever else is taken and dropped. */
  lemma RowsHoldBlobs(cs: nat, w0: World, w: World, s: Sha)
    requires cs > 0 && Inv(cs, w0) && Quiet(w0) && Inv(cs, w) && s in w0.shared.blobs
    requires w.files.Keys == w0.files.Keys && forall i :: i in w0.files ==> Untouched(w0.files[i], w.files[i])
    ensures s in w.shared.blobs
  {
    assert Ref(w0.shared.blobs, s) > 0;
    var i := GatherFind(Claims(w0.files), s);
    ClaimsRows(w0.files[i], w.files[i], s);
    GatherHas(Claims(w.files), i, s);
  }

  lemma StepRestorable(cs: nat, workers: nat, w0: World, w: World, ino: Ino, act: Act, w': World)
    requires cs > 0 && Inv(cs, w0) && Quiet(w0) && Inv(cs, w) && Restorable(w0, w)
    requires Step(cs, workers, w, ino, act, w') && !act.Publish? && !act.Free?
    ensures Restorable(w0, w')
  {
    StepKeeps(cs, workers, w, ino, act, w');
    forall i | i in w0.files
      ensures Untouched(w0.files[i], w'.files[i])
    {
      if i != ino {
        assert w'.files[i] == w.files[i];
      }
    }
    forall s | s in w0.shared.blobs
      ensures s in w'.shared.blobs && w'.shared.blobs[s].handle == w0.shared.blobs[s].handle
    {
      RowsHoldBlobs(cs, w0, w', s);
      HandleStable(cs, workers, act, w.files[ino], w.shared, w'.files[ino], w'.shared, s);
    }
  }

  lemma {:induction false} RunRestorable(cs: nat, workers: nat, ws: seq<World>, moves: seq<Move>, k: nat)
    requires cs > 0 && IsRun(cs, workers, ws, moves) && Inv(cs, ws[0]) && Quiet(ws[0]) && k <= |moves|
    requires forall j :: 0 <= j < |moves| ==> !moves[j].act.Publish? && !moves[j].act.Free?
    ensures Restorable(ws[0], ws[k])
    decreases k
  {
    if k > 0 {
      RunRestorable(cs, workers, ws, moves, k - 1);
      RunKeeps(cs, workers, ws, moves, k - 1);
      StepRestorable(cs, workers, ws[0], ws[k - 1], moves[k - 1].ino, moves[k - 1].act, ws[k]);
    }
  }

  /**
    Rollback is exact: however many put_file calls ran interleaved, with whatever repeats, races, failed and cancelled
    uploads, if none of them published then, once all is quiet, rows, sizes, refcounts, handles and the backend's
    contents are what they were.
   */
  lemma FailedRunRestores(cs: nat, workers: nat, ws: seq<World>, moves: seq<Move>)
    requires cs > 0 && IsRun(cs, workers, ws, moves) && Inv(cs, ws[0]) && Quiet(ws[0]) && Quiet(ws[|moves|])
    requires forall j :: 0 <= j < |moves| ==> !moves[j].act.Publish? && !moves[j].act.Free?
    ensures ws[|moves|].files == ws[0].files
    ensures ws[|moves|].shared.blobs == ws[0].shared.blobs
    ensures ws[|moves|].shared.live == ws[0].shared.live
  {
    var w0, w := ws[0], ws[|moves|];
    RunRestorable(cs, workers, ws, moves, |moves|);
    RunKeeps(cs, workers, ws, moves, |moves|);
    assert w.files == w0.files;
    QuietIsExact(cs, w0);
    QuietIsExact(cs, w);
    forall s
      ensures Ref(w.shared.blobs, s) == Ref(w0.shared.blobs, s)
    {
      assert RowTable(w) == RowTable(w0);
    }
    SameBlobs(w0.shared.blobs, w.shared.blobs, w0.shared.live, w.shared.live);
  }

  // ----- bounded uploads -------------------------------------------------------------------

  /** No call has more than `workers` chunks in flight. */
  ghost predicate WithinWorkers(workers: nat, f: File) {
    f.proc.Working? || f.proc.Stopping? ==> |Running(f.proc.p)| <= workers
  }

  lemma SubsetSize<T>(a: set<T>, b: set<T>)
    requires a <= b
    ensures |a| <= |b|
  {
    if a != {} {
      var x :| x in a;
      SubsetSize(a - {x}, b - {x});
    }
  }

  lemma StepWithinWorkers(cs: nat, workers: nat, act: Act, f: File, g: Shared, f': File, g': Shared)
    requires cs > 0 && Does(cs, workers, act, f, g, f', g') && WithinWorkers(workers, f)
    ensures WithinWorkers(workers, f')
  {
    if (f.proc.Working? || f.proc.Stopping?) && (f'.proc.Working? || f'.proc.Stopping?) {
      var p, p' := f.proc.p, f'.proc.p;
      if act.Submit? {
        assert Running(p') == Running(p) + {NextRow(cs, p).sha};
      } else {
        assert Running(p') <= Running(p);
        SubsetSize(Running(p'), Running(p));
      }
    } else if f'.proc.Working? {
      assert Running(f'.proc.p) == {};
    }
  }
}
