/** Writeback states shared by all handles of an inode, flushed on the last close or later. */
module Writeback {
  import opened Bytes
  import opened Blobs
  import opened Tables
  import opened Store
  import opened SparseFile
  import opened FlushFile
  import opened Exposure
  import opened FileState
  import opened Traces

  class WritebackManager {
    const store: Store
    const delayed: bool  // flush_delay > 0
    var states: map<Ino, FileState>

    constructor (store: Store, delayed: bool)
      requires store.Valid()
      ensures this.store == store && this.delayed == delayed && states == map[] && Valid()
    {
      assert Look(Totals, 0);
      this.store, this.delayed := store, delayed;
      states := map[];
    }

    /** Every state is in order. */
    ghost predicate Ordered()
      reads this, states.Values, store.meta, store.backend
    {
      forall ino :: ino in states ==> states[ino].Valid(store)
    }

    /** Each state is shared under its own inode number, and in order; the latter folded, see Bytes.Look. */
    ghost predicate Valid()
      reads this, states.Values, store.meta, store.backend
    {
      && store.Valid()
      && (forall ino :: ino in states ==> states[ino].ino == ino)
      && forall k: nat {:trigger Look(Totals, k)} :: Look(Totals, k) ==> Ordered()
    }

    /** What can be seen of an inode. */
    ghost function Seen(ino: Ino): Obs
      requires store.chunkSize > 0
      reads this, states.Values, store.meta
    {
      if ino in states then Observed(states[ino], store) else Idle(store.Stored(ino))
    }

    lemma SeenProper(ino: Ino)
      requires Valid()
      ensures Proper(Seen(ino))
    {
      assert Look(Totals, 0);
      if ino in states && states[ino].IsTight(store) && states[ino].materialized {
        TightNotStale(states[ino].Fields(), store.chunkSize, store.Rows(ino));
      }
    }

    /** The inode's rows, for whoever is about to enter write mode; see FileState.Openable. */
    ghost predicate Openable(ino: Ino)
      requires store.chunkSize > 0
      reads this, states.Values, store.meta
    {
      !Seen(ino).writing ==> ino in store.meta.sizes && !LongTail(store.Rows(ino), store.chunkSize)
    }

    /** Rows of other inodes stay, and no inode gains or loses its row of the index. */
    twostate predicate OnlyRowsOf(ino: Ino)
      reads this, store.meta
    {
      && (forall j :: j != ino ==> store.Rows(j) == old(store.Rows(j)))
      && store.meta.sizes.Keys == old(store.meta.sizes).Keys
      && store.meta.chunks.Keys <= old(store.meta.chunks).Keys + {ino}
    }

    /** States whose fields and rows are untouched look as they did. */
    twostate lemma SameStates()
      requires old(Valid()) && store.Valid() && (forall i :: i in states ==> i in old(states) && states[i] == old(states)[i])
      requires forall i :: i in states ==> unchanged(states[i]) && store.Rows(i) == old(store.Rows(i))
      ensures Valid()
      ensures forall i :: i in states ==> Seen(i) == old(Seen(i))
    {
      assert Look(Totals, 0);
    }

    /** Only one state was touched, and only its inode's rows. */
    twostate lemma OneChanged(ino: Ino)
      requires old(Valid()) && store.Valid() && states == old(states) && (ino in states ==> states[ino].Valid(store))
      requires forall i :: i in states && i != ino ==> unchanged(states[i])
      requires forall j :: j != ino ==> store.Rows(j) == old(store.Rows(j))
      ensures Valid()
      ensures forall j :: j != ino ==> Seen(j) == old(Seen(j))
    {
      assert Look(Totals, 0);
    }

    // ----- handles -------------------------------------------------------------------------

    /** The inode's shared state, created on first use, with one more handle counted on it. */
    method Share(ino: Ino) returns (st: FileState)
      requires Valid()
      modifies this`states, if ino in states then {states[ino]} else {}
      ensures Valid() && st.ino == ino && states == old(states)[ino := st]
      ensures ino in old(states) ==> st == old(states)[ino]
      ensures ino !in old(states) ==> fresh(st)
      ensures Does(delayed, Act.Open(false), old(Seen(ino)), Seen(ino))
      ensures forall j :: j != ino ==> Seen(j) == old(Seen(j))
    {
      ghost var a := Seen(ino);
      if ino in states {
        st := states[ino];
      } else {
        st := NewState(ino);
      }
      assert Seen(ino) == a.(held := true);
      Recount(st, st.refcount + 1);
      OpenedOnce(delayed, a, Seen(ino));
    }

    /** A new state, without handles so far, looks like what is stored. */
    method NewState(ino: Ino) returns (st: FileState)
      requires Valid() && ino !in states
      modifies this`states
      ensures Valid() && st.ino == ino && states == old(states)[ino := st] && fresh(st)
      ensures Seen(ino) == old(Seen(ino)).(held := true)
      ensures forall j :: j != ino ==> Seen(j) == old(Seen(j))
    {
      assert Look(Totals, 0);
      st := new FileState(ino);
      states := states[ino := st];
    }

    /** Sets how many handles a state has. */
    method Recount(st: FileState, refs: nat)
      requires Valid() && st.ino in states && states[st.ino] == st
      modifies st`refcount
      ensures Valid() && Seen(st.ino) == old(Seen(st.ino)).(refs := refs)
      ensures forall j :: j != st.ino ==> Seen(j) == old(Seen(j))
    {
      assert Look(Totals, 0);
      st.refcount := refs;
      OneChanged(st.ino);
    }

    /** One more handle on the inode; opening for writing enters write mode. Nothing else about any file changes. */
    method Open(ino: Ino, forWrite: bool) returns (st: FileState)
      requires Valid() && (forWrite ==> Openable(ino))
      modifies this`states, if ino in states then {states[ino]} else {}
      ensures Valid() && st.ino == ino && states == old(states)[ino := st]
      ensures ino in old(states) ==> st == old(states)[ino]
      ensures ino !in old(states) ==> fresh(st)
      ensures Does(delayed, Act.Open(forWrite), old(Seen(ino)), Seen(ino))
      ensures forall j :: j != ino ==> Seen(j) == old(Seen(j))
    {
      ghost var a := Seen(ino);
      st := Share(ino);
      ghost var b := Seen(ino);
      OpenHolds(delayed, false, a, b);
      if forWrite {
        EnterWriteMode(st);
      }
      OpenedInMode(delayed, forWrite, a, b, Seen(ino));
    }

    method EnterWriteMode(st: FileState)
      requires Valid() && st.ino in states && states[st.ino] == st && Openable(st.ino)
      modifies st
      ensures Valid() && Seen(st.ino) == old(Seen(st.ino)).(writing := true)
      ensures forall j :: j != st.ino ==> Seen(j) == old(Seen(j))
    {
      assert Look(Totals, 0);
      ghost var fetched := st.Materialize(store);
      OneChanged(st.ino);
    }

    // ----- io ------------------------------------------------------------------------------

    /** The size of a file in write mode, which the index may not know yet. */
    method LiveSize(ino: Ino) returns (r: Option<nat>)
      requires Valid()
      ensures r == if Seen(ino).writing then Some(|Seen(ino).view|) else None
    {
      assert Look(Totals, 0);
      r := if ino in states && states[ino].materialized then Some(states[ino].size) else None;
    }

    /** The file's bytes in the range; all of them unless an empty write past the end has left the file short. */
    method Read(st: FileState, n: nat, offset: nat) returns (data: Data)
      requires Valid() && st.ino in states && states[st.ino] == st
      modifies st
      ensures Valid()
      ensures data <= Slice(old(Seen(st.ino)).view, offset, offset + n)
      ensures old(Seen(st.ino)).whole ==> data == Slice(old(Seen(st.ino)).view, offset, offset + n)
      ensures Does(delayed, Act.Read, old(Seen(st.ino)), Seen(st.ino))
      ensures forall j :: j != st.ino ==> Seen(j) == old(Seen(j))
    {
      assert Look(Totals, 0) && Look(Conduct, 0);
      ghost var fetched;
      data, fetched := st.Read(store, n, offset);
      OneChanged(st.ino);
    }

    method Write(st: FileState, data: Data, offset: nat)
      requires Valid() && st.ino in states && states[st.ino] == st && Openable(st.ino)
      modifies st
      ensures Valid() && Does(delayed, Act.Write(data, offset), old(Seen(st.ino)), Seen(st.ino))
      ensures forall j :: j != st.ino ==> Seen(j) == old(Seen(j))
    {
      ghost var a := Seen(st.ino);
      assert Look(Totals, 0);
      ghost var fetched := st.Write(store, data, offset);
      OneChanged(st.ino);
      SeenProper(st.ino);
      WrittenTo(delayed, data, offset, a, Seen(st.ino));
    }

    method Truncate(st: FileState, length: nat)
      requires Valid() && st.ino in states && states[st.ino] == st && Openable(st.ino)
      modifies st
      ensures Valid() && Does(delayed, Act.Truncate(length), old(Seen(st.ino)), Seen(st.ino))
      ensures forall j :: j != st.ino ==> Seen(j) == old(Seen(j))
    {
      ghost var a := Seen(st.ino);
      assert Look(Totals, 0);
      ghost var fetched := st.Truncate(store, length);
      OneChanged(st.ino);
      SeenProper(st.ino);
      TruncatedTo(delayed, length, a, Seen(st.ino));
    }

    /**
      fsync: pushes what is pending now. No file changes for its readers; afterwards the store holds this file exactly if
      and only if its clean data was faithful and none of it stale. A failed upload leaves everything pending.
     */
    method Sync(st: FileState) returns (ok: bool)
      requires Valid() && st.ino in states && states[st.ino] == st
      modifies st, store.meta, store.backend
      ensures Valid() && OnlyRowsOf(st.ino)
      ensures Does(delayed, Act.Sync(ok), old(Seen(st.ino)), Seen(st.ino))
      ensures forall j :: j != st.ino ==> Seen(j) == old(Seen(j))
    {
      ghost var a := Seen(st.ino);
      assert Look(Totals, 0);
      ok := st.Flush(store);
      OneChanged(st.ino);
      SyncedTo(delayed, ok, a, Seen(st.ino));
    }

    /** FUSE flush, on every close: lazy when a flush delay is set. */
    method FlushOnClose(st: FileState) returns (ok: bool)
      requires Valid() && st.ino in states && states[st.ino] == st
      modifies st, store.meta, store.backend
      ensures Valid() && OnlyRowsOf(st.ino)
      ensures Does(delayed, if delayed then Stay else Act.Sync(ok), old(Seen(st.ino)), Seen(st.ino))
      ensures delayed ==> ok && unchanged(st) && unchanged(store.meta) && unchanged(store.backend)
      ensures forall j :: j != st.ino ==> Seen(j) == old(Seen(j))
    {
      if delayed {
        return true;
      }
      ok := Sync(st);
    }

    /**
      Closes a handle. The last close drops the state, after a flush, unless the flush is delayed. With no delay a flush
      that fails here finds the state already dropped: its changes are lost.
     */
    method Release(st: FileState) returns (ok: bool)
      requires Valid() && st.ino in states && states[st.ino] == st && st.refcount > 0
      modifies this`states, st, store.meta, store.backend
      ensures Valid() && OnlyRowsOf(st.ino)
      ensures states == if Drops(delayed, old(Seen(st.ino))) then old(states) - {st.ino} else old(states)
      ensures Does(delayed, Act.Close(ok), old(Seen(st.ino)), Seen(st.ino))
      ensures forall j :: j != st.ino ==> Seen(j) == old(Seen(j))
    {
      ghost var a := Seen(st.ino);
      assert a == Observed(st, store);
      Recount(st, st.refcount - 1);
      ok := true;
      if st.refcount == 0 && !(delayed && st.dirty) {
        ok := DropState(st);
        ClosedDropped(delayed, ok, a, Seen(st.ino));
      } else {
        ClosedKept(delayed, a, Seen(st.ino));
      }
    }

    /** Takes the state out of the table and flushes it, in one step; what a failed flush held is gone with it. */
    method DropState(st: FileState) returns (ok: bool)
      requires Valid() && st.ino in states && states[st.ino] == st
      modifies this`states, st, store.meta, store.backend
      ensures Valid() && states == old(states) - {st.ino} && OnlyRowsOf(st.ino)
      ensures Pushes(old(Seen(st.ino)), ok, Seen(st.ino).stored) && Seen(st.ino) == Idle(Seen(st.ino).stored)
      ensures forall j :: j != st.ino ==> Seen(j) == old(Seen(j))
    {
      ghost var a := Seen(st.ino);
      ok := Sync(st);
      SyncPushes(delayed, ok, a, Seen(st.ino));
      Forget(st.ino);
    }

    /**
      Truncates without a handle of the caller's: opened, truncated, flushed and closed again. What the inode looks like
      in between is the trace.
     */
    method TruncatePath(ino: Ino, length: nat) returns (ok: bool, ghost t: seq<Obs>, ghost acts: seq<Act>)
      requires Valid() && Openable(ino)
      modifies this`states, if ino in states then {states[ino]} else {}, store.meta, store.backend
      ensures Valid() && OnlyRowsOf(ino)
      ensures TruncateTrace(delayed, length, ok, t, acts) && t[0] == old(Seen(ino)) && t[4] == Seen(ino)
      ensures ino in states ==> states == old(states)[ino := states[ino]]
      ensures ino in states ==> if ino in old(states) then states[ino] == old(states)[ino] else fresh(states[ino])
      ensures ino !in states ==> states == old(states) - {ino}
      ensures forall j :: j != ino ==> Seen(j) == old(Seen(j))
    {
      ghost var a := Seen(ino);
      SeenProper(ino);
      var st, b := OpenTruncated(ino, length);
      assert states - {ino} == old(states) - {ino};
      ok, t, acts := FinishTruncate(st, length, a, b);
    }

    /** The rest of a truncate: flush and close. */
    method FinishTruncate(st: FileState, ghost length: nat, ghost a: Obs, ghost b: Obs)
      returns (ok: bool, ghost t: seq<Obs>, ghost acts: seq<Act>)
      requires Valid() && st.ino in states && states[st.ino] == st && st.refcount > 0 && Proper(a) && Proper(b)
      requires Does(delayed, Act.Open(true), a, b) && Does(delayed, Act.Truncate(length), b, Seen(st.ino))
      modifies this`states, st, store.meta, store.backend
      ensures Valid() && OnlyRowsOf(st.ino)
      ensures TruncateTrace(delayed, length, ok, t, acts) && t[0] == a && t[4] == Seen(st.ino)
      ensures states == if st.ino in states then old(states) else old(states) - {st.ino}
      ensures forall j :: j != st.ino ==> Seen(j) == old(Seen(j))
    {
      ghost var c := Seen(st.ino);
      SeenProper(st.ino);
      var flushed, closed, d := FlushReleased(st);
      SeenProper(st.ino);
      ok := flushed && closed;
      ghost var e, y := Seen(st.ino), if delayed then Stay else Act.Sync(flushed);
      t, acts := [a, b, c, d, e], [Act.Open(true), Act.Truncate(length), y, Act.Close(closed)];
      TruncateSteps(delayed, length, ok, t, acts, a, b, c, d, e, y, closed);
    }

    method OpenTruncated(ino: Ino, length: nat) returns (st: FileState, ghost b: Obs)
      requires Valid() && Openable(ino)
      modifies this`states, if ino in states then {states[ino]} else {}
      ensures Valid() && st.ino == ino && states == old(states)[ino := st]
      ensures if ino in old(states) then st == old(states)[ino] else fresh(st)
      ensures Proper(b) && Does(delayed, Act.Open(true), old(Seen(ino)), b) && Does(delayed, Act.Truncate(length), b, Seen(ino))
      ensures Seen(ino).held && Seen(ino).refs > 0
      ensures forall j :: j != ino ==> Seen(j) == old(Seen(j))
    {
      ghost var a := Seen(ino);
      st := Open(ino, true);
      b := Seen(ino);
      SeenProper(ino);
      OpenHolds(delayed, true, a, b);
      Truncate(st, length);
      TruncateHolds(delayed, length, b, Seen(ino));
    }

    method FlushReleased(st: FileState) returns (flushed: bool, closed: bool, ghost d: Obs)
      requires Valid() && st.ino in states && states[st.ino] == st && st.refcount > 0
      modifies this`states, st, store.meta, store.backend
      ensures Valid() && OnlyRowsOf(st.ino) && (delayed ==> flushed && closed)
      ensures states == if st.ino in states then old(states) else old(states) - {st.ino}
      ensures Proper(d) && Does(delayed, if delayed then Stay else Act.Sync(flushed), old(Seen(st.ino)), d)
      ensures Does(delayed, Act.Close(closed), d, Seen(st.ino))
      ensures forall j :: j != st.ino ==> Seen(j) == old(Seen(j))
    {
      ghost var c := Seen(st.ino);
      flushed := FlushOnClose(st);
      d := Seen(st.ino);
      SeenProper(st.ino);
      FlushHolds(delayed, if delayed then Stay else Act.Sync(flushed), c, d);
      closed := Release(st);
      if !closed {
        CloseFails(delayed, d, Seen(st.ino));
      }
    }

    /** Drops an inode's state without flushing: the inode was deleted. */
    method Discard(ino: Ino)
      requires Valid()
      modifies this`states, if ino in states then {states[ino]} else {}
      ensures Valid() && states == old(states) - {ino}
      ensures Does(delayed, Act.Discard, old(Seen(ino)), Seen(ino))
      ensures forall j :: j != ino ==> Seen(j) == old(Seen(j))
    {
      assert Look(Totals, 0) && Look(Conduct, 0);
      if ino in states {
        states[ino].dirty := false;
        states := states - {ino};
      }
    }

    // ----- delayed flush -------------------------------------------------------------------

    /** The reaper on one idle state: flush, then drop it. A failed flush keeps the state and all it holds. */
    method ReapState(ino: Ino) returns (ok: bool)
      requires Valid() && Seen(ino).held && Seen(ino).refs == 0
      modifies this`states, if ino in states then {states[ino]} else {}, store.meta, store.backend
      ensures Valid() && states == (if ok then old(states) - {ino} else old(states)) && OnlyRowsOf(ino)
      ensures Does(delayed, Act.Reap(ok), old(Seen(ino)), Seen(ino))
      ensures forall j :: j != ino ==> Seen(j) == old(Seen(j))
    {
      ghost var a := Seen(ino);
      var st := states[ino];
      ok := Sync(st);
      ghost var b := Seen(ino);
      if ok {
        Forget(ino);
        FlushedDropped(delayed, a, b, Seen(ino));
      } else {
        FlushedStays(delayed, a, b);
      }
    }

    /** Takes a state out of the table. */
    method Forget(ino: Ino)
      requires Valid() && Seen(ino).held
      modifies this`states
      ensures Valid() && states == old(states) - {ino} && Seen(ino) == Idle(old(Seen(ino)).stored)
      ensures forall j :: j != ino ==> Seen(j) == old(Seen(j))
    {
      assert Look(Totals, 0);
      states := states - {ino};
    }

    /** Flushes and drops the given idle states; a forced round stops at the first failure. */
    method ReapAll(cands: set<Ino>, force: bool) returns (ok: bool)
      requires Valid() && forall j :: j in cands ==> Seen(j).held && Seen(j).refs == 0
      modifies this`states, states.Values, store.meta, store.backend
      ensures Valid()
      ensures forall j :: j in cands ==> Seen(j) == old(Seen(j)) || Reaped(delayed, old(Seen(j)), Seen(j))
      ensures forall j :: j !in cands ==> Seen(j) == old(Seen(j))
      ensures force && ok ==> forall j :: j in cands ==> !Seen(j).held
    {
      ghost var before, states0 := imap j: Ino | true :: Seen(j), states;
      var todo := cands;
      ok := true;
      while todo != {} && ok
        invariant Valid() && todo <= cands && Progress(before, states0, cands, todo)
        invariant force && ok ==> Gone(cands - todo)
        decreases todo
      {
        var ino :| ino in todo;
        var done := ReapNext(ino, before, states0, cands, todo);
        todo := todo - {ino};
        ok := done || !force;
      }
    }

    /** How far a round has come: idle states still to do and all others are as before, those done are reaped. */
    ghost predicate Progress(before: imap<Ino, Obs>, states0: map<Ino, FileState>, cands: set<Ino>, todo: set<Ino>)
      requires store.chunkSize > 0
      reads this, states.Values, store.meta
    {
      && (forall j: Ino :: j in before)
      && (forall j :: j in todo ==> before[j].held && before[j].refs == 0)
      && (forall j :: j in states ==> j in states0 && states[j] == states0[j])
      && (forall j :: j !in cands || j in todo ==> Seen(j) == before[j])
      && (forall j :: j in cands && j !in todo ==> Reaped(delayed, before[j], Seen(j)))
    }

    ghost predicate Gone(inos: set<Ino>)
      requires store.chunkSize > 0
      reads this, states.Values, store.meta
    {
      forall j :: j in inos ==> !Seen(j).held
    }

    method ReapNext(ino: Ino, ghost before: imap<Ino, Obs>, ghost states0: map<Ino, FileState>, ghost cands: set<Ino>, ghost todo: set<Ino>)
      returns (ok: bool)
      requires Valid() && todo <= cands && ino in todo && Progress(before, states0, cands, todo)
      modifies this`states, if ino in states then {states[ino]} else {}, store.meta, store.backend
      ensures Valid() && Progress(before, states0, cands, todo - {ino})
      ensures ok && old(Gone(cands - todo)) ==> Gone(cands - (todo - {ino}))
    {
      ok := ReapState(ino);
      if ok {
        ReapedGone(delayed, before[ino], Seen(ino));
      }
    }

    /**
      One round of the reaper over the idle states whose delay has elapsed, or over all of them. A failed flush is
      retried in a later round; a forced round stops at it.
     */
    method ReapOnce(elapsed: set<Ino>, force: bool) returns (ok: bool)
      requires Valid()
      modifies this`states, states.Values, store.meta, store.backend
      ensures Valid()
      ensures forall j :: Seen(j) == old(Seen(j)) || Reaped(delayed, old(Seen(j)), Seen(j))
      ensures force && ok ==> forall j :: old(Seen(j)).refs == 0 ==> !Seen(j).held
    {
      var cands := set j | j in states && states[j].refcount == 0 && (force || j in elapsed);
      ok := ReapAll(cands, force);
    }

    /**
      Unmount: every state is flushed, open handles or not. When it succeeds no state is left; when an upload fails, what
      could not be stored is kept.
     */
    method Shutdown() returns (ok: bool)
      requires Valid()
      modifies this`states, states.Values, store.meta, store.backend
      ensures Valid()
      ensures forall j :: var a := old(Seen(j)).(refs := 0); Seen(j) == a || Reaped(delayed, a, Seen(j))
      ensures ok ==> states == map[]
      ensures ok ==> forall j :: UnmountedExactly(old(Seen(j)), Seen(j))
    {
      ghost var before := imap j: Ino | true :: Seen(j);
      forall j {
        SeenProper(j);
      }
      DropHandles();
      ok := ReapOnce({}, true);
      assert ok ==> forall j :: j in states ==> Seen(j).held;
      assert ok ==> states.Keys == {};
      if ok {
        forall j
          ensures UnmountedExactly(before[j], Seen(j))
        {
          UnmountStores(delayed, before[j], Seen(j), Does(delayed, Act.Reap(true), before[j].(refs := 0), Seen(j)));
        }
      }
    }

    method DropHandles()
      requires Valid()
      modifies states.Values
      ensures Valid() && forall j :: Seen(j) == old(Seen(j)).(refs := 0)
    {
      assert Look(Totals, 0);
      forall st | st in states.Values {
        st.refcount := 0;
      }
    }
  }

  ghost function Observed(st: FileState, store: Store): Obs
    requires store.chunkSize > 0
    reads st, store.meta
  {
    Obs(true, st.materialized, st.dirty, st.refcount, st.Contents(store), store.Stored(st.ino),
        st.Faithful(store), st.HasStale(store), st.IsTight(store), st.Whole(store))
  }

  /** The state is gone, and what was pending is stored exactly if the file was faithful and nothing of it stale. */
  ghost predicate UnmountedExactly(a: Obs, b: Obs) {
    && !b.held
    && (a.faithful && !a.stale ==> b.stored == a.view)
    && (a.dirty ==> (b.stored == a.view <==> a.faithful && !a.stale))
  }

  /** What the reaper does to a state it takes up: it drops it, stored, or keeps it. */
  ghost predicate Reaped(delayed: bool, a: Obs, b: Obs) {
    Does(delayed, Act.Reap(true), a, b) || Does(delayed, Act.Reap(false), a, b)
  }
}
