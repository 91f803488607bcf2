/** What can be seen of one inode under writeback, how each operation may change it, and what whole runs preserve. */
module Traces {
  import opened Bytes
  import opened Exposure

  /**
    One inode: whether a state is held for it, in write mode, with changes pending, and by how many handles; what its
    readers see and what is stored; whether its clean data agrees with the store, whether a flush would meet a stale
    chunk, whether no chunk is exposed to that, and whether every read is complete.
   */
  datatype Obs = Obs(held: bool, writing: bool, dirty: bool, refs: nat, view: Data, stored: Data,
                     faithful: bool, stale: bool, tight: bool, whole: bool)

  /** An inode without a state. */
  function Idle(stored: Data): Obs {
    Obs(false, false, false, 0, stored, stored, true, false, true, true)
  }

  /** Without a state there is nothing but what is stored; faithful and with nothing pending, the file is what is stored. */
  predicate Proper(a: Obs) {
    && (!a.held ==> a == Idle(a.stored))
    && (a.dirty ==> a.writing)
    && (a.faithful && !a.dirty ==> a.view == a.stored)
    && (a.tight ==> !a.stale)
  }

  datatype Act =
    | Stay
    | Open(forWrite: bool)
    | Read
    | Write(data: Data, off: nat)
    | Truncate(length: nat)
    | Sync(ok: bool)
    | Close(ok: bool)
    | Reap(ok: bool)
    | Unmount  // handles are no longer counted
    | Discard
    | Free     // discarded, and its rows released

  /** The last close of a state that is not kept for the reaper. */
  predicate Drops(delayed: bool, a: Obs) {
    a.refs <= 1 && !(delayed && a.dirty)
  }

  /**
    What a flush leaves in the store: the file as its readers see it if and only if its clean data is faithful and none of
    it stale; nothing changes when nothing is pending or the upload fails.
   */
  predicate Pushes(a: Obs, ok: bool, stored: Data) {
    if !a.dirty then ok && stored == a.stored
    else if ok then stored == a.view <==> a.faithful && !a.stale
    else stored == a.stored
  }

  /** A flush that fails leaves the file and what is pending. */
  predicate Stays(a: Obs, b: Obs) {
    a.dirty && b == a.(faithful := b.faithful, whole := true) && (a.faithful ==> b.faithful)
  }

  /** What one operation may do to the inode it is about. */
  predicate Acts(delayed: bool, act: Act, a: Obs, b: Obs) {
    match act
    case Stay => b == a
    case Open(forWrite) => b == a.(held := true, refs := a.refs + 1, writing := a.writing || forWrite)
    case Read =>
      && b == a.(faithful := b.faithful, whole := b.whole)
      && (a.faithful ==> b.faithful) && (a.whole ==> b.whole)
    case Write(data, off) =>
      && a.held
      && b == a.(writing := true, dirty := true, view := Overwrite(a.view, off, data),
                 faithful := b.faithful, stale := b.stale, tight := b.tight, whole := b.whole)
      && (a.faithful ==> b.faithful)
      && (a.tight && Seamless(|a.view|, |a.stored|, off) ==> b.tight && !b.stale)
      && (a.whole ==> (b.whole <==> data != [] || off <= |a.view|))
    case Truncate(length) =>
      && a.held
      && b == a.(writing := true, dirty := true, view := Resize(a.view, length),
                 faithful := b.faithful, stale := b.stale, tight := b.tight, whole := true)
      && (a.faithful ==> b.faithful)
      && (a.tight && Seamless(|a.view|, |a.stored|, length) ==> b.tight && !b.stale)
    case Sync(ok) =>
      && Pushes(a, ok, b.stored)
      && if !a.dirty then b == a
         else if ok then b == a.(dirty := false, stored := b.stored, faithful := a.faithful && !a.stale,
                                     stale := false, tight := true, whole := true)
         else Stays(a, b)
    case Close(ok) =>
      && a.held && a.refs > 0
      && if Drops(delayed, a) then Pushes(a, ok, b.stored) && b == Idle(b.stored)
         else ok && b == a.(refs := a.refs - 1)
    case Reap(ok) =>
      && a.held && a.refs == 0
      && if ok then Pushes(a, ok, b.stored) && b == Idle(b.stored) else Stays(a, b)
    case Unmount => b == a.(refs := 0)
    case Discard => b == Idle(a.stored)
    case Free => b == Idle([])
  }

  /** Acts, folded: see Bytes.Look. */
  ghost predicate Does(delayed: bool, act: Act, a: Obs, b: Obs) {
    forall k: nat {:trigger Look(Conduct, k)} :: Look(Conduct, k) ==> Acts(delayed, act, a, b)
  }

  // ----- one step --------------------------------------------------------------------------

  /** The act pushes something pending to the store. */
  predicate Flushes(delayed: bool, a: Obs, act: Act) {
    a.dirty && (act == Sync(true) || act == Reap(true) || (act == Close(true) && Drops(delayed, a)))
  }

  /** The act gives up what is pending: the inode is deleted, or its last close fails with no delay to keep it. */
  predicate Loses(act: Act) {
    act.Discard? || act.Free? || act == Close(false)
  }

  /** Pending changes go only into the store, with a discarded inode, or with a last close that fails undelayed. */
  lemma DirtyGoes(delayed: bool, act: Act, a: Obs, b: Obs)
    requires Does(delayed, act, a, b) && a.dirty && !b.dirty
    ensures Flushes(delayed, a, act) || Loses(act)
  {
    assert Look(Conduct, 0);
  }

  /** A close fails only when it is the last one, something is pending and there is no flush delay. */
  lemma CloseFails(delayed: bool, a: Obs, b: Obs)
    requires Does(delayed, Close(false), a, b)
    ensures !delayed && a.dirty && a.refs == 1
  {
    assert Look(Conduct, 0);
  }

  /** The same operation on a plain byte array. */
  function PlainAct(v: Data, act: Act): Data {
    match act
    case Write(data, off) => Overwrite(v, off, data)
    case Truncate(length) => Resize(v, length)
    case _ => v
  }

  lemma StepKeeps(delayed: bool, act: Act, a: Obs, b: Obs)
    requires Does(delayed, act, a, b) && Proper(a) && a.faithful && !Loses(act) && (Flushes(delayed, a, act) ==> !a.stale)
    ensures b.faithful && b.view == PlainAct(a.view, act)
  {
    assert Look(Conduct, 0);
  }

  /** A flush of a faithful file is exact if and only if nothing is stale. */
  lemma FlushExactIff(delayed: bool, act: Act, a: Obs, b: Obs)
    requires Does(delayed, act, a, b) && Flushes(delayed, a, act)
    ensures b.stored == a.view <==> a.faithful && !a.stale
  {
    assert Look(Conduct, 0);
  }

  lemma TruncateHolds(delayed: bool, length: nat, a: Obs, b: Obs)
    requires Does(delayed, Truncate(length), a, b)
    ensures b.held && b.refs == a.refs && b.writing && b.view == Resize(a.view, length) && (a.faithful ==> b.faithful)
    ensures a.tight && Seamless(|a.view|, |a.stored|, length) ==> !b.stale
  {
    assert Look(Conduct, 0);
  }

  lemma FlushHolds(delayed: bool, act: Act, a: Obs, b: Obs)
    requires Does(delayed, act, a, b) && (act.Sync? || act.Stay?)
    ensures b.held == a.held && b.refs == a.refs && b.view == a.view
  {
    assert Look(Conduct, 0);
  }

  lemma WrittenTo(delayed: bool, data: Data, off: nat, a: Obs, b: Obs)
    requires a.held && b.held && b.writing && b.dirty && b.refs == a.refs && b.stored == a.stored
    requires b.view == Overwrite(a.view, off, data) && (a.faithful ==> b.faithful)
    requires a.whole ==> (b.whole <==> data != [] || off <= |a.view|)
    requires Proper(b) && (a.tight && Seamless(|a.view|, |a.stored|, off) ==> b.tight)
    ensures Does(delayed, Write(data, off), a, b)
  {
  }

  lemma TruncatedTo(delayed: bool, length: nat, a: Obs, b: Obs)
    requires a.held && b.held && b.writing && b.dirty && b.refs == a.refs && b.stored == a.stored
    requires b.view == Resize(a.view, length) && (a.faithful ==> b.faithful) && b.whole
    requires Proper(b) && (a.tight && Seamless(|a.view|, |a.stored|, length) ==> b.tight)
    ensures Does(delayed, Truncate(length), a, b)
  {
  }

  lemma SyncedTo(delayed: bool, ok: bool, a: Obs, b: Obs)
    requires if !a.dirty then ok && b == a
             else
               && b.held == a.held && b.writing == a.writing && b.refs == a.refs && b.view == a.view && b.whole && b.dirty == !ok
               && (ok ==> (b.stored == a.view <==> a.faithful && !a.stale) && (b.faithful <==> a.faithful && !a.stale) && !b.stale && b.tight)
               && (!ok ==> b.stored == a.stored && (a.faithful ==> b.faithful) && b.stale == a.stale && b.tight == a.tight)
    ensures Does(delayed, Sync(ok), a, b)
  {
  }

  lemma SyncPushes(delayed: bool, ok: bool, a: Obs, b: Obs)
    requires Does(delayed, Sync(ok), a, b)
    ensures Pushes(a, ok, b.stored) && b.held == a.held && b.refs == a.refs
  {
    assert Look(Conduct, 0);
  }

  lemma Stayed(delayed: bool, a: Obs)
    ensures Does(delayed, Stay, a, a)
  {
  }

  lemma ReadHolds(delayed: bool, a: Obs, b: Obs)
    requires Does(delayed, Read, a, b)
    ensures b.held == a.held && b.refs == a.refs && b.writing == a.writing && b.view == a.view
  {
    assert Look(Conduct, 0);
  }

  lemma WriteHolds(delayed: bool, data: Data, off: nat, a: Obs, b: Obs)
    requires Does(delayed, Write(data, off), a, b)
    ensures b.held && b.refs == a.refs && b.writing && b.view == Overwrite(a.view, off, data) && b.stored == a.stored
  {
    assert Look(Conduct, 0);
  }

  lemma CloseHolds(delayed: bool, ok: bool, a: Obs, b: Obs)
    requires Does(delayed, Close(ok), a, b)
    ensures a.held && a.refs > 0 && b.refs == a.refs - 1
    ensures b.held <==> !Drops(delayed, a)
    ensures b.held ==> b.view == a.view
  {
    assert Look(Conduct, 0);
  }

  lemma ReapHolds(delayed: bool, ok: bool, a: Obs, b: Obs)
    requires Does(delayed, Reap(ok), a, b)
    ensures a.held && a.refs == 0 && b.refs == 0 && (b.held <==> !ok)
  {
    assert Look(Conduct, 0);
  }

  lemma ClosedDropped(delayed: bool, ok: bool, a: Obs, b: Obs)
    requires a.held && a.refs > 0 && Drops(delayed, a) && b == Idle(b.stored)
    requires Pushes(a.(refs := a.refs - 1), ok, b.stored)
    ensures Does(delayed, Close(ok), a, b)
  {
  }

  lemma ClosedKept(delayed: bool, a: Obs, b: Obs)
    requires a.held && a.refs > 0 && !Drops(delayed, a) && b == a.(refs := a.refs - 1)
    ensures Does(delayed, Close(true), a, b)
  {
  }

  lemma FlushedDropped(delayed: bool, a: Obs, b: Obs, c: Obs)
    requires Does(delayed, Sync(true), a, b) && a.held && a.refs == 0 && c == Idle(b.stored)
    ensures Does(delayed, Reap(true), a, c)
  {
    assert Look(Conduct, 0);
  }

  lemma ReapedGone(delayed: bool, a: Obs, b: Obs)
    requires Does(delayed, Reap(true), a, b)
    ensures !b.held
  {
    assert Look(Conduct, 0);
  }

  lemma FlushedStays(delayed: bool, a: Obs, b: Obs)
    requires Does(delayed, Sync(false), a, b) && a.held && a.refs == 0
    ensures Does(delayed, Reap(false), a, b)
  {
    assert Look(Conduct, 0);
  }

  lemma OpenHolds(delayed: bool, forWrite: bool, a: Obs, b: Obs)
    requires Does(delayed, Open(forWrite), a, b)
    ensures b.held && b.refs == a.refs + 1 && (b.writing <==> a.writing || forWrite) && b.view == a.view
    ensures b.faithful == a.faithful && b.stored == a.stored && b.tight == a.tight
  {
    assert Look(Conduct, 0);
  }

  lemma OpenedOnce(delayed: bool, a: Obs, b: Obs)
    requires b == a.(held := true, refs := a.refs + 1)
    ensures Does(delayed, Open(false), a, b)
  {
  }

  lemma OpenedInMode(delayed: bool, forWrite: bool, a: Obs, b: Obs, c: Obs)
    requires Does(delayed, Open(false), a, b) && c == if forWrite then b.(writing := true) else b
    ensures Does(delayed, Open(forWrite), a, c)
  {
    assert Look(Conduct, 0);
  }

  /** An unmount that gets through stores the file as it was seen, exactly unless something was stale. */
  lemma UnmountStores(delayed: bool, a: Obs, b: Obs, ok: bool)
    requires Proper(a) && !b.held && (b == a.(refs := 0) || Does(delayed, Reap(ok), a.(refs := 0), b))
    ensures a.faithful && !a.stale ==> b.stored == a.view
    ensures a.dirty ==> (b.stored == a.view <==> a.faithful && !a.stale)
  {
    assert Look(Conduct, 0);
  }

  /** What an inode goes through when it is truncated without a handle of the caller's; `ok` is whether the flushes got through. */
  ghost predicate TruncateTrace(delayed: bool, length: nat, ok: bool, t: seq<Obs>, acts: seq<Act>) {
    && IsTrace(delayed, t, acts) && |acts| == 4
    && acts[0] == Open(true) && acts[1] == Truncate(length) && acts[3].Close?
    && if delayed then acts[2] == Stay && ok else acts[2].Sync? && (ok <==> acts[2].ok && acts[3].ok)
  }

  lemma FourSteps(delayed: bool, t: seq<Obs>, acts: seq<Act>, a: Obs, b: Obs, c: Obs, d: Obs, e: Obs, w: Act, x: Act, y: Act, z: Act)
    requires Proper(a) && Proper(b) && Proper(c) && Proper(d) && Proper(e)
    requires Does(delayed, w, a, b) && Does(delayed, x, b, c) && Does(delayed, y, c, d) && Does(delayed, z, d, e)
    requires t == [a, b, c, d, e] && acts == [w, x, y, z]
    ensures IsTrace(delayed, t, acts) && |acts| == 4 && t[0] == a && t[4] == e
    ensures acts[0] == w && acts[1] == x && acts[2] == y && acts[3] == z
  {
    forall k | 0 <= k < |acts|
      ensures Does(delayed, acts[k], t[k], t[k + 1])
    {
      if k == 0 || k == 1 {
      } else {
        assert k == 2 || k == 3;
      }
    }
  }

  lemma TruncateSteps(delayed: bool, length: nat, ok: bool, t: seq<Obs>, acts: seq<Act>,
                      a: Obs, b: Obs, c: Obs, d: Obs, e: Obs, y: Act, closed: bool)
    requires Proper(a) && Proper(b) && Proper(c) && Proper(d) && Proper(e)
    requires Does(delayed, Open(true), a, b) && Does(delayed, Truncate(length), b, c) && Does(delayed, y, c, d)
    requires Does(delayed, Close(closed), d, e) && t == [a, b, c, d, e] && acts == [Open(true), Truncate(length), y, Close(closed)]
    requires if delayed then y == Stay && ok else y.Sync? && (ok <==> y.ok && closed)
    ensures TruncateTrace(delayed, length, ok, t, acts) && t[0] == a && t[4] == e
  {
    FourSteps(delayed, t, acts, a, b, c, d, e, Open(true), Truncate(length), y, Close(closed));
  }

  /**
    The file is the resized one wherever its state survives, and otherwise if the flushes got through and nothing that was
    cut off comes back.
   */
  lemma TruncatedView(delayed: bool, length: nat, ok: bool, t: seq<Obs>, acts: seq<Act>)
    requires TruncateTrace(delayed, length, ok, t, acts)
    ensures t[4].refs == t[0].refs && (delayed ==> t[4].held)
    ensures t[4].held ==> t[4].view == Resize(t[0].view, length)
    ensures ok && t[0].faithful && t[0].tight && Seamless(|t[0].view|, |t[0].stored|, length) ==> t[4].view == Resize(t[0].view, length)
  {
    assert Does(delayed, acts[0], t[0], t[0 + 1]) && Does(delayed, acts[1], t[1], t[1 + 1]);
    assert Does(delayed, acts[2], t[2], t[2 + 1]) && Does(delayed, acts[3], t[3], t[3 + 1]);
    OpenHolds(delayed, true, t[0], t[1]);
    TruncateHolds(delayed, length, t[1], t[2]);
    FlushHolds(delayed, acts[2], t[2], t[3]);
    CloseHolds(delayed, acts[3].ok, t[3], t[4]);
    TruncateStored(delayed, acts[1], acts[2], acts[3], t[1], t[2], t[3], t[4]);
  }

  /** The flush of a truncate, and the close after it. */
  lemma TruncateStored(delayed: bool, x: Act, y: Act, z: Act, b: Obs, c: Obs, d: Obs, e: Obs)
    requires Does(delayed, x, b, c) && x.Truncate? && Does(delayed, y, c, d) && Does(delayed, z, d, e) && z.Close?
    requires if delayed then y == Stay else y.Sync?
    ensures delayed ==> e.held
    ensures !delayed && y.ok && z.ok && c.faithful && !c.stale && !e.held ==> e.view == c.view
  {
    assert Look(Conduct, 0);
  }

  // ----- whole runs ------------------------------------------------------------------------

  /** What is seen of one inode before, between and after the operations of a run. */
  ghost predicate IsTrace(delayed: bool, t: seq<Obs>, acts: seq<Act>) {
    && |t| == |acts| + 1
    && (forall k :: 0 <= k < |t| ==> Proper(t[k]))
    && forall k :: 0 <= k < |acts| ==> Does(delayed, acts[k], t[k], t[k + 1])
  }

  function PlainRun(v: Data, acts: seq<Act>, k: nat): Data
    requires k <= |acts|
  {
    if k == 0 then v else PlainAct(PlainRun(v, acts, k - 1), acts[k - 1])
  }

  predicate KeepsAll(acts: seq<Act>, k: nat) {
    forall j :: 0 <= j < k && j < |acts| ==> !Loses(acts[j])
  }

  /** No flush among the first k operations meets a stale chunk. */
  ghost predicate NoneStale(delayed: bool, t: seq<Obs>, acts: seq<Act>, k: nat)
    requires IsTrace(delayed, t, acts)
  {
    forall j :: 0 <= j < k && j < |acts| ==> Flushes(delayed, t[j], acts[j]) ==> !t[j].stale
  }

  /** Every flush among the first k operations stores what a plain byte array would hold. */
  ghost predicate AllExact(delayed: bool, t: seq<Obs>, acts: seq<Act>, k: nat)
    requires IsTrace(delayed, t, acts)
  {
    forall j :: 0 <= j < k && j < |acts| ==> Flushes(delayed, t[j], acts[j]) ==> t[j + 1].stored == PlainRun(t[0].view, acts, j + 1)
  }

  /**
    Over any run of any operations, as long as the inode is not discarded, no undelayed last close fails and no flush is
    stale, its readers see the plain byte array, and that is what is stored whenever nothing is pending.
   */
  lemma {:induction false} CleanRunKeeps(delayed: bool, t: seq<Obs>, acts: seq<Act>, k: nat)
    requires IsTrace(delayed, t, acts) && t[0].faithful && k <= |acts| && KeepsAll(acts, k) && NoneStale(delayed, t, acts, k)
    ensures t[k].faithful && t[k].view == PlainRun(t[0].view, acts, k)
    ensures !t[k].dirty ==> t[k].stored == PlainRun(t[0].view, acts, k)
    decreases k
  {
    if k > 0 {
      CleanRunKeeps(delayed, t, acts, k - 1);
      assert Does(delayed, acts[k - 1], t[k - 1], t[k - 1 + 1]);
      StepKeeps(delayed, acts[k - 1], t[k - 1], t[k]);
    }
    assert Proper(t[k]);
  }

  lemma {:induction false} ExactIsClean(delayed: bool, t: seq<Obs>, acts: seq<Act>, k: nat)
    requires IsTrace(delayed, t, acts) && t[0].faithful && k <= |acts| && KeepsAll(acts, k) && AllExact(delayed, t, acts, k)
    ensures NoneStale(delayed, t, acts, k)
    decreases k
  {
    if k > 0 {
      ExactIsClean(delayed, t, acts, k - 1);
      CleanRunKeeps(delayed, t, acts, k - 1);
      if Flushes(delayed, t[k - 1], acts[k - 1]) {
        assert Does(delayed, acts[k - 1], t[k - 1], t[k - 1 + 1]);
        FlushExactIff(delayed, acts[k - 1], t[k - 1], t[k]);
        assert t[k - 1 + 1].stored == PlainRun(t[0].view, acts, k - 1 + 1);
      }
    }
  }

  /** Every flush of a run is exact if and only if none of them meets a stale chunk. */
  lemma ExactIff(delayed: bool, t: seq<Obs>, acts: seq<Act>, k: nat)
    requires IsTrace(delayed, t, acts) && t[0].faithful && k <= |acts| && KeepsAll(acts, k)
    ensures AllExact(delayed, t, acts, k) <==> NoneStale(delayed, t, acts, k)
  {
    if AllExact(delayed, t, acts, k) {
      ExactIsClean(delayed, t, acts, k);
    }
    if NoneStale(delayed, t, acts, k) {
      forall j | 0 <= j < k && Flushes(delayed, t[j], acts[j])
        ensures t[j + 1].stored == PlainRun(t[0].view, acts, j + 1)
      {
        CleanRunKeeps(delayed, t, acts, j);
        assert Does(delayed, acts[j], t[j], t[j + 1]);
        FlushExactIff(delayed, acts[j], t[j], t[j + 1]);
      }
    }
  }

  // ----- without gaps ----------------------------------------------------------------------

  /** The operation does not extend the file over a gap while more is stored than the file now holds. */
  predicate GapFree(a: Obs, act: Act) {
    match act
    case Write(_, off) => Seamless(|a.view|, |a.stored|, off)
    case Truncate(length) => Seamless(|a.view|, |a.stored|, length)
    case _ => true
  }

  predicate NoGaps(t: seq<Obs>, acts: seq<Act>, k: nat)
    requires |t| == |acts| + 1
  {
    forall j :: 0 <= j < k && j < |acts| ==> GapFree(t[j], acts[j])
  }

  lemma StepTight(delayed: bool, act: Act, a: Obs, b: Obs)
    requires Does(delayed, act, a, b) && a.tight && GapFree(a, act)
    ensures b.tight
  {
    assert Look(Conduct, 0);
  }

  /** A run without such gaps meets no stale chunk, whatever else it does. */
  lemma {:induction false} StaysTight(delayed: bool, t: seq<Obs>, acts: seq<Act>, k: nat)
    requires IsTrace(delayed, t, acts) && t[0].tight && k <= |acts| && NoGaps(t, acts, k)
    ensures t[k].tight && NoneStale(delayed, t, acts, k)
    decreases k
  {
    if k > 0 {
      StaysTight(delayed, t, acts, k - 1);
      assert Does(delayed, acts[k - 1], t[k - 1], t[k - 1 + 1]);
      assert GapFree(t[k - 1], acts[k - 1]);
      StepTight(delayed, acts[k - 1], t[k - 1], t[k]);
      assert Proper(t[k - 1]);
    }
  }

  /**
    Delayed writeback loses nothing: over any run of opens, reads, writes, truncates, syncs, closes and reaps that neither
    discards the inode nor fails an undelayed last close, and extends the file over no gap while more is stored than it
    holds, readers see the plain byte array, and whenever nothing is pending the store holds it.
   */
  lemma NothingLost(delayed: bool, t: seq<Obs>, acts: seq<Act>, k: nat)
    requires IsTrace(delayed, t, acts) && t[0].faithful && t[0].tight && k <= |acts| && KeepsAll(acts, k) && NoGaps(t, acts, k)
    ensures t[k].view == PlainRun(t[0].view, acts, k)
    ensures !t[k].dirty ==> t[k].stored == PlainRun(t[0].view, acts, k)
  {
    StaysTight(delayed, t, acts, k);
    CleanRunKeeps(delayed, t, acts, k);
  }

  /** So once its state is gone, as after an unmount that gets through, the store holds the file as it was last seen. */
  lemma StoredAtLast(delayed: bool, t: seq<Obs>, acts: seq<Act>)
    requires IsTrace(delayed, t, acts) && t[0].faithful && t[0].tight && KeepsAll(acts, |acts|) && NoGaps(t, acts, |acts|)
    requires !t[|acts|].held
    ensures t[|acts|].stored == PlainRun(t[0].view, acts, |acts|)
  {
    NothingLost(delayed, t, acts, |acts|);
    assert Proper(t[|acts|]);
  }

  predicate NeverShrinks(t: seq<Obs>, acts: seq<Act>, k: nat)
    requires |t| == |acts| + 1
  {
    forall j :: 0 <= j < k && j < |acts| && acts[j].Truncate? ==> |t[j].view| <= acts[j].length
  }

  /** Readers see at least as much as is stored, and the store agrees with what is not pending. */
  predicate Ahead(a: Obs) {
    a.faithful && a.tight && |a.stored| <= |a.view|
  }

  lemma StepAhead(delayed: bool, act: Act, a: Obs, b: Obs)
    requires Does(delayed, act, a, b) && Proper(a) && Ahead(a) && (act.Truncate? ==> |a.view| <= act.length)
    ensures Ahead(b) && GapFree(a, act)
  {
    assert Look(Conduct, 0);
  }

  /** A run that never shrinks the file has no such gap. */
  lemma {:induction false} GrowingRun(delayed: bool, t: seq<Obs>, acts: seq<Act>, k: nat)
    requires IsTrace(delayed, t, acts) && Ahead(t[0]) && k <= |acts| && NeverShrinks(t, acts, k)
    ensures Ahead(t[k]) && NoGaps(t, acts, k)
    decreases k
  {
    if k > 0 {
      GrowingRun(delayed, t, acts, k - 1);
      assert Does(delayed, acts[k - 1], t[k - 1], t[k - 1 + 1]);
      assert Proper(t[k - 1]);
      StepAhead(delayed, acts[k - 1], t[k - 1], t[k]);
    }
  }

  /** So nothing is lost over any run that never shrinks the file. */
  lemma GrowingRunKeeps(delayed: bool, t: seq<Obs>, acts: seq<Act>, k: nat)
    requires IsTrace(delayed, t, acts) && Ahead(t[0]) && k <= |acts| && NeverShrinks(t, acts, k) && KeepsAll(acts, k)
    ensures t[k].view == PlainRun(t[0].view, acts, k)
    ensures !t[k].dirty ==> t[k].stored == PlainRun(t[0].view, acts, k)
  {
    GrowingRun(delayed, t, acts, k);
    NothingLost(delayed, t, acts, k);
  }

  /** The run holds no empty write past the end of the file; a kernel never issues one. */
  predicate Ordinary(t: seq<Obs>, acts: seq<Act>, k: nat)
    requires |t| == |acts| + 1
  {
    forall j :: 0 <= j < k && j < |acts| && acts[j].Write? && acts[j].data == [] ==> acts[j].off <= |t[j].view|
  }

  /** Then every read is complete. */
  lemma {:induction false} StaysWhole(delayed: bool, t: seq<Obs>, acts: seq<Act>, k: nat)
    requires IsTrace(delayed, t, acts) && t[0].whole && k <= |acts| && Ordinary(t, acts, k)
    ensures t[k].whole
    decreases k
  {
    if k > 0 {
      StaysWhole(delayed, t, acts, k - 1);
      assert Does(delayed, acts[k - 1], t[k - 1], t[k - 1 + 1]);
      assert Look(Conduct, 0);
    }
  }

  /** Write mode is kept as long as a state is. */
  lemma StaysWriting(delayed: bool, act: Act, a: Obs, b: Obs)
    requires Does(delayed, act, a, b) && a.writing && b.held
    ensures b.writing
  {
    assert Look(Conduct, 0);
  }
}
