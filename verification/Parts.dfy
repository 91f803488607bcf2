/** Parallel part transfer: workers that share one index iterator, under every schedule. */
module Parts {
  import opened Bytes
  import opened Blobs
  import opened Plan

  type Worker = nat

  /** The shared iterator, the part each worker is moving, and the parts moved so far in the order they finished. */
  datatype Pool = Pool(count: nat, next: nat, busy: map<Worker, nat>, moved: seq<nat>, failed: bool)

  datatype Step = Take(w: Worker) | Finish(w: Worker) | Fail(w: Worker)

  predicate Can(p: Pool, step: Step) {
    !p.failed &&
    match step
    case Take(w) => w !in p.busy && p.next < p.count
    case Finish(w) => w in p.busy
    case Fail(w) => w in p.busy
  }

  function Act(p: Pool, step: Step): Pool
    requires Can(p, step)
  {
    match step
    case Take(w) => p.(next := p.next + 1, busy := p.busy[w := p.next])
    case Finish(w) => p.(busy := p.busy - {w}, moved := p.moved + [p.busy[w]])
    case Fail(w) => p.(busy := map[], failed := true)  // the others are cancelled, the transfer raises
  }

  function Start(count: nat): Pool {
    Pool(count, 0, map[], [], false)
  }

  /** Steps that can be taken one after the other. */
  predicate Runs(p: Pool, steps: seq<Step>)
    decreases |steps|
  {
    steps != [] ==> Can(p, steps[0]) && Runs(Act(p, steps[0]), steps[1..])
  }

  function After(p: Pool, steps: seq<Step>): Pool
    requires Runs(p, steps)
    decreases |steps|
  {
    if steps == [] then p else After(Act(p, steps[0]), steps[1..])
  }

  /** The transfer returns: the iterator is drained and every worker is through. */
  predicate Complete(p: Pool) {
    !p.failed && p.next == p.count && p.busy == map[]
  }

  ghost predicate InProgress(p: Pool, i: nat) {
    exists w :: w in p.busy && p.busy[w] == i
  }

  /** Moved, in progress and not yet issued: as long as nothing failed each index is in exactly one of the three, once. */
  ghost predicate Inv(p: Pool) {
    && p.next <= p.count
    && (forall j, k :: 0 <= j < k < |p.moved| ==> p.moved[j] != p.moved[k])
    && (forall v, w :: v in p.busy && w in p.busy && p.busy[v] == p.busy[w] ==> v == w)
    && (forall i :: i in p.moved ==> i < p.next && !InProgress(p, i))
    && (forall w :: w in p.busy ==> p.busy[w] < p.next)
    && (!p.failed ==> forall i: nat :: i < p.next ==> i in p.moved || InProgress(p, i))
  }

  lemma ActKeeps(p: Pool, step: Step)
    requires Inv(p) && Can(p, step)
    ensures Inv(Act(p, step))
  {
    var p' := Act(p, step);
    match step
    case Take(w) =>
      TakeKeeps(p, w);
    case Finish(w) =>
      FinishKeeps(p, w);
    case Fail(w) =>
  }

  lemma TakeKeeps(p: Pool, w: Worker)
    requires Inv(p) && Can(p, Take(w))
    ensures Inv(Act(p, Take(w)))
  {
    var p' := Act(p, Take(w));
    forall i: nat | i < p'.next
      ensures i in p'.moved || InProgress(p', i)
    {
      if i == p.next {
        assert p'.busy[w] == i;
      } else if i !in p.moved {
        var v :| v in p.busy && p.busy[v] == i;
        assert p'.busy[v] == i;
      }
    }
  }

  lemma FinishKeeps(p: Pool, w: Worker)
    requires Inv(p) && Can(p, Finish(w))
    ensures Inv(Act(p, Finish(w)))
  {
    var p' := Act(p, Finish(w));
    assert InProgress(p, p.busy[w]);
    forall i: nat | i < p'.next
      ensures i in p'.moved || InProgress(p', i)
    {
      if i !in p.moved && i != p.busy[w] {
        var v :| v in p.busy && p.busy[v] == i;
        assert v in p'.busy && p'.busy[v] == i;
      }
    }
  }

  lemma {:induction false} RunKeeps(p: Pool, steps: seq<Step>)
    requires Inv(p) && Runs(p, steps)
    ensures Inv(After(p, steps)) && After(p, steps).count == p.count
    decreases |steps|
  {
    if steps != [] {
      ActKeeps(p, steps[0]);
      RunKeeps(Act(p, steps[0]), steps[1..]);
    }
  }

  /** Each of the indexes, once. */
  ghost predicate AllOnce(order: seq<nat>, n: nat) {
    && (forall j, k :: 0 <= j < k < |order| ==> order[j] != order[k])
    && (forall j :: 0 <= j < |order| ==> order[j] < n)
    && (forall i: nat :: i < n ==> i in order)
  }

  /** Under every schedule, with any number of workers, a transfer that returns has moved every part exactly once. */
  lemma EveryPartOnce(count: nat, steps: seq<Step>)
    requires Runs(Start(count), steps) && Complete(After(Start(count), steps))
    ensures AllOnce(After(Start(count), steps).moved, count)
  {
    RunKeeps(Start(count), steps);
    var order := After(Start(count), steps).moved;
    assert forall j :: 0 <= j < |order| ==> order[j] in order;
  }

  // ----- what is moved ---------------------------------------------------------------------

  /** What the server has after the first k parts arrived. */
  ghost function Received(data: Data, cs: nat, order: seq<nat>, k: nat): map<nat, Data>
    requires cs > 0 && k <= |order| && forall j :: 0 <= j < |order| ==> order[j] < Chunks(|data|, cs)
  {
    if k == 0 then map[] else Received(data, cs, order, k - 1)[order[k - 1] := Chunk(data, order[k - 1], cs)]
  }

  lemma {:induction false} ReceivedIs(data: Data, cs: nat, order: seq<nat>, k: nat)
    requires cs > 0 && k <= |order| && forall j :: 0 <= j < |order| ==> order[j] < Chunks(|data|, cs)
    ensures Received(data, cs, order, k).Keys == set i | i in order[..k]
    ensures forall i :: i in Received(data, cs, order, k) ==>
              i < Chunks(|data|, cs) && Received(data, cs, order, k)[i] == Chunk(data, i, cs)
    decreases k
  {
    if k > 0 {
      ReceivedIs(data, cs, order, k - 1);
      assert order[..k] == order[..k - 1] + [order[k - 1]];
      var was, now := Received(data, cs, order, k - 1), Received(data, cs, order, k);
      assert now == was[order[k - 1] := Chunk(data, order[k - 1], cs)];
    }
  }

  /** The document made of parts 0 to k - 1. */
  function Joined(parts: map<nat, Data>, k: nat): Data
    requires forall i: nat :: i < k ==> i in parts
  {
    if k == 0 then [] else Joined(parts, k - 1) + parts[k - 1]
  }

  lemma {:induction false} JoinedIs(data: Data, cs: nat, parts: map<nat, Data>, k: nat)
    requires cs > 0 && k <= Chunks(|data|, cs)
    requires forall i: nat :: i < Chunks(|data|, cs) ==> i in parts && parts[i] == Chunk(data, i, cs)
    ensures Joined(parts, k) == data[..Min(Off(k, cs), |data|)]
  {
    if k > 0 {
      JoinedIs(data, cs, parts, k - 1);
      OffShift(k - 1, cs);
      ChunkInside(k - 1, |data|, cs);
      JoinedStep(data, cs, k - 1, parts[k - 1], Off(k - 1, cs), Min(Off(k, cs), |data|));
    }
  }

  lemma JoinedStep(data: Data, cs: nat, i: nat, part: Data, lo: nat, hi: nat)
    requires cs > 0 && i < Chunks(|data|, cs) && part == Chunk(data, i, cs)
    requires lo == Off(i, cs) && hi == Min(lo + cs, |data|) && lo <= hi
    ensures data[..hi] == data[..Min(lo, |data|)] + part
  {
    ChunkInside(i, |data|, cs);
    assert part == data[lo..hi];
  }

  /** The buffer after the first k parts came in, each written to its own offset. */
  ghost function Filled(doc: Data, cs: nat, order: seq<nat>, k: nat): Data
    requires cs > 0 && k <= |order| && forall j :: 0 <= j < |order| ==> order[j] < Chunks(|doc|, cs)
  {
    if k == 0 then Zeros(|doc|)
    else WriteAt(Filled(doc, cs, order, k - 1), Off(order[k - 1], cs), Chunk(doc, order[k - 1], cs))
  }

  lemma {:induction false} FilledIs(doc: Data, cs: nat, order: seq<nat>, k: nat)
    requires cs > 0 && k <= |order| && forall j :: 0 <= j < |order| ==> order[j] < Chunks(|doc|, cs)
    ensures |Filled(doc, cs, order, k)| == |doc|
    ensures forall p: nat :: p < |doc| ==>
              Filled(doc, cs, order, k)[p] == if Idx(p, cs) in order[..k] then doc[p] else 0
    decreases k
  {
    if k > 0 {
      FilledIs(doc, cs, order, k - 1);
      var i := order[k - 1];
      ChunkInside(i, |doc|, cs);
      assert order[..k] == order[..k - 1] + [i];
      var was, now := Filled(doc, cs, order, k - 1), Filled(doc, cs, order, k);
      assert now == WriteAt(was, Off(i, cs), Chunk(doc, i, cs));
      forall p: nat | p < |doc|
        ensures now[p] == if Idx(p, cs) in order[..k] then doc[p] else 0
      {
        FilledByte(doc, cs, i, was, now, p);
      }
    }
  }

  lemma FilledByte(doc: Data, cs: nat, i: nat, was: Data, now: Data, p: nat)
    requires cs > 0 && i < Chunks(|doc|, cs) && |was| == |doc| == |now| && p < |doc|
    requires now == WriteAt(was, Off(i, cs), Chunk(doc, i, cs))
    ensures now[p] == if Idx(p, cs) == i then doc[p] else was[p]
  {
    ChunkInside(i, |doc|, cs);
    assert now[p] == At(now, p) && was[p] == At(was, p);
    assert Want(i, |doc|, cs) == cs || Off(i, cs) + Want(i, |doc|, cs) == |doc|;
    if Off(i, cs) <= p < Off(i, cs) + Want(i, |doc|, cs) {
      IdxIs(p, cs, i);
    }
  }

  /** Parts that arrived in any order make up the document. */
  lemma UploadExact(data: Data, cs: nat, order: seq<nat>)
    requires cs > 0 && AllOnce(order, Chunks(|data|, cs))
    ensures var parts := Received(data, cs, order, |order|);
            (forall i: nat :: i < Chunks(|data|, cs) ==> i in parts) && Joined(parts, Chunks(|data|, cs)) == data
  {
    ReceivedIs(data, cs, order, |order|);
    assert order[..|order|] == order;
    JoinedIs(data, cs, Received(data, cs, order, |order|), Chunks(|data|, cs));
    assert data[..|data|] == data;
  }

  /** Parts written in any order fill the buffer. */
  lemma DownloadExact(doc: Data, cs: nat, order: seq<nat>)
    requires cs > 0 && AllOnce(order, Chunks(|doc|, cs))
    ensures Filled(doc, cs, order, |order|) == doc
  {
    var out := Filled(doc, cs, order, |order|);
    FilledIs(doc, cs, order, |order|);
    assert order[..|order|] == order;
    forall p: nat | p < |doc|
      ensures out[p] == doc[p]
    {
      IdxBelow(p, |doc|, cs);
    }
    SameBytes(out, doc);
  }

  /** Whatever the schedules of the two transfers: a document uploaded in parts and downloaded in parts is what it was. */
  lemma TransferRoundTrip(data: Data, cs: nat, up: Pool, down: Pool, ups: seq<Step>, downs: seq<Step>)
    requires cs > 0
    requires Runs(Start(Chunks(|data|, cs)), ups) && up == After(Start(Chunks(|data|, cs)), ups) && Complete(up)
    requires Runs(Start(Chunks(|data|, cs)), downs) && down == After(Start(Chunks(|data|, cs)), downs) && Complete(down)
    ensures AllOnce(up.moved, Chunks(|data|, cs)) && AllOnce(down.moved, Chunks(|data|, cs))
    ensures var parts := Received(data, cs, up.moved, |up.moved|);
            && (forall i: nat :: i < Chunks(|data|, cs) ==> i in parts)
            && (var doc := Joined(parts, Chunks(|data|, cs)); doc == data && Filled(doc, cs, down.moved, |down.moved|) == data)
  {
    EveryPartOnce(Chunks(|data|, cs), ups);
    EveryPartOnce(Chunks(|data|, cs), downs);
    UploadExact(data, cs, up.moved);
    DownloadExact(data, cs, down.moved);
  }

  /** The part limit is a size limit. */
  lemma PartLimit(size: nat, cs: nat, maxParts: nat)
    requires cs > 0
    ensures Chunks(size, cs) > maxParts <==> size > Off(maxParts, cs)
  {
    var k := Chunks(size, cs);
    if k > maxParts {
      if maxParts < k - 1 {
        OffGap(maxParts, k - 1, cs);
      }
    } else if k < maxParts {
      OffGap(k, maxParts, cs);
    }
  }
}
